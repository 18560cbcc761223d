# Napoleon dashboard: the deterministic core of `app/page.tsx`

Napoleon is a single-page dashboard for running coding agents in
workspaces. There is a sidebar of projects and workspaces, a chat pane, a
terminal with tabs, and a review panel that walks through a changeset file
by file. Most of the page is layout and animation. Underneath it is a set of
small, integer-only behaviours. This project states them as pure Dafny
functions over immutable records and proves what they guarantee.

| module | file | what it covers |
|---|---|---|
| `Base` | base.dfy | `Option`, order-preserving `Filter`, counting |
| `Text` | text.dfy | decimal numerals, `split`/`join`, JavaScript `trim`, ASCII `toLowerCase` |
| `Patch` | patch.dfy | `FileDiff`/`DiffHunk`/`DiffLine`, the `totalStats` fold, the sample changeset `mockDiffData` and the side summary's hand-written copy of it |
| `Render` | render.dfy | status label and colour, line prefix and colours, gutters, hunk header, basename/dirname, the inline transcript diff |
| `Review` | review.dfy | the review panel's cursor: previous/next, arrow keys, auto-select, summary clicks, the placeholder for unknown paths |
| `Store` | store.dfy | `deleteWorkspace`, `addWorkspace`, `toggleProject`, the per-project list, the `⌘n` shortcut number, the main view choice |
| `Clock` | clock.dfy | `timeAgo` and `formatTime` |
| `Terminal` | terminal.dfy | `Terminal.handleCommand` and the scrollback it builds |
| `Tabs` | tabs.dfy | `TerminalTabs` add/close/select, as written and corrected |
| `Chat` | chat.dfy | the chat pane's undo menu, send guard, Enter key, collapsible flags |
| `NewWorkspace` | newworkspace.dfy | the `NewWorkspaceCard` life cycle, with timers as events |
| `Layout` | layout.dfy | panel-width clamps and the command-key flag |

Time, timers and randomness enter as parameters or events:
- `Date.now()` becomes `nowMs` or an id stamp.
- `setInterval` and `setTimeout` firings become `SecondTick`, `StepTimer`, `StepsDone` and `FinishTimer`.
- The random city becomes an index taken modulo 8.

Some behaviour of the code, stated plainly because a reader might expect otherwise:
- `setSelectedWorkspace` and `setSelectedDiffFile` store any string without checking it.
- A changeset is never versioned and stale results are never discarded. Nothing in the page does either.
- A file's stored `additions`/`deletions` are not counts of its hunk lines. The sample changeset's own figures disagree with its lines.
- The hunk header counts are neither checked against the lines nor derived from them.
- The hunk header always prints both numbers of a range. The unified format of the POSIX `diff` utility omits a length of 1; this header does not.

## Model

| member | source | states |
|---|---|---|
| `Text.Trim` | app/page.tsx:570 | `trim()` yields "" exactly for all-whitespace input; otherwise the result is a slice of the input that starts and ends with a non-whitespace character |
| `Text.NatToString` | app/page.tsx:1204 | `toString()` of a non-negative integer is a numeral with no leading zero that reads back as the number |
| `Patch.TotalStats` | app/page.tsx:829-835 | `totalStats` is the sum of the files' stored additions and the sum of their stored deletions |
| `Patch.StatsFoldAddsSums` | app/page.tsx:829-835 | the `reduce` from any accumulator adds the reference sums to it |
| `Patch.TotalStatsConcat` | app/page.tsx:829-835 | totals of two concatenated changesets add up |
| `Patch.MockTotals` | app/page.tsx:1130-1166 | the sample changeset has five files and totals (158, 23); the side summary mirrors it row for row, and its literal badges "+158"/"-23" print those totals |
| `Patch.MockFiguresAreNotLineCounts` | app/page.tsx:641-676 | the first sample file claims 45 additions, but its one hunk has only 18 lines, so stored figures are not line counts |
| `Render.StatusLabel` | app/page.tsx:892-903 | the label is one of A/M/D/?, and it is "?" exactly when the status is none of added/modified/deleted |
| `Render.StatusLabelIsInitial` | app/page.tsx:1185-1187 | the panel's label is the upper-cased first letter the side summary shows; distinct statuses get distinct letters and colours |
| `Render.StyleOf` | app/page.tsx:1041-1053 | the prefix is "+" exactly for add, "-" exactly for remove, and " " exactly for context and header |
| `Render.StyleClasses` | app/page.tsx:1041-1053 | header lines are styled exactly like context lines; add, remove and context backgrounds differ pairwise |
| `Render.Gutter` | app/page.tsx:1062-1067 | a line number renders blank exactly when absent or 0; otherwise as a numeral reading back as the number |
| `Render.RenderHunkRows` | app/page.tsx:1039-1075 | one row per line in order, each carrying its own line's content, both gutters and the style of its type |
| `Render.RowsReadBack` | app/page.tsx:1039-1075 | from each row one reads back the line's type from the glyph and each line number from its gutter, blank exactly for a missing or zero number |
| `Render.HunkHeaderRoundTrip` | app/page.tsx:1035 | the printed `@@ -a,b +c,d @@` header parses back to its four numbers |
| `Render.RangeHasOneComma` | app/page.tsx:1035 | each printed `start,lines` range holds exactly one comma |
| `Render.HunkHeaderPrintsLengths` | app/page.tsx:1035 | the header always holds exactly two commas: both lengths are printed |
| `Render.PathSplits` | app/page.tsx:986-988 | the name has no slash; folder + "/" + name is the path; a path without a slash is all name |
| `Render.InlineRows` | app/page.tsx:2258-2266 | k newlines give k+1 rows numbered 1..k+1; a row is an addition iff it starts with "+", a deletion iff it starts with "-", and never both |
| `Render.InlineRowsLossless` | app/page.tsx:2258 | joining the rows' texts with newlines gives back the content |
| `Render.InlineSharesLineColours` | app/page.tsx:2261-2262 | each inline row has exactly the colours the full viewer gives its line type |
| `Review.IndexOfPath` | app/page.tsx:826 | `findIndex`: -1 exactly when no file has the path; otherwise the first matching position |
| `Review.FindIndex` | app/page.tsx:826 | an empty selection gives -1; otherwise the index of its path |
| `Review.CurrentFile` | app/page.tsx:827 | no file exactly when the index is -1; otherwise a listed file whose path is the selection |
| `Review.Next` | app/page.tsx:837-841 | leaves the panel flag alone, and leaves the state unchanged at the last index |
| `Review.Prev` | app/page.tsx:843-847 | leaves the panel flag alone, and leaves the state unchanged at index 0 or -1 |
| `Review.NextStep` | app/page.tsx:826-841 | with distinct paths, next moves the index one forward (from -1 to the first file) and stops at the last |
| `Review.PrevStep` | app/page.tsx:826-847 | previous moves the index one back, stops at 0, and does nothing with no selection |
| `Review.PrevUndoesNext` | app/page.tsx:837-847 | away from the ends, previous undoes next and next undoes previous |
| `Review.ButtonsAgreeWithHandlers` | app/page.tsx:1104-1112 | "next" is disabled exactly when its handler is inert; "previous" is inert at index 0 and at -1 but is disabled only at 0 |
| `Review.KeyDown` | app/page.tsx:849-864 | with the panel closed or a key other than the arrows, nothing changes; ArrowDown is next, ArrowUp is previous |
| `Review.ArrowKeysOnlyWhileOpen` | app/page.tsx:852-860 | default handling is suppressed exactly for navigating keys; every other key leaves the cursor |
| `Review.AutoSelect` | app/page.tsx:905-909 | when the panel is open, the selection falsy and the list non-empty, the first path is selected; otherwise nothing changes |
| `Review.AutoSelectIdempotent` | app/page.tsx:905-909 | running the effect twice is the same as once |
| `Review.StepKeepsValid` | app/page.tsx:819-909 | an event carrying a listed path keeps the selection valid; an open panel over a non-empty list then shows a file |
| `Review.RunKeepsValid` | app/page.tsx:819-909 | the same holds for any sequence of such events |
| `Review.SummaryClickOpensFile` | app/page.tsx:1151-1154 | a side-summary click on a listed path opens the panel showing that file |
| `Review.UnknownPathShowsPlaceholder` | app/page.tsx:1013-1086 | an unlisted path is stored as is, the placeholder shows, and next then jumps to the first file |
| `Review.ViewingPosition` | app/page.tsx:1098 | the "Viewing n of m" position lies in 0..m and is 0 exactly when the placeholder is shown |
| `Review.MockPathsDistinct` | app/page.tsx:639-817 | the sample changeset's paths are distinct |
| `Review.MockNavigation` | app/page.tsx:837-864 | from the third of five sample files two nexts reach the last and a third stays; with the panel closed, arrows do nothing |
| `Store.FirstIdOrNull` | app/page.tsx:291 | the fallback `ws[0]?.id` or null is null exactly for an empty list or an empty first id; otherwise the first id |
| `Store.DeleteWorkspaceAsWritten` | app/page.tsx:287-292 | removes exactly the workspaces with the id, keeping order; the selection changes only if it was the deleted id, falling back to the pre-deletion first id |
| `Store.DeleteFirstSelectedDangles` | app/page.tsx:287-292 | deleting the selected workspace when it is listed first with an unshared id removes only it but keeps its id selected, so no selection is valid and the empty state shows |
| `Store.DeleteAsWrittenLeavesDanglingSelection` | app/page.tsx:287-292 | deleting the selected first workspace "1" of the initial store leaves "1" selected with no such workspace, so the page shows its empty state |
| `Store.DeleteWorkspace` | app/page.tsx:287-292 | corrected: same removal, the fallback is the first remaining id, and a valid selection stays valid |
| `Store.DeleteVersionsAgree` | app/page.tsx:287-292 | unless the deleted workspace was both selected and first, the written and corrected deletes give the same sidebar |
| `Store.AddWorkspace` | app/page.tsx:293-296 | appends the workspace at the end; keeps earlier ones and the selection, whose validity is preserved |
| `Store.ProjectWorkspaces` | app/page.tsx:1819 | a project's section holds exactly that project's workspaces |
| `Store.AddShowsInOwnProject` | app/page.tsx:293-296 | an added workspace appears last in its own project's section; other sections are unchanged |
| `Store.ToggleProject` | app/page.tsx:298-304 | flips the visible state of that project (a missing key reads as closed), and no other |
| `Store.ToggleTwice` | app/page.tsx:298-304 | toggling twice restores every project's visible state |
| `Store.ShortcutNumber` | app/page.tsx:460 | the number shown is always between 1 and 9 |
| `Store.ShortcutNumbersRepeatAfterNine` | app/page.tsx:460 | two rows show the same number exactly when their positions agree modulo 9 |
| `Store.FindWorkspace` | app/page.tsx:1928 | `find` yields the first listed workspace with the selected id, and nothing exactly when the id is null or unlisted |
| `Store.ViewOf` | app/page.tsx:2015-2021 | the chat is shown exactly when the selection is non-null and names an existing workspace, and it is the chat of a workspace with the selected id |
| `Store.ViewIsFirstSelected` | app/page.tsx:1928 | the chat shown is that of the first workspace carrying the selected id |
| `Clock.ElapsedSeconds` | app/page.tsx:316 | the floor of elapsed milliseconds over 1000 |
| `Clock.AgeOf` | app/page.tsx:318-324 | the unit is s/m/h/d exactly for below 60, below 3600, below 86400, and beyond; the count is the floor in that unit; for m, h and d it is at least 1, and for s it is the elapsed seconds themselves |
| `Clock.AgeCountsBounded` | app/page.tsx:318-324 | minutes stay below 60, hours below 24, and a count never exceeds the seconds |
| `Clock.AgeMonotone` | app/page.tsx:318-324 | an older workspace never shows a smaller unit, nor a smaller count in the same unit |
| `Clock.TimeAgo` | app/page.tsx:315-325 | every label ends in " ago" |
| `Clock.FormatAgeRoundTrip` | app/page.tsx:318-324 | the label reads back as the count and unit it was made from |
| `Clock.InitialAges` | app/page.tsx:224-270 | the initial workspaces are 5, 15 and 30 minutes, 2 hours and 1 minute old in whole units, and the 2-hour one reads "2h ago" |
| `Clock.PadTwo` | app/page.tsx:1668 | `padStart(2, "0")` keeps the text as a suffix and fills to length 2 with zeros |
| `Clock.FormatTime` | app/page.tsx:1665-1669 | the timer text is at least four characters long and holds exactly one colon |
| `Clock.PaddedSeconds` | app/page.tsx:1665-1669 | the seconds field is two digits, holds no colon and reads back as the seconds past the minute |
| `Clock.FormatTimeRoundTrip` | app/page.tsx:1665-1669 | minutes before the colon, exactly two digits after it, and the text reads back as the seconds |
| `Terminal.ReplyTo` | app/page.tsx:576-597 | the screen is reset exactly for `clear` in any case |
| `Terminal.Interpret` | app/page.tsx:569-599 | blank exactly for whitespace-only input; clear exactly for `clear` in any case; otherwise the prompt echoes the trimmed command |
| `Terminal.Apply` | app/page.tsx:571-600 | `clear` restores the fresh terminal; anything else appends its entry to the scrollback |
| `Terminal.HandleCommand` | app/page.tsx:569-601 | a blank command keeps the input line; any other empties it; `clear` gives the fresh terminal |
| `Terminal.ScrollbackOnlyGrows` | app/page.tsx:569-601 | except for `clear`, the old scrollback stays a prefix and grows by 2 (blank) or 3 lines |
| `Terminal.KeywordsIgnoreCase` | app/page.tsx:577-587 | help, ls, pwd and clear in any case print their fixed text or reset the screen |
| `Terminal.UnknownCommandNotFound` | app/page.tsx:576-597 | a command that is no keyword in any case and does not start with `echo ` prints its prompt and `Command not found: ` with the trimmed command, and empties the input |
| `Terminal.EchoRepeatsText` | app/page.tsx:591-593 | `echo text` prints the text |
| `Terminal.NoKeywordStartsWithE` | app/page.tsx:576-597 | a command starting with `e` or `E` is no keyword: it is echoed after `echo ` and reported as not found otherwise |
| `Terminal.EchoIsCaseSensitive` | app/page.tsx:591-596 | `ECHO text` is reported as an unknown command |
| `Terminal.BareEchoIsUnknown` | app/page.tsx:570-596 | `echo ` alone is trimmed to `echo` and reported unknown |
| `Terminal.RunPlaysOutcomes` | app/page.tsx:569-601 | a run of commands depends on them only through their outcomes |
| `Terminal.SinceLastClear` | app/page.tsx:580-583 | the outcomes after the last `clear` are a clear-free suffix that is preceded by a `clear` unless it is everything |
| `Terminal.PlayHistory` | app/page.tsx:569-601 | the scrollback is its start (the starting lines, or the welcome lines once anything was cleared) followed by one entry per command since the last clear |
| `Terminal.PlayHistoryCases` | app/page.tsx:569-601 | without a clear the starting scrollback stays on top; after one the welcome lines do |
| `Terminal.FreshTerminalHistory` | app/page.tsx:544-601 | a fresh terminal shows the welcome lines and then one entry per command since the last clear |
| `Tabs.WithoutTab` | app/page.tsx:1216 | keeps exactly the tabs with another id |
| `Tabs.AddTabAsWritten` | app/page.tsx:1203-1211 | appends tab number count+1, named after it, and activates it |
| `Tabs.CloseTabAsWritten` | app/page.tsx:1213-1222 | a single tab is kept; otherwise the tab is filtered out, and it throws exactly when the active tab goes and nothing remains; when it does not throw, closing the active tab activates the first tab left and closing another tab keeps the active one |
| `Tabs.CloseAsWrittenCanEmptyRow` | app/page.tsx:1203-1222 | add, close "1", add gives two tabs "2"; closing "2" then empties the row and throws |
| `Tabs.InitialValid` | app/page.tsx:1200-1201 | the initial row is valid |
| `Tabs.NextIsFresh` | app/page.tsx:1203-1211 | corrected: the numeral of the next counter value is not an id of any tab numbered below it |
| `Tabs.AddTab` | app/page.tsx:1203-1211 | corrected: appends a tab with a never-used id, activates it, and keeps the row valid |
| `Tabs.CloseTab` | app/page.tsx:1213-1222 | the last tab is never closed; otherwise the tab leaves the row, and if it was active the first remaining tab becomes active; validity is kept |
| `Tabs.FilterKeepsDistinct` | app/page.tsx:1216 | filtering a row of distinct ids keeps them distinct |
| `Tabs.AddAgrees` | app/page.tsx:1203-1211 | while the counter equals the tab count plus one, the corrected add and the page's add give the same row, and the relation is kept |
| `Tabs.SelectTabAsWritten` | app/page.tsx:1228-1231 | clicking a listed tab activates it and leaves the tabs alone; an id not on screen changes nothing |
| `Tabs.SelectTab` | app/page.tsx:1228-1231 | in the corrected row, clicking a listed tab activates it, keeps the tabs and the counter, and keeps the row valid |
| `Tabs.AgreesUntilFirstClose` | app/page.tsx:1203-1231 | over any sequence of add and select clicks, the page's row and the corrected row hold the same tabs and the same active tab |
| `Tabs.RunKeepsValid` | app/page.tsx:1199-1231 | under any add, close and select clicks the corrected row stays non-empty, has distinct ids and an open active tab |
| `Chat.MouseEnter` | app/page.tsx:1412 | hovering records the message and leaves the menu alone |
| `Chat.MouseLeave` | app/page.tsx:1413-1416 | leaving a message shows no undo menu anywhere |
| `Chat.ToggleUndo` | app/page.tsx:1424 | the menu opens on this message unless it was open here, in which case it closes |
| `Chat.Revert` | app/page.tsx:1381-1384 | a revert choice closes the menu and changes nothing else |
| `Chat.ToggleUndoTwice` | app/page.tsx:1424 | two clicks restore the menu; at most one message shows a menu |
| `Chat.OpenMenuShowsHere` | app/page.tsx:1418-1476 | opening from a shown button shows the menu for that message and no other |
| `Chat.Send` | app/page.tsx:1348-1359 | blank input changes nothing; otherwise one user message with the untrimmed text is appended and the box is cleared |
| `Chat.SendOnce` | app/page.tsx:1348-1359 | earlier messages are kept, and a second send right away is a no-op |
| `Chat.EnterKey` | app/page.tsx:1540-1544 | Shift+Enter leaves the state; Enter sends |
| `Chat.InitiallyExpanded` | app/page.tsx:2154 | a message starts expanded unless it is marked collapsed |
| `Chat.ToggleMessage` | app/page.tsx:2154-2216 | a header click flips the message; collapsing it folds its embedded diff; other messages and diffs keep their flags |
| `Chat.ToggleDiff` | app/page.tsx:2233-2238 | a click on the diff header of an expanded message flips that diff; nothing else changes |
| `Chat.ClicksKeepDiffInside` | app/page.tsx:2178-2216 | both clicks keep every unfolded diff inside an expanded message |
| `Chat.ReopenedDiffIsFolded` | app/page.tsx:2178-2238 | unfolding a diff, collapsing its message and expanding it again shows the diff folded; two header clicks restore the message |
| `Chat.ClicksIndependent` | app/page.tsx:2154-2238 | clicks on one message's panels leave every other message's panels as they were |
| `Chat.FixtureExpansion` | app/page.tsx:1276-1284 | the sample collapsible message starts expanded and the diff inside it folded |
| `NewWorkspace.Start` | app/page.tsx:1643-1650 | starts creating from step 0 at 0 seconds with one of the eight cities |
| `NewWorkspace.Reset` | app/page.tsx:1652-1657 | cancel returns to a fully reset idle card |
| `NewWorkspace.Step` | app/page.tsx:1600-1663 | every event keeps the card valid, never enters the error screen, the tick and step timers count up while creating, cancel while creating resets the card, the completion timeout after the fifth step shows success, and collapsing the project leaves a fresh idle card |
| `NewWorkspace.RunStaysValid` | app/page.tsx:1583-1663 | from a valid non-error card every event sequence stays valid and never reaches the error screen |
| `NewWorkspace.Created` | app/page.tsx:1622-1631 | the new workspace is idle with no changes, named after the city, in the card's project, on branch `feature/<city>-` followed by a numeral that reads back as the clock stamp |
| `NewWorkspace.CollapseAbandonsRun` | app/page.tsx:1600-1640 | after the project is collapsed the card is idle and no old timer changes it; on the success screen the uncleared timeout still adds the workspace to its project |
| `NewWorkspace.FinishAddsWorkspace` | app/page.tsx:1618-1638 | the success timeout lists the new workspace last in its project's section and resets the card |
| `NewWorkspace.MarksCount` | app/page.tsx:1727-1739 | exactly `step` markers show done, and one shows active unless all are done |
| `NewWorkspace.RunSteps` | app/page.tsx:1600-1617 | each set-up step adds one step done and two seconds on the timer |
| `NewWorkspace.HappyPath` | app/page.tsx:1600-1650 | create and five set-up steps reach success with all steps done and 10 seconds shown |
| `Layout.Clamp` | app/page.tsx:1967 | the result lies in range, equals the value when in range, and otherwise the nearer bound |
| `Layout.ResizeLeft` | app/page.tsx:1965-1970 | the sidebar width stays in 200..500 and moves by the delta when that stays in range |
| `Layout.ResizeRight` | app/page.tsx:1972-1977 | the right panel width stays in 300..600 and moves against the delta when that stays in range |
| `Layout.ResizeDirections` | app/page.tsx:1965-1977 | dragging further right never narrows the sidebar nor widens the right panel |
| `Layout.ResizeUndo` | app/page.tsx:1965-1970 | a drag and its opposite cancel when no limit was hit |
| `Layout.DefaultsInRange` | app/page.tsx:284-285 | the default widths 288 and 384 lie inside their ranges |
| `Layout.OnKey` | app/page.tsx:1931-1951 | Command/Control down sets the flag, up with neither clears it, blur clears it, other events keep it |
| `Layout.RunIsLastForced` | app/page.tsx:1931-1963 | the flag is whatever the last deciding event said, or its start value |

## Left out

- Rendering, CSS classes as visual output, framer-motion animation and icons are presentation only. Colours are modelled only where they classify lines.
- The zustand `create` call, React hooks, and the registration and removal of window listeners are library plumbing. The reducers and handlers are pure functions here.
- `Date.now`, `setInterval` and `setTimeout` are not modelled. Clock readings are parameters and timer firings are events.
- The simulated assistant reply (app/page.tsx:1361-1369) is asynchronous and canned. Only the synchronous part of sending is modelled.
- DOM scrolling (app/page.tsx:1322-1330), textarea autosize and the terminal's auto-scroll and blinking cursor touch only the DOM.
- The files-height percentage (app/page.tsx:1979-1984) and the progress-bar width (app/page.tsx:1753) are floating-point.
- `Math.random` in `handleCreate` (app/page.tsx:1645) becomes an arbitrary index taken modulo 8.
- Handlers that only log (app/page.tsx:372, 376, 998, 1382, 1939) have no state effect beyond the menu closing, and the model covers that.
- `OpenInDropdown`'s `lastUsedApp`, the model picker and the Command+L focus (app/page.tsx:1334-1346) are not part of this model. They only set a field or move focus.
- `getFileIcon` (app/page.tsx:866-877) only picks a colour.
- `Text.ToLower` maps only ASCII letters. This is exact for the terminal's keyword match, because no non-ASCII character lowercases to one of those letters alone.
- `Layout.ResizeLeft`: pointer deltas are whole pixels, and a fractional delta from the browser is not modelled.
- `Layout.ResizeRight`: likewise whole-pixel deltas only (app/page.tsx:1974); a fractional delta is not modelled.
- `Review.RunKeepsValid`: it assumes every event carries a listed path. An unlisted path is covered separately by `Review.UnknownPathShowsPlaceholder`.
- `Tabs.SelectTabAsWritten`: a click can only land on a rendered tab, so an id that is not in the row is modelled as no change rather than as `setActiveTerminalTab` with a dangling id.
- `Tabs.CloseTab`: on a row that is already invalid, it makes no promise beyond the no-op for a single tab. Only valid rows arise from the initial row.
- The error screen of `NewWorkspaceCard` (app/page.tsx:1782-1810) is modelled, retry included, but nothing in the page ever enters it. `NewWorkspace.RunStaysValid` proves that.
- Numbers in hunks and lines are non-negative integers. Negative or fractional values of a TypeScript `number` are not modelled.

## Findings

| source | as written | input that shows it | evidently intended | confidence | as-written member | corrected member |
|---|---|---|---|---|---|---|
| app/page.tsx:287-292 | when the selected workspace is deleted, the new selection is `state.workspaces[0]?.id`, the first id of the list before the deletion | initial store, `deleteWorkspace("1")` while "1" is selected: "1" stays selected, no workspace "1" exists, and the empty state shows although four workspaces remain | fall back to the first workspace that remains; `deleteWorkspace` has no caller in app/page.tsx, so the defect is latent in the store action and not reachable from the page | high, not executed | `Store.DeleteAsWrittenLeavesDanglingSelection` | `Store.DeleteWorkspace` |
| app/page.tsx:1203-1222 | a new tab's id is `terminalTabs.length + 1`, which repeats an existing id after a close | add a tab, close "1", add a tab: two tabs have id "2"; closing "2" removes both and `newTabs[0].id` throws | ids that are never reused, so the last-tab guard keeps the row non-empty | high, not executed | `Tabs.CloseAsWrittenCanEmptyRow` | `Tabs.RunKeepsValid` |
