/** The review panel's cursor: which changed file the full viewer shows, how
    the previous/next buttons, the arrow keys and the auto-select effect move
    it, and what the panel shows for a selection that names no listed file.
    The store keeps `diffPanelOpen` and `selectedDiffFile`; the page passes
    its sample changeset, here a parameter `files`. */
module Review {
  import opened Base
  import opened Text
  import opened Patch

  /** The two store fields the panel reads and writes. */
  datatype ReviewState = ReviewState(panelOpen: bool, selected: Option<string>)

  /** Store defaults: panel closed, nothing selected. */
  const Initial: ReviewState := ReviewState(false, None)

  predicate DistinctPaths(files: seq<FileDiff>) {
    forall i, j :: 0 <= i < j < |files| ==> files[i].path != files[j].path
  }

  // ---------------------------------------------------------------------------
  // Index of the selection
  // ---------------------------------------------------------------------------

  /** Index of the first file whose path is `p`, or -1. */
  function IndexOfPath(files: seq<FileDiff>, p: string): (r: int)
    ensures -1 <= r < |files|
    ensures r == -1 <==> forall i :: 0 <= i < |files| ==> files[i].path != p
    ensures r >= 0 ==> files[r].path == p && forall j :: 0 <= j < r ==> files[j].path != p
  {
    if |files| == 0 then -1
    else if files[0].path == p then 0
    else
      var k := IndexOfPath(files[1..], p);
      if k == -1 then -1 else k + 1
  }

  /** `mockDiffData.findIndex((f) => f.path === selectedDiffFile)`; no path
      equals `null`, so an empty selection gives -1. */
  function FindIndex(files: seq<FileDiff>, selected: Option<string>): (r: int)
    ensures -1 <= r < |files|
    ensures selected.None? ==> r == -1
    ensures selected.Some? ==> r == IndexOfPath(files, selected.value)
  {
    match selected
    case None => -1
    case Some(p) => IndexOfPath(files, p)
  }

  /** With distinct paths, a listed path is found at its own position. */
  lemma IndexOfListed(files: seq<FileDiff>, i: nat)
    requires DistinctPaths(files)
    requires i < |files|
    ensures IndexOfPath(files, files[i].path) == i
  {
  }

  /** `mockDiffData[currentFileIndex]`: undefined for index -1. */
  function CurrentFile(files: seq<FileDiff>, s: ReviewState): (r: Option<FileDiff>)
    ensures r.None? <==> FindIndex(files, s.selected) == -1
    ensures r.Some? ==> r.value in files && s.selected == Some(r.value.path)
  {
    var i := FindIndex(files, s.selected);
    if i == -1 then None else Some(files[i])
  }

  /** The selection names a listed file, or is empty. */
  predicate Valid(files: seq<FileDiff>, s: ReviewState) {
    s.selected.None? || IndexOfPath(files, s.selected.value) >= 0
  }

  // ---------------------------------------------------------------------------
  // Previous / next
  // ---------------------------------------------------------------------------

  /** `handleNextFile` calls the setter exactly when the index is below the last. */
  predicate NextActs(files: seq<FileDiff>, s: ReviewState) {
    FindIndex(files, s.selected) < |files| - 1
  }

  /** `handlePrevFile` calls the setter exactly when the index is above 0. */
  predicate PrevActs(files: seq<FileDiff>, s: ReviewState) {
    FindIndex(files, s.selected) > 0
  }

  function Next(files: seq<FileDiff>, s: ReviewState): (r: ReviewState)
    ensures r.panelOpen == s.panelOpen
    ensures !NextActs(files, s) ==> r == s
  {
    var i := FindIndex(files, s.selected);
    if i < |files| - 1 then s.(selected := Some(files[i + 1].path)) else s
  }

  function Prev(files: seq<FileDiff>, s: ReviewState): (r: ReviewState)
    ensures r.panelOpen == s.panelOpen
    ensures !PrevActs(files, s) ==> r == s
  {
    var i := FindIndex(files, s.selected);
    if i > 0 then s.(selected := Some(files[i - 1].path)) else s
  }

  /** Next moves exactly one file forward in list order and stops at the
      last file; from no (or an unknown) selection it picks the first file. */
  lemma NextStep(files: seq<FileDiff>, s: ReviewState)
    requires DistinctPaths(files)
    ensures var i := FindIndex(files, s.selected);
      var j := FindIndex(files, Next(files, s).selected);
      (i < |files| - 1 ==> j == i + 1) && (i == |files| - 1 ==> Next(files, s) == s)
  {
    var i := FindIndex(files, s.selected);
    if i < |files| - 1 {
      IndexOfListed(files, i + 1);
    }
  }

  /** Previous moves exactly one file back and stops at the first file; with
      no (or an unknown) selection it does nothing. */
  lemma PrevStep(files: seq<FileDiff>, s: ReviewState)
    requires DistinctPaths(files)
    ensures var i := FindIndex(files, s.selected);
      var j := FindIndex(files, Prev(files, s).selected);
      (i > 0 ==> j == i - 1) && (i <= 0 ==> Prev(files, s) == s)
  {
    var i := FindIndex(files, s.selected);
    if i > 0 {
      IndexOfListed(files, i - 1);
    }
  }

  /** Previous undoes next, and next undoes previous, away from the ends. */
  lemma {:induction false} PrevUndoesNext(files: seq<FileDiff>, s: ReviewState)
    requires DistinctPaths(files)
    requires Valid(files, s) && s.selected.Some?
    ensures NextActs(files, s) ==> Prev(files, Next(files, s)) == s
    ensures PrevActs(files, s) ==> Next(files, Prev(files, s)) == s
  {
    var i := FindIndex(files, s.selected);
    if NextActs(files, s) {
      IndexOfListed(files, i + 1);
    }
    if PrevActs(files, s) {
      IndexOfListed(files, i - 1);
    }
  }

  /** The bottom toolbar disables "next" exactly when the handler would do
      nothing, but "previous" is only disabled at index 0: with no selection
      it stays clickable and inert. */
  lemma ButtonsAgreeWithHandlers(files: seq<FileDiff>, s: ReviewState)
    ensures var i := FindIndex(files, s.selected);
      (i == |files| - 1 <==> !NextActs(files, s))
      && (!PrevActs(files, s) <==> (i == 0 || i == -1))
  {
  }

  // ---------------------------------------------------------------------------
  // Keyboard, auto-select, and the panel's event stream
  // ---------------------------------------------------------------------------

  /** The window `keydown` listener, registered only while the panel is open. */
  function KeyDown(files: seq<FileDiff>, s: ReviewState, key: string): (r: ReviewState)
    ensures !s.panelOpen ==> r == s
    ensures key != "ArrowDown" && key != "ArrowUp" ==> r == s
    ensures s.panelOpen && key == "ArrowDown" ==> r == Next(files, s)
    ensures s.panelOpen && key == "ArrowUp" ==> r == Prev(files, s)
  {
    if !s.panelOpen then s
    else if key == "ArrowDown" then Next(files, s)
    else if key == "ArrowUp" then Prev(files, s)
    else s
  }

  /** Whether the listener calls `preventDefault` (it suppresses scrolling). */
  predicate KeySuppressesScroll(s: ReviewState, key: string) {
    s.panelOpen && (key == "ArrowDown" || key == "ArrowUp")
  }

  /** Scrolling is suppressed exactly for the keys that navigate; every other
      key, and every key while the panel is closed, leaves the cursor alone. */
  lemma ArrowKeysOnlyWhileOpen(files: seq<FileDiff>, s: ReviewState, key: string)
    ensures KeySuppressesScroll(s, key) ==>
      KeyDown(files, s, key) == Next(files, s) || KeyDown(files, s, key) == Prev(files, s)
    ensures !KeySuppressesScroll(s, key) ==> KeyDown(files, s, key) == s
  {
  }

  /** `!selectedDiffFile`: both `null` and the empty string are falsy. */
  predicate Falsy(selected: Option<string>) {
    selected.None? || selected.value == ""
  }

  /** The auto-select effect: when the panel is open with a falsy selection
      and the list is non-empty, select the first file. */
  function AutoSelect(files: seq<FileDiff>, s: ReviewState): (r: ReviewState)
    ensures r.panelOpen == s.panelOpen
    ensures r != s ==> (s.panelOpen && Falsy(s.selected) && |files| > 0
      && r.selected == Some(files[0].path))
    ensures s.panelOpen && Falsy(s.selected) && |files| > 0 ==> r.selected == Some(files[0].path)
  {
    if s.panelOpen && Falsy(s.selected) && |files| > 0
    then s.(selected := Some(files[0].path))
    else s
  }

  /** Running the effect again changes nothing. */
  lemma AutoSelectIdempotent(files: seq<FileDiff>, s: ReviewState)
    ensures AutoSelect(files, AutoSelect(files, s)) == AutoSelect(files, s)
  {
  }

  /** What the user can do to the cursor. Clicks in the file tree and on the
      toolbar buttons can only happen while the panel is shown. */
  datatype Event =
    | OpenFromSummary(path: string)  // side summary row: select, then open
    | TreeClick(path: string)        // file tree row in the panel
    | ClosePanel                     // backdrop or close button
    | Key(key: string)               // window keydown
    | PrevButton
    | NextButton

  function Apply(files: seq<FileDiff>, s: ReviewState, e: Event): ReviewState {
    match e
    case OpenFromSummary(p) => ReviewState(true, Some(p))
    case TreeClick(p) => if s.panelOpen then s.(selected := Some(p)) else s
    case ClosePanel => s.(panelOpen := false)
    case Key(k) => KeyDown(files, s, k)
    case PrevButton => if s.panelOpen then Prev(files, s) else s
    case NextButton => if s.panelOpen then Next(files, s) else s
  }

  /** One event followed by the auto-select effect the re-render triggers. */
  function Step(files: seq<FileDiff>, s: ReviewState, e: Event): ReviewState {
    AutoSelect(files, Apply(files, s, e))
  }

  function Run(files: seq<FileDiff>, s: ReviewState, events: seq<Event>): ReviewState
    decreases |events|
  {
    if |events| == 0 then s else Run(files, Step(files, s, events[0]), events[1..])
  }

  /** Every path an event carries names a listed file. */
  predicate ListedPaths(files: seq<FileDiff>, events: seq<Event>) {
    forall k :: 0 <= k < |events| ==>
      (events[k].OpenFromSummary? ==> IndexOfPath(files, events[k].path) >= 0)
      && (events[k].TreeClick? ==> IndexOfPath(files, events[k].path) >= 0)
  }

  /** After any step from a valid state the selection is valid, and while
      the panel is open over a non-empty list it shows a file. */
  lemma StepKeepsValid(files: seq<FileDiff>, s: ReviewState, e: Event)
    requires Valid(files, s)
    requires ListedPaths(files, [e])
    ensures Valid(files, Step(files, s, e))
    ensures var t := Step(files, s, e);
      t.panelOpen && |files| > 0 ==> CurrentFile(files, t).Some?
  {
    assert [e][0] == e;
  }

  /** Any sequence of events carrying listed paths keeps the selection valid
      and, whenever the panel is open over a non-empty list, never shows the
      "Select a file" placeholder. */
  lemma {:induction false} RunKeepsValid(files: seq<FileDiff>, s: ReviewState, events: seq<Event>)
    requires Valid(files, s)
    requires ListedPaths(files, events)
    requires |events| > 0 || !s.panelOpen || |files| == 0 || CurrentFile(files, s).Some?
    ensures Valid(files, Run(files, s, events))
    ensures var t := Run(files, s, events);
      t.panelOpen && |files| > 0 ==> CurrentFile(files, t).Some?
    decreases |events|
  {
    if |events| > 0 {
      assert ListedPaths(files, [events[0]]) by {
        assert [events[0]][0] == events[0];
      }
      StepKeepsValid(files, s, events[0]);
      assert ListedPaths(files, events[1..]) by {
        forall k | 0 <= k < |events| - 1
          ensures (events[1..][k].OpenFromSummary? ==> IndexOfPath(files, events[1..][k].path) >= 0)
            && (events[1..][k].TreeClick? ==> IndexOfPath(files, events[1..][k].path) >= 0)
        {
          assert events[1..][k] == events[k + 1];
        }
      }
      RunKeepsValid(files, Step(files, s, events[0]), events[1..]);
    }
  }

  /** A row of the side summary opens the panel on that file: the selection
      is its path and the viewer shows it. */
  lemma SummaryClickOpensFile(files: seq<FileDiff>, s: ReviewState, p: string)
    requires p != "" && IndexOfPath(files, p) >= 0
    ensures var t := Step(files, s, OpenFromSummary(p));
      t.panelOpen && t.selected == Some(p)
      && CurrentFile(files, t) == Some(files[IndexOfPath(files, p)])
  {
  }

  /** The store takes any string: a path naming no listed file is kept as the
      selection, the viewer shows its placeholder, and "next" then jumps to
      the first file. */
  lemma UnknownPathShowsPlaceholder(files: seq<FileDiff>, s: ReviewState, p: string)
    requires s.panelOpen && p != ""
    requires forall i :: 0 <= i < |files| ==> files[i].path != p
    ensures Step(files, s, TreeClick(p)).selected == Some(p)
    ensures CurrentFile(files, Step(files, s, TreeClick(p))).None?
    ensures |files| > 0 ==>
      Next(files, Step(files, s, TreeClick(p))).selected == Some(files[0].path)
  {
  }

  /** "Viewing {currentFileIndex + 1} of {n} files" shows 0 exactly when the
      placeholder is shown. */
  function ViewingLabel(files: seq<FileDiff>, s: ReviewState): string {
    "Viewing " + NatToString(FindIndex(files, s.selected) + 1)
    + " of " + NatToString(|files|) + " files"
  }

  lemma ViewingPosition(files: seq<FileDiff>, s: ReviewState)
    ensures var n := FindIndex(files, s.selected) + 1;
      0 <= n <= |files| && (n == 0 <==> CurrentFile(files, s).None?)
  {
  }

  // ---------------------------------------------------------------------------
  // The sample changeset
  // ---------------------------------------------------------------------------

  lemma MockPathsDistinct()
    ensures DistinctPaths(MockDiffData())
  {
    var d := MockDiffData();
    assert d[0].path != d[1].path && d[0].path != d[2].path && d[0].path != d[3].path && d[0].path != d[4].path;
    assert d[1].path != d[2].path && d[1].path != d[3].path && d[1].path != d[4].path;
    assert d[2].path != d[3].path && d[2].path != d[4].path;
    assert d[3].path != d[4].path;
  }

  /** From the third of five files, two "next" steps reach the last file and
      a third one stays there; arrow keys with the panel closed do nothing. */
  lemma MockNavigation()
    ensures var d := MockDiffData();
      var s := ReviewState(true, Some(d[2].path));
      FindIndex(d, Next(d, Next(d, s)).selected) == 4
      && Next(d, Next(d, Next(d, s))) == Next(d, Next(d, s))
    ensures var d := MockDiffData();
      var c := ReviewState(false, Some(d[2].path));
      KeyDown(d, c, "ArrowDown") == c && KeyDown(d, c, "ArrowUp") == c
  {
    var d := MockDiffData();
    MockPathsDistinct();
    var s := ReviewState(true, Some(d[2].path));
    IndexOfListed(d, 2);
    NextStep(d, s);
    NextStep(d, Next(d, s));
    NextStep(d, Next(d, Next(d, s)));
  }
}
