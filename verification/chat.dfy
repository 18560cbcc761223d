/** The chat pane's local state (`ChatView`): the message list, the input
    box, which message the pointer is over and which message's undo menu is
    open; plus the expanded/collapsed flag of collapsible messages and of
    their embedded diffs. Message ids and timestamps come from the clock in
    the page and are parameters here. */
module Chat {
  import opened Base
  import opened Text

  datatype Role = User | Assistant

  /** `collapsed` is optional in the page (`collapsed?: boolean`). */
  datatype ChatMessage = ChatMessage(
    id: string,
    role: Role,
    content: string,
    collapsible: bool,
    collapsed: Option<bool>)

  datatype ChatState = ChatState(
    messages: seq<ChatMessage>,
    input: string,
    hovered: Option<string>,
    undoMenu: Option<string>)

  // ---------------------------------------------------------------------------
  // The undo menu
  // ---------------------------------------------------------------------------

  /** The undo button is drawn next to the hovered message when that message
      is collapsible or comes from the assistant. */
  predicate UndoButtonShown(st: ChatState, m: ChatMessage) {
    st.hovered == Some(m.id) && (m.collapsible || m.role == Assistant)
  }

  /** The menu of revert choices is drawn under a shown undo button whose
      message id is the open one. */
  predicate UndoMenuShown(st: ChatState, m: ChatMessage) {
    UndoButtonShown(st, m) && st.undoMenu == Some(m.id)
  }

  function MouseEnter(st: ChatState, id: string): (r: ChatState)
    ensures r.hovered == Some(id) && r.undoMenu == st.undoMenu
  {
    st.(hovered := Some(id))
  }

  /** Leaving any message forgets the hover and closes the menu. */
  function MouseLeave(st: ChatState): (r: ChatState)
    ensures forall i :: 0 <= i < |r.messages| ==> !UndoMenuShown(r, r.messages[i])
    ensures r.messages == st.messages && r.input == st.input
  {
    st.(hovered := None, undoMenu := None)
  }

  /** Clicking the undo button of message `id`: closes the menu if it was
      open for that message, otherwise opens it there (closing any other). */
  function ToggleUndo(st: ChatState, id: string): (r: ChatState)
    ensures r.undoMenu.Some? <==> st.undoMenu != Some(id)
    ensures r.undoMenu.Some? ==> r.undoMenu == Some(id)
    ensures r.messages == st.messages && r.hovered == st.hovered && r.input == st.input
  {
    st.(undoMenu := if st.undoMenu == Some(id) then None else Some(id))
  }

  /** Picking one of the three revert choices only closes the menu (the
      revert itself is not implemented by the page). */
  datatype RevertKind = All | ConversationOnly | CodeOnly

  function Revert(st: ChatState, id: string, kind: RevertKind): (r: ChatState)
    ensures r.undoMenu.None?
    ensures r.messages == st.messages && r.hovered == st.hovered && r.input == st.input
  {
    st.(undoMenu := None)
  }

  /** Two clicks on the same undo button restore the menu state; at most one
      menu is ever open, since the state holds one id. */
  lemma ToggleUndoTwice(st: ChatState, id: string)
    ensures ToggleUndo(ToggleUndo(st, id), id).undoMenu
      == (if st.undoMenu == Some(id) then Some(id) else None)
    ensures forall m1: ChatMessage, m2: ChatMessage ::
      (UndoMenuShown(ToggleUndo(st, id), m1) && UndoMenuShown(ToggleUndo(st, id), m2))
      ==> m1.id == m2.id
  {
  }

  /** Opening the menu from a shown button shows it for that message and for
      no message with another id. */
  lemma OpenMenuShowsHere(st: ChatState, m: ChatMessage)
    requires UndoButtonShown(st, m) && st.undoMenu != Some(m.id)
    ensures UndoMenuShown(ToggleUndo(st, m.id), m)
    ensures forall n: ChatMessage :: n.id != m.id ==> !UndoMenuShown(ToggleUndo(st, m.id), n)
  {
  }

  // ---------------------------------------------------------------------------
  // Sending
  // ---------------------------------------------------------------------------

  /** The send button is disabled exactly when the input is blank. */
  predicate SendDisabled(st: ChatState) {
    Trim(st.input) == ""
  }

  /** `handleSendMessage`, synchronous part: a blank input does nothing;
      otherwise the untrimmed input becomes a new user message at the end and
      the box is emptied. `newId` is the page's `Date.now()` string. */
  function Send(st: ChatState, newId: string): (r: ChatState)
    ensures SendDisabled(st) <==> r == st
    ensures !SendDisabled(st) ==>
      r.messages == st.messages + [ChatMessage(newId, User, st.input, false, None)]
      && r.input == ""
    ensures r.hovered == st.hovered && r.undoMenu == st.undoMenu
  {
    if Trim(st.input) == "" then st
    else st.(messages := st.messages + [ChatMessage(newId, User, st.input, false, None)], input := "")
  }

  /** Sending is blocked precisely for blank text, appends one message, keeps
      the earlier ones, and a second send right after is a no-op. */
  lemma SendOnce(st: ChatState, id1: string, id2: string)
    ensures IsBlank(st.input) ==> Send(st, id1) == st
    ensures !IsBlank(st.input) ==>
      |Send(st, id1).messages| == |st.messages| + 1
      && Send(st, id1).messages[..|st.messages|] == st.messages
      && Send(st, id1).messages[|st.messages|].content == st.input
    ensures Send(Send(st, id1), id2) == Send(st, id1)
  {
    if !IsBlank(st.input) {
      assert Send(st, id1).input == "";
      assert Trim("") == "";
    }
  }

  /** Enter without Shift sends; with Shift it leaves the message list and the
      input to the text box's own newline handling. */
  function EnterKey(st: ChatState, shift: bool, newId: string): (r: ChatState)
    ensures shift ==> r == st
    ensures !shift ==> r == Send(st, newId)
  {
    if shift then st else Send(st, newId)
  }

  // ---------------------------------------------------------------------------
  // Expansion of collapsible messages and diffs
  // ---------------------------------------------------------------------------

  /** `useState(!message.collapsed)`: an unset flag counts as not collapsed. */
  function InitiallyExpanded(m: ChatMessage): (expanded: bool)
    ensures expanded <==> m.collapsed != Some(true)
  {
    match m.collapsed
    case None => true
    case Some(c) => !c
  }

  /** An embedded diff always starts folded (`useState(false)`). */
  const DiffInitiallyExpanded := false

  /** The expansion flags the mounted panels hold, keyed by message id: a
      collapsible message's own flag and the flag of the diff drawn inside
      it. A missing entry is a panel still in its initial state. */
  datatype Panels = Panels(message: map<string, bool>, diff: map<string, bool>)

  const Untouched := Panels(map[], map[])

  function MessageExpanded(p: Panels, m: ChatMessage): bool {
    if m.id in p.message then p.message[m.id] else InitiallyExpanded(m)
  }

  function DiffExpanded(p: Panels, id: string): bool {
    if id in p.diff then p.diff[id] else DiffInitiallyExpanded
  }

  /** A click on a message's header flips it. The embedded diff is drawn
      only inside an expanded message, so collapsing unmounts it: its flag
      is lost and it comes back folded. Other panels keep their flags. */
  function ToggleMessage(p: Panels, m: ChatMessage): (r: Panels)
    ensures MessageExpanded(r, m) == !MessageExpanded(p, m)
    ensures !MessageExpanded(r, m) ==> !DiffExpanded(r, m.id)
    ensures MessageExpanded(r, m) ==> DiffExpanded(r, m.id) == DiffExpanded(p, m.id)
    ensures forall n: ChatMessage :: n.id != m.id ==> MessageExpanded(r, n) == MessageExpanded(p, n)
    ensures forall id :: id != m.id ==> DiffExpanded(r, id) == DiffExpanded(p, id)
  {
    var open := !MessageExpanded(p, m);
    Panels(p.message[m.id := open], if open then p.diff else p.diff - {m.id})
  }

  /** A click on the header of the diff inside message `m` flips that diff.
      The header is on screen only while `m` is expanded, so otherwise
      nothing changes. */
  function ToggleDiff(p: Panels, m: ChatMessage): (r: Panels)
    ensures MessageExpanded(p, m) ==> DiffExpanded(r, m.id) == !DiffExpanded(p, m.id)
    ensures !MessageExpanded(p, m) ==> r == p
    ensures r.message == p.message
    ensures forall id :: id != m.id ==> DiffExpanded(r, id) == DiffExpanded(p, id)
  {
    if MessageExpanded(p, m) then p.(diff := p.diff[m.id := !DiffExpanded(p, m.id)]) else p
  }

  /** An unfolded diff is always inside an expanded message. */
  predicate DiffInsideOpenMessage(p: Panels, m: ChatMessage) {
    DiffExpanded(p, m.id) ==> MessageExpanded(p, m)
  }

  /** Both clicks keep every message's diff inside an open message, for the
      clicked message and for every message with another id. */
  lemma ClicksKeepDiffInside(p: Panels, m: ChatMessage, n: ChatMessage)
    requires DiffInsideOpenMessage(p, n) && (n.id != m.id || n == m)
    ensures DiffInsideOpenMessage(ToggleMessage(p, m), n)
    ensures DiffInsideOpenMessage(ToggleDiff(p, m), n)
  {
  }

  /** Unfolding a message's diff, collapsing the message and expanding it
      again shows the diff folded, while two clicks on a header restore the
      message's own flag. */
  lemma ReopenedDiffIsFolded(p: Panels, m: ChatMessage)
    requires MessageExpanded(p, m)
    ensures var q := ToggleMessage(ToggleMessage(ToggleDiff(p, m), m), m);
      MessageExpanded(q, m) && !DiffExpanded(q, m.id)
    ensures DiffExpanded(ToggleDiff(p, m), m.id) == !DiffExpanded(p, m.id)
    ensures MessageExpanded(ToggleMessage(ToggleMessage(p, m), m), m) == MessageExpanded(p, m)
  {
  }

  /** Clicks on one message's panels never open or close another message's
      panels. */
  lemma ClicksIndependent(p: Panels, m: ChatMessage, n: ChatMessage)
    requires n.id != m.id
    ensures MessageExpanded(ToggleMessage(p, m), n) == MessageExpanded(p, n)
    ensures DiffExpanded(ToggleMessage(p, m), n.id) == DiffExpanded(p, n.id)
    ensures MessageExpanded(ToggleDiff(p, m), n) == MessageExpanded(p, n)
    ensures DiffExpanded(ToggleDiff(p, m), n.id) == DiffExpanded(p, n.id)
  {
  }

  /** The fixture's collapsible assistant message starts expanded and the
      diff inside it folded, consistently. */
  lemma FixtureExpansion()
    ensures var m := ChatMessage("2", Assistant, "", true, Some(false));
      MessageExpanded(Untouched, m) && !DiffExpanded(Untouched, m.id)
      && DiffInsideOpenMessage(Untouched, m)
  {
  }
}
