/** Terminal tabs (`TerminalTabs`): a non-empty row of tabs, one of them
    active. The page names a new tab after the current tab count, which
    repeats an id once a tab has been closed; the corrected version draws
    ids from a counter that only grows. */
module Tabs {
  import opened Base
  import opened Text

  datatype Tab = Tab(id: string, name: string)

  /** The page's state: the tabs in display order and the active tab's id. */
  datatype TabsAsWritten = TabsAsWritten(tabs: seq<Tab>, active: string)

  const InitialAsWritten := TabsAsWritten([Tab("1", "Terminal 1")], "1")

  predicate DistinctIds(tabs: seq<Tab>) {
    forall i, j :: 0 <= i < j < |tabs| ==> tabs[i].id != tabs[j].id
  }

  predicate Listed(tabs: seq<Tab>, id: string) {
    exists i :: 0 <= i < |tabs| && tabs[i].id == id
  }

  /** The tabs whose id differs from `id`, in order. */
  function WithoutTab(tabs: seq<Tab>, id: string): (r: seq<Tab>)
    ensures forall i :: 0 <= i < |r| ==> r[i].id != id && r[i] in tabs
    ensures forall i :: 0 <= i < |tabs| && tabs[i].id != id ==> tabs[i] in r
  {
    Filter(tabs, (t: Tab) => t.id != id)
  }

  /** `handleAddTerminalTab` as written: the new id is the tab count plus one. */
  function AddTabAsWritten(st: TabsAsWritten): (r: TabsAsWritten)
    ensures |r.tabs| == |st.tabs| + 1 && r.tabs[..|st.tabs|] == st.tabs
    ensures r.active == r.tabs[|st.tabs|].id == NatToString(|st.tabs| + 1)
    ensures r.tabs[|st.tabs|].name == "Terminal " + r.active
  {
    var id := NatToString(|st.tabs| + 1);
    TabsAsWritten(st.tabs + [Tab(id, "Terminal " + id)], id)
  }

  /** `handleCloseTerminalTab` as written. `None` stands for the exception
      thrown when the active tab is closed and no tab survives the filter
      (`newTabs[0].id` on an empty array). */
  function CloseTabAsWritten(st: TabsAsWritten, tabId: string): (r: Option<TabsAsWritten>)
    ensures |st.tabs| == 1 ==> r == Some(st)
    ensures |st.tabs| != 1 && r.Some? ==> r.value.tabs == WithoutTab(st.tabs, tabId)
    ensures r.None? <==> |st.tabs| != 1 && st.active == tabId && |WithoutTab(st.tabs, tabId)| == 0
    ensures |st.tabs| != 1 && r.Some? ==>
      r.value.active == (if st.active == tabId then r.value.tabs[0].id else st.active)
  {
    if |st.tabs| == 1 then Some(st)
    else
      var remaining := WithoutTab(st.tabs, tabId);
      if st.active == tabId then
        if |remaining| == 0 then None else Some(TabsAsWritten(remaining, remaining[0].id))
      else Some(TabsAsWritten(remaining, st.active))
  }

  /** A click on a tab activates it (`setActiveTerminalTab(tab.id)`). A click
      can only land on a tab that is on screen, so an id that is not in the
      row is no click at all. */
  function SelectTabAsWritten(st: TabsAsWritten, tabId: string): (r: TabsAsWritten)
    ensures r.tabs == st.tabs
    ensures Listed(st.tabs, tabId) ==> r.active == tabId
    ensures !Listed(st.tabs, tabId) ==> r == st
  {
    if Listed(st.tabs, tabId) then st.(active := tabId) else st
  }

  /** Closing tab "1" of two and adding a tab gives two tabs both named
      "2"; closing "2" then removes both and throws, so the "never close the
      last tab" guard does not keep the row non-empty. */
  lemma CloseAsWrittenCanEmptyRow()
    ensures var two := AddTabAsWritten(InitialAsWritten);
      var one := CloseTabAsWritten(two, "1");
      one.Some?
      && var dup := AddTabAsWritten(one.value);
      dup.tabs == [Tab("2", "Terminal 2"), Tab("2", "Terminal 2")]
      && !DistinctIds(dup.tabs)
      && CloseTabAsWritten(dup, "2").None?
  {
    var two := AddTabAsWritten(InitialAsWritten);
    assert NatToString(2) == "2";
    assert "Terminal " + "2" == "Terminal 2";
    assert two.tabs == [Tab("1", "Terminal 1"), Tab("2", "Terminal 2")];
    var keep := (t: Tab) => t.id != "1";
    assert two.tabs == [two.tabs[0]] + [two.tabs[1]];
    FilterConcat([two.tabs[0]], [two.tabs[1]], keep);
    assert WithoutTab(two.tabs, "1") == [Tab("2", "Terminal 2")];
    var one := CloseTabAsWritten(two, "1");
    assert one == Some(TabsAsWritten([Tab("2", "Terminal 2")], "2"));
    var dup := AddTabAsWritten(one.value);
    assert dup.tabs == [Tab("2", "Terminal 2"), Tab("2", "Terminal 2")];
    var drop := (t: Tab) => t.id != "2";
    assert dup.tabs == [dup.tabs[0]] + [dup.tabs[1]];
    FilterConcat([dup.tabs[0]], [dup.tabs[1]], drop);
    assert WithoutTab(dup.tabs, "2") == [];
  }

  // ---------------------------------------------------------------------------
  // Corrected: ids from a counter that never goes back
  // ---------------------------------------------------------------------------

  /** The tab row with the number the next new tab will carry. */
  datatype TabRow = TabRow(tabs: seq<Tab>, active: string, next: nat)

  const Initial := TabRow([Tab("1", "Terminal 1")], "1", 2)

  /** Every tab was numbered before `next`, ids are distinct, at least one
      tab is open and the active tab is one of them. */
  predicate Valid(st: TabRow) {
    |st.tabs| >= 1
    && DistinctIds(st.tabs)
    && Listed(st.tabs, st.active)
    && NumberedBelow(st.tabs, st.next)
  }

  lemma InitialValid()
    ensures Valid(Initial)
  {
    assert Initial.tabs[0].id == NatToString(1);
  }

  /** Adding a tab appends a fresh tab named after its id and activates it. */
  function AddTab(st: TabRow): (r: TabRow)
    ensures Valid(st) ==> Valid(r)
    ensures |r.tabs| == |st.tabs| + 1 && r.tabs[..|st.tabs|] == st.tabs
    ensures NumberedBelow(st.tabs, st.next) ==> !Listed(st.tabs, r.active)
    ensures r.active == r.tabs[|st.tabs|].id
    ensures r.tabs[|st.tabs|].name == "Terminal " + r.active
  {
    var id := NatToString(st.next);
    var t := Tab(id, "Terminal " + id);
    var r := TabRow(st.tabs + [t], id, st.next + 1);
    assert NumberedBelow(st.tabs, st.next) ==> !Listed(st.tabs, id) by {
      if NumberedBelow(st.tabs, st.next) {
        NextIsFresh(st.tabs, st.next);
      }
    }
    assert r.tabs[|st.tabs|] == t;
    assert forall i :: 0 <= i < |st.tabs| ==> r.tabs[i] == st.tabs[i];
    assert Listed(r.tabs, id);
    assert NumberedBelow(st.tabs, st.next) ==> NumberedBelow(r.tabs, r.next) by {
      if NumberedBelow(st.tabs, st.next) {
        forall i | 0 <= i < |r.tabs|
          ensures exists k: nat :: k < r.next && r.tabs[i].id == NatToString(k)
        {
          if i == |st.tabs| {
            assert r.tabs[i].id == NatToString(st.next);
          } else {
            assert r.tabs[i] == st.tabs[i];
          }
        }
      }
    }
    r
  }

  /** The numeral of `next` is not yet taken by any tab numbered below it. */
  lemma NextIsFresh(tabs: seq<Tab>, next: nat)
    requires NumberedBelow(tabs, next)
    ensures !Listed(tabs, NatToString(next))
  {
    forall i | 0 <= i < |tabs| ensures tabs[i].id != NatToString(next) {
      assert exists k: nat :: k < next && tabs[i].id == NatToString(k);
      var k: nat :| k < next && tabs[i].id == NatToString(k);
      if tabs[i].id == NatToString(next) {
        NatToStringInjective(k, next);
      }
    }
  }

  /** Every tab id is the numeral of some number below `next`. */
  predicate NumberedBelow(tabs: seq<Tab>, next: nat) {
    forall i :: 0 <= i < |tabs| ==> exists k: nat :: k < next && tabs[i].id == NatToString(k)
  }

  /** Removing a tab from a valid row of two or more keeps a non-empty row
      of distinct, previously numbered tabs. */
  lemma RemainingRow(st: TabRow, tabId: string)
    requires Valid(st) && |st.tabs| > 1
    ensures var remaining := WithoutTab(st.tabs, tabId);
      |remaining| >= 1 && DistinctIds(remaining) && NumberedBelow(remaining, st.next)
  {
    var remaining := WithoutTab(st.tabs, tabId);
    var survivor := if st.tabs[0].id != tabId then st.tabs[0] else st.tabs[1];
    assert survivor in remaining;
    FilterKeepsDistinct(st.tabs, tabId);
    forall i | 0 <= i < |remaining|
      ensures exists k: nat :: k < st.next && remaining[i].id == NatToString(k)
    {
      var j :| 0 <= j < |st.tabs| && st.tabs[j] == remaining[i];
    }
  }

  /** Closing a tab: a no-op on the last tab; otherwise the tab leaves the
      row and, if it was active, the first remaining tab becomes active. */
  function CloseTab(st: TabRow, tabId: string): (r: TabRow)
    ensures Valid(st) ==> Valid(r)
    ensures |st.tabs| <= 1 ==> r == st
    ensures Valid(st) && |st.tabs| > 1 ==>
      r.tabs == WithoutTab(st.tabs, tabId) && !Listed(r.tabs, tabId)
    ensures Valid(st) && |st.tabs| > 1 && st.active != tabId ==> r.active == st.active
    ensures Valid(st) && |st.tabs| > 1 && st.active == tabId ==> r.active == r.tabs[0].id
  {
    if |st.tabs| <= 1 then st
    else
      var remaining := WithoutTab(st.tabs, tabId);
      if Valid(st) then
        RemainingRow(st, tabId);
        var active := if st.active == tabId then remaining[0].id else st.active;
        assert Listed(remaining, active) by {
          if st.active != tabId {
            var i :| 0 <= i < |st.tabs| && st.tabs[i].id == st.active;
            var j :| 0 <= j < |remaining| && remaining[j] == st.tabs[i];
          } else {
            assert remaining[0].id == active;
          }
        }
        TabRow(remaining, active, st.next)
      else if |remaining| == 0 then st
      else TabRow(remaining, if st.active == tabId then remaining[0].id else st.active, st.next)
  }

  /** Filtering a row with distinct ids keeps the ids distinct. */
  lemma {:induction false} FilterKeepsDistinct(tabs: seq<Tab>, tabId: string)
    requires DistinctIds(tabs)
    ensures DistinctIds(WithoutTab(tabs, tabId))
    decreases |tabs|
  {
    if |tabs| > 0 {
      var rest := tabs[1..];
      FilterKeepsDistinct(rest, tabId);
      var tail := WithoutTab(rest, tabId);
      var r := WithoutTab(tabs, tabId);
      if tabs[0].id != tabId {
        assert r == [tabs[0]] + tail;
        forall j | 0 <= j < |tail| ensures tail[j].id != tabs[0].id {
          var k :| 0 <= k < |rest| && rest[k] == tail[j];
          assert tabs[k + 1] == rest[k];
        }
      } else {
        assert r == tail;
      }
    }
  }

  /** Selecting a tab of the corrected row: the same click as on the page. */
  function SelectTab(st: TabRow, tabId: string): (r: TabRow)
    ensures r.tabs == st.tabs && r.next == st.next
    ensures Listed(st.tabs, tabId) ==> r.active == tabId
    ensures !Listed(st.tabs, tabId) ==> r == st
    ensures Valid(st) ==> Valid(r)
  {
    if Listed(st.tabs, tabId) then st.(active := tabId) else st
  }

  datatype TabEvent = AddClicked | CloseClicked(tabId: string) | SelectClicked(tabId: string)

  function Step(st: TabRow, e: TabEvent): TabRow {
    match e
    case AddClicked => AddTab(st)
    case CloseClicked(tabId) => CloseTab(st, tabId)
    case SelectClicked(tabId) => SelectTab(st, tabId)
  }

  function Run(st: TabRow, events: seq<TabEvent>): TabRow
    decreases |events|
  {
    if |events| == 0 then st else Run(Step(st, events[0]), events[1..])
  }

  /** One click on the page's row; `None` is the exception of
      `CloseTabAsWritten`, after which nothing runs. */
  function StepAsWritten(st: TabsAsWritten, e: TabEvent): Option<TabsAsWritten> {
    match e
    case AddClicked => Some(AddTabAsWritten(st))
    case CloseClicked(tabId) => CloseTabAsWritten(st, tabId)
    case SelectClicked(tabId) => Some(SelectTabAsWritten(st, tabId))
  }

  function RunAsWritten(st: TabsAsWritten, events: seq<TabEvent>): Option<TabsAsWritten>
    decreases |events|
  {
    if |events| == 0 then Some(st)
    else match StepAsWritten(st, events[0])
      case None => None
      case Some(next) => RunAsWritten(next, events[1..])
  }

  /** The page's row seen through the corrected one: same tabs, same active tab. */
  function AsWritten(st: TabRow): TabsAsWritten {
    TabsAsWritten(st.tabs, st.active)
  }

  /** While the counter equals the tab count plus one, the page's add and
      the corrected add produce the same row, and the counter keeps that
      relation. */
  lemma AddAgrees(st: TabRow)
    requires st.next == |st.tabs| + 1
    ensures AsWritten(AddTab(st)) == AddTabAsWritten(AsWritten(st))
    ensures AddTab(st).next == |AddTab(st).tabs| + 1
  {
  }

  /** Selecting a tab does the same on both rows and leaves the counter. */
  lemma SelectAgrees(st: TabRow, tabId: string)
    ensures AsWritten(SelectTab(st, tabId)) == SelectTabAsWritten(AsWritten(st), tabId)
    ensures SelectTab(st, tabId).next == st.next && |SelectTab(st, tabId).tabs| == |st.tabs|
  {
  }

  /** As long as no tab has been closed, the corrected row and the page's
      own row name and activate the same tabs, click for click. */
  lemma {:induction false} AgreesUntilFirstClose(st: TabRow, events: seq<TabEvent>)
    requires st.next == |st.tabs| + 1
    requires forall i :: 0 <= i < |events| ==> !events[i].CloseClicked?
    ensures RunAsWritten(AsWritten(st), events) == Some(AsWritten(Run(st, events)))
    ensures Run(st, events).next == |Run(st, events).tabs| + 1
    decreases |events|
  {
    if |events| > 0 {
      assert !events[0].CloseClicked?;
      if events[0].AddClicked? {
        AddAgrees(st);
      } else {
        SelectAgrees(st, events[0].tabId);
      }
      AgreesUntilFirstClose(Step(st, events[0]), events[1..]);
    }
  }

  /** Whatever the clicks, the corrected row keeps at least one tab, never
      shows two tabs with the same id, and always has an open active tab. */
  lemma {:induction false} RunKeepsValid(st: TabRow, events: seq<TabEvent>)
    requires Valid(st)
    ensures var r := Run(st, events);
      Valid(r) && |r.tabs| >= 1 && DistinctIds(r.tabs) && Listed(r.tabs, r.active)
    decreases |events|
  {
    if |events| > 0 {
      RunKeepsValid(Step(st, events[0]), events[1..]);
    }
  }
}
