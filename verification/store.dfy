/** The workspace store's reducers as pure functions: deleting and adding
    workspaces, toggling a project open or closed, the per-project list the
    sidebar draws, the ⌘-number each row shows, and which main view the page
    picks for the selected workspace. */
module Store {
  import opened Base
  import opened Text

  datatype WorkspaceStatus = Working | Idle | Error | Creating

  /** `createdAt` is the creation instant in milliseconds since the epoch. */
  datatype Workspace = Workspace(
    id: string,
    name: string,
    branch: string,
    status: WorkspaceStatus,
    additions: nat,
    deletions: nat,
    createdAt: int,
    projectId: string)

  /** The store fields the sidebar reducers touch. */
  datatype Sidebar = Sidebar(
    workspaces: seq<Workspace>,
    selectedWorkspaceId: Option<string>,
    expandedProjects: map<string, bool>)

  predicate HasId(ws: seq<Workspace>, id: string) {
    exists i :: 0 <= i < |ws| && ws[i].id == id
  }

  /** The selection is empty or names a workspace that exists. */
  predicate SelectionValid(st: Sidebar) {
    st.selectedWorkspaceId.None? || HasId(st.workspaces, st.selectedWorkspaceId.value)
  }

  /** `ws[0]?.id || null`: no first workspace, or an empty id, gives null. */
  function FirstIdOrNull(ws: seq<Workspace>): (r: Option<string>)
    ensures r.Some? ==> |ws| > 0 && r.value == ws[0].id && r.value != ""
    ensures r.None? ==> |ws| == 0 || ws[0].id == ""
  {
    if |ws| == 0 || ws[0].id == "" then None else Some(ws[0].id)
  }

  /** The workspaces whose id differs from `id`, in order. */
  function Without(ws: seq<Workspace>, id: string): (r: seq<Workspace>)
    ensures forall i :: 0 <= i < |r| ==> r[i].id != id
    ensures forall i :: 0 <= i < |ws| && ws[i].id != id ==> ws[i] in r
  {
    Filter(ws, (w: Workspace) => w.id != id)
  }

  // ---------------------------------------------------------------------------
  // deleteWorkspace
  // ---------------------------------------------------------------------------

  /** `deleteWorkspace` as the page writes it: when the selected workspace is
      deleted, the selection falls back to the first id of the list as it
      was BEFORE the deletion, which may be the deleted workspace itself. */
  function DeleteWorkspaceAsWritten(st: Sidebar, id: string): (r: Sidebar)
    ensures r.workspaces == Without(st.workspaces, id)
    ensures st.selectedWorkspaceId != Some(id) ==> r.selectedWorkspaceId == st.selectedWorkspaceId
    ensures st.selectedWorkspaceId == Some(id) ==> r.selectedWorkspaceId == FirstIdOrNull(st.workspaces)
    ensures r.expandedProjects == st.expandedProjects
  {
    st.(
      workspaces := Without(st.workspaces, id),
      selectedWorkspaceId :=
        if st.selectedWorkspaceId == Some(id) then FirstIdOrNull(st.workspaces)
        else st.selectedWorkspaceId)
  }

  /** The store's initial workspaces, created 5, 15, 30, 120 and 1 minutes
      before `now`. */
  function InitialWorkspaces(now: int): seq<Workspace> {
    [ Workspace("1", "prague", "feature/auth-system", Working, 234, 67, now - 5 * 60 * 1000, "1"),
      Workspace("2", "tokyo", "fix/database-migration", Idle, 89, 23, now - 15 * 60 * 1000, "1"),
      Workspace("3", "berlin", "feature/ui-redesign", Working, 456, 123, now - 30 * 60 * 1000, "2"),
      Workspace("4", "london", "refactor/api-endpoints", Error, 12, 45, now - 2 * 60 * 60 * 1000, "2"),
      Workspace("5", "paris", "feature/payment-integration", Creating, 0, 0, now - 1 * 60 * 1000, "3") ]
  }

  /** The store's initial sidebar: workspace "1" selected, all projects open. */
  function InitialSidebar(now: int): Sidebar {
    Sidebar(InitialWorkspaces(now), Some("1"), map["1" := true, "2" := true, "3" := true])
  }

  /** Deleting the selected workspace when it is listed first (and its id
      is not shared) keeps its id selected although no workspace with that
      id remains, so the page shows its empty state whatever else is left. */
  lemma {:induction false} DeleteFirstSelectedDangles(st: Sidebar)
    requires |st.workspaces| > 0 && st.workspaces[0].id != ""
    requires st.selectedWorkspaceId == Some(st.workspaces[0].id)
    requires forall i :: 1 <= i < |st.workspaces| ==> st.workspaces[i].id != st.workspaces[0].id
    ensures var after := DeleteWorkspaceAsWritten(st, st.workspaces[0].id);
      after.workspaces == st.workspaces[1..]
      && after.selectedWorkspaceId == st.selectedWorkspaceId
      && !SelectionValid(after)
      && ViewOf(after) == EmptyState
  {
    var ws := st.workspaces;
    var rest := ws[1..];
    var keep := (w: Workspace) => w.id != ws[0].id;
    assert ws == [ws[0]] + rest;
    FilterConcat([ws[0]], rest, keep);
    FilterKeepsAll(rest, keep);
  }

  /** The initial store shows it: deleting the selected workspace "1" leaves
      "1" selected and the empty state shown while four workspaces remain. */
  lemma DeleteAsWrittenLeavesDanglingSelection(now: int)
    ensures var before := InitialSidebar(now);
      var after := DeleteWorkspaceAsWritten(before, "1");
      SelectionValid(before)
      && after.selectedWorkspaceId == Some("1")
      && !SelectionValid(after)
      && |after.workspaces| == 4
      && ViewOf(after) == EmptyState
  {
    var before := InitialSidebar(now);
    assert before.workspaces[0].id == "1";
    DeleteFirstSelectedDangles(before);
  }

  /** `deleteWorkspace` with the fallback the page evidently intends: the
      first id of the list AFTER the deletion. It removes exactly the
      workspaces with that id and never leaves a dangling selection. */
  function DeleteWorkspace(st: Sidebar, id: string): (r: Sidebar)
    ensures r.workspaces == Without(st.workspaces, id)
    ensures !HasId(r.workspaces, id)
    ensures st.selectedWorkspaceId != Some(id) ==> r.selectedWorkspaceId == st.selectedWorkspaceId
    ensures st.selectedWorkspaceId == Some(id) ==> r.selectedWorkspaceId == FirstIdOrNull(r.workspaces)
    ensures SelectionValid(st) ==> SelectionValid(r)
    ensures r.expandedProjects == st.expandedProjects
  {
    var remaining := Without(st.workspaces, id);
    var selected :=
      if st.selectedWorkspaceId == Some(id) then FirstIdOrNull(remaining)
      else st.selectedWorkspaceId;
    var r := st.(workspaces := remaining, selectedWorkspaceId := selected);
    assert SelectionValid(st) && selected.Some? ==> HasId(remaining, selected.value) by {
      if SelectionValid(st) && selected.Some? {
        if st.selectedWorkspaceId == Some(id) {
          assert remaining[0].id == selected.value;
        } else {
          var i :| 0 <= i < |st.workspaces| && st.workspaces[i].id == selected.value;
          var k :| 0 <= k < |remaining| && remaining[k] == st.workspaces[i];
        }
      }
    }
    r
  }

  /** The two versions differ only in the fallback, and only when the
      deleted workspace was both selected and first: in every other case
      they give the same sidebar. */
  lemma {:induction false} DeleteVersionsAgree(st: Sidebar, id: string)
    requires !(st.selectedWorkspaceId == Some(id) && |st.workspaces| > 0 && st.workspaces[0].id == id)
    ensures DeleteWorkspaceAsWritten(st, id) == DeleteWorkspace(st, id)
  {
    var ws := st.workspaces;
    if st.selectedWorkspaceId == Some(id) && |ws| > 0 {
      var keep := (w: Workspace) => w.id != id;
      assert ws == [ws[0]] + ws[1..];
      FilterConcat([ws[0]], ws[1..], keep);
      assert Without(ws, id)[0] == ws[0];
    }
  }

  // ---------------------------------------------------------------------------
  // addWorkspace, the per-project list, toggleProject
  // ---------------------------------------------------------------------------

  /** `addWorkspace`: append at the end; nothing else changes. */
  function AddWorkspace(st: Sidebar, w: Workspace): (r: Sidebar)
    ensures |r.workspaces| == |st.workspaces| + 1 && r.workspaces[|st.workspaces|] == w
    ensures r.workspaces[..|st.workspaces|] == st.workspaces
    ensures r.selectedWorkspaceId == st.selectedWorkspaceId
    ensures SelectionValid(st) ==> SelectionValid(r)
  {
    var r := st.(workspaces := st.workspaces + [w]);
    assert SelectionValid(st) ==> SelectionValid(r) by {
      if SelectionValid(st) && st.selectedWorkspaceId.Some? {
        var i :| 0 <= i < |st.workspaces| && st.workspaces[i].id == st.selectedWorkspaceId.value;
        assert r.workspaces[i] == st.workspaces[i];
      }
    }
    r
  }

  /** A project's sidebar section lists that project's workspaces, in store order. */
  function ProjectWorkspaces(ws: seq<Workspace>, projectId: string): (r: seq<Workspace>)
    ensures forall i :: 0 <= i < |r| ==> r[i].projectId == projectId && r[i] in ws
    ensures forall i :: 0 <= i < |ws| && ws[i].projectId == projectId ==> ws[i] in r
  {
    Filter(ws, (w: Workspace) => w.projectId == projectId)
  }

  /** Adding a workspace appends it to its own project's section and leaves
      every other section as it was. */
  lemma AddShowsInOwnProject(st: Sidebar, w: Workspace, projectId: string)
    ensures ProjectWorkspaces(AddWorkspace(st, w).workspaces, projectId)
      == ProjectWorkspaces(st.workspaces, projectId)
         + (if w.projectId == projectId then [w] else [])
  {
    FilterConcat(st.workspaces, [w], (x: Workspace) => x.projectId == projectId);
  }

  /** `expandedProjects[projectId]`: a missing key reads as `undefined`, falsy. */
  function IsExpanded(m: map<string, bool>, projectId: string): bool {
    projectId in m && m[projectId]
  }

  /** `toggleProject`: store the negation of the current (possibly missing) flag. */
  function ToggleProject(m: map<string, bool>, projectId: string): (r: map<string, bool>)
    ensures IsExpanded(r, projectId) == !IsExpanded(m, projectId)
    ensures forall q :: q != projectId ==> IsExpanded(r, q) == IsExpanded(m, q)
    ensures r.Keys == m.Keys + {projectId}
  {
    m[projectId := !IsExpanded(m, projectId)]
  }

  /** Toggling twice restores every project's visible state (a missing key
      comes back as an explicit `false`). */
  lemma ToggleTwice(m: map<string, bool>, projectId: string, q: string)
    ensures IsExpanded(ToggleProject(ToggleProject(m, projectId), projectId), q) == IsExpanded(m, q)
  {
  }

  // ---------------------------------------------------------------------------
  // Sidebar rows and the main view
  // ---------------------------------------------------------------------------

  /** `(index % 9) + 1`, shown as `⌘n` while the command key is held. */
  function ShortcutNumber(index: nat): (n: nat)
    ensures 1 <= n <= 9
  {
    index % 9 + 1
  }

  /** Two rows of a section show the same number exactly when their positions
      are congruent modulo 9: the first nine rows are told apart, the tenth
      repeats `⌘1`. */
  lemma ShortcutNumbersRepeatAfterNine(i: nat, j: nat)
    ensures ShortcutNumber(i) == ShortcutNumber(j) <==> i % 9 == j % 9
    ensures ShortcutNumber(i + 9) == ShortcutNumber(i)
  {
  }

  datatype MainView = EmptyState | Chat(workspace: Workspace)

  /** Position `i` holds the first workspace with id `id`. */
  predicate FirstWithId(ws: seq<Workspace>, i: int, id: string) {
    0 <= i < |ws| && ws[i].id == id && forall j :: 0 <= j < i ==> ws[j].id != id
  }

  /** Only one position is the first with a given id. */
  lemma FirstWithIdUnique(ws: seq<Workspace>, id: string, i: int, k: int)
    requires FirstWithId(ws, i, id) && FirstWithId(ws, k, id)
    ensures i == k
  {
  }

  /** `workspaces.find((w) => w.id === selectedWorkspaceId)`: the first
      workspace with that id, if any. */
  function FindWorkspace(ws: seq<Workspace>, id: Option<string>): (r: Option<Workspace>)
    ensures r.Some? ==> r.value in ws && id == Some(r.value.id)
    ensures r.Some? ==> exists i :: FirstWithId(ws, i, id.value) && ws[i] == r.value
    ensures r.None? <==> id.None? || !HasId(ws, id.value)
  {
    if id.None? || |ws| == 0 then None
    else if ws[0].id == id.value then Some(ws[0])
    else
      var r := FindWorkspace(ws[1..], id);
      assert HasId(ws[1..], id.value) ==> HasId(ws, id.value) by {
        if HasId(ws[1..], id.value) {
          var i :| 0 <= i < |ws| - 1 && ws[1..][i].id == id.value;
          assert ws[i + 1].id == id.value;
        }
      }
      assert HasId(ws, id.value) ==> HasId(ws[1..], id.value) by {
        if HasId(ws, id.value) {
          var i :| 0 <= i < |ws| && ws[i].id == id.value;
          assert i > 0;
          assert ws[1..][i - 1].id == id.value;
        }
      }
      assert r.Some? ==> exists i :: FirstWithId(ws, i, id.value) && ws[i] == r.value by {
        if r.Some? {
          var i :| FirstWithId(ws[1..], i, id.value) && ws[1..][i] == r.value;
          assert ws[i + 1] == r.value;
          forall j | 0 <= j < i + 1 ensures ws[j].id != id.value {
            if j > 0 { assert ws[j] == ws[1..][j - 1]; }
          }
          assert FirstWithId(ws, i + 1, id.value);
        }
      }
      r
  }

  /** The centre pane: the chat of the selected workspace when it exists,
      otherwise the empty state. */
  function ViewOf(st: Sidebar): (v: MainView)
    ensures v.Chat? <==> SelectionValid(st) && st.selectedWorkspaceId.Some?
    ensures v.Chat? ==> v.workspace in st.workspaces
    ensures v.Chat? ==> Some(v.workspace.id) == st.selectedWorkspaceId
  {
    if |st.workspaces| == 0 then EmptyState
    else match FindWorkspace(st.workspaces, st.selectedWorkspaceId)
      case Some(w) => Chat(w)
      case None => EmptyState
  }

  /** The chat shown is that of the first workspace carrying the selected
      id: for any position holding the selected id with no earlier one, the
      view is exactly that workspace's chat. */
  lemma {:induction false} ViewIsFirstSelected(st: Sidebar, i: nat)
    requires st.selectedWorkspaceId.Some? && FirstWithId(st.workspaces, i, st.selectedWorkspaceId.value)
    ensures ViewOf(st) == Chat(st.workspaces[i])
  {
    var ws := st.workspaces;
    var id := st.selectedWorkspaceId.value;
    assert HasId(ws, id);
    var r := FindWorkspace(ws, st.selectedWorkspaceId);
    var k :| FirstWithId(ws, k, id) && ws[k] == r.value;
    FirstWithIdUnique(ws, id, i, k);
  }
}
