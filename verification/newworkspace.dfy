/** The "new workspace" card of a project (`NewWorkspaceCard`): idle, then
    five timed set-up steps, a short success screen, and finally a new idle
    workspace in the store. Timer firings, the random city pick and the
    collapse of the project that unmounts the card are explicit inputs. */
module NewWorkspace {
  import opened Base
  import opened Text
  import Store

  datatype Phase = Idle | Creating | Succeeded | Failed

  const StepCount: nat := 5

  const Cities: seq<string> :=
    ["marseille", "barcelona", "amsterdam", "copenhagen", "vienna", "oslo", "dublin", "lisbon"]

  datatype Card = Card(phase: Phase, step: nat, elapsed: nat, city: string, error: string)

  const InitialCard := Card(Idle, 0, 0, "", "")

  /** What the card keeps true between events: at most five steps done, an
      idle card is fully reset, a running or finished card carries one of
      the eight city names, and success means every step is done. */
  predicate Valid(c: Card) {
    c.step <= StepCount
    && (c.phase == Idle ==> c.step == 0 && c.elapsed == 0 && c.city == "")
    && (c.phase != Idle ==> c.city in Cities)
    && (c.phase == Succeeded ==> c.step == StepCount)
  }

  datatype Event =
    | CreateClicked(cityIndex: nat)   // `Math.floor(Math.random() * 8)`
    | SecondTick                      // the one-second interval
    | StepTimer                       // the two-second step timeout
    | StepsDone                       // the effect that notices the last step
    | CancelClicked
    | RetryClicked(cityIndex: nat)
    | FinishTimer                     // the one-second timeout after success
    | ProjectCollapsed                // the card is unmounted with its project's list

  /** `handleCreate`: a fresh run with the picked city. */
  function Start(c: Card, cityIndex: nat): (r: Card)
    ensures r.phase == Creating && r.step == 0 && r.elapsed == 0
    ensures r.city == Cities[cityIndex % |Cities|] && r.city in Cities
  {
    Card(Creating, 0, 0, Cities[cityIndex % |Cities|], c.error)
  }

  /** `handleCancel`: back to a fully reset idle card (the error text is kept). */
  function Reset(c: Card): (r: Card)
    ensures r.phase == Idle && r.step == 0 && r.elapsed == 0 && r.city == ""
    ensures r.error == c.error
  {
    Card(Idle, 0, 0, "", c.error)
  }

  /** One event. Buttons act only on the screen that shows them (create on
      idle, cancel while creating or failed, retry on failure) and each
      timer runs only in the phase that starts it. Collapsing the project
      unmounts the card: its timers stop and, when the project is opened
      again, a fresh idle card is mounted. */
  function Step(c: Card, e: Event): (r: Card)
    ensures Valid(c) ==> Valid(r)
    ensures r.phase == Failed ==> c.phase == Failed
    ensures c.phase == Creating && e == SecondTick ==> r.elapsed == c.elapsed + 1
    ensures c.phase == Creating && c.step < StepCount && e == StepTimer ==> r.step == c.step + 1
    ensures c.phase == Creating && e == CancelClicked ==> r == Reset(c)
    ensures c.phase == Creating && c.step == StepCount && e == StepsDone ==> r == c.(phase := Succeeded)
    ensures e == ProjectCollapsed ==> r == InitialCard
  {
    match e
    case CreateClicked(i) => if c.phase == Idle then Start(c, i) else c
    case SecondTick => if c.phase == Creating then c.(elapsed := c.elapsed + 1) else c
    case StepTimer => if c.phase == Creating && c.step < StepCount then c.(step := c.step + 1) else c
    case StepsDone => if c.phase == Creating && c.step == StepCount then c.(phase := Succeeded) else c
    case CancelClicked => if c.phase == Creating || c.phase == Failed then Reset(c) else c
    case RetryClicked(i) => if c.phase == Failed then Start(c.(error := ""), i) else c
    case FinishTimer => if c.phase == Succeeded then Reset(c) else c
    case ProjectCollapsed => InitialCard
  }

  function Run(c: Card, events: seq<Event>): Card
    decreases |events|
  {
    if |events| == 0 then c else Run(Step(c, events[0]), events[1..])
  }

  /** From the initial card every reachable card is valid, and the failure
      screen is never reached: nothing in the page sets the error state. */
  lemma {:induction false} RunStaysValid(c: Card, events: seq<Event>)
    requires Valid(c) && c.phase != Failed
    ensures Valid(Run(c, events)) && Run(c, events).phase != Failed
    decreases |events|
  {
    if |events| > 0 {
      RunStaysValid(Step(c, events[0]), events[1..]);
    }
  }

  /** The workspace the success timeout adds to the store. `idStamp`,
      `branchStamp` and `nowMs` are the three clock readings it makes. */
  function Created(c: Card, projectId: string, idStamp: nat, branchStamp: nat, nowMs: int): (w: Store.Workspace)
    ensures w.name == c.city && w.projectId == projectId
    ensures w.status == Store.Idle && w.additions == 0 && w.deletions == 0
    ensures w.id == NatToString(idStamp) && w.createdAt == nowMs
    ensures var prefix := "feature/" + c.city + "-";
      |w.branch| > |prefix| && w.branch[..|prefix|] == prefix
      && AllDigits(w.branch[|prefix|..]) && ParseDigits(w.branch[|prefix|..]) == branchStamp
  {
    var prefix := "feature/" + c.city + "-";
    var branch := prefix + NatToString(branchStamp);
    assert branch[..|prefix|] == prefix && branch[|prefix|..] == NatToString(branchStamp);
    Store.Workspace(NatToString(idStamp), c.city, branch, Store.Idle, 0, 0, nowMs, projectId)
  }

  /** The success timeout: the store gains the new workspace, listed last in
      its project's section, and the card resets. */
  lemma FinishAddsWorkspace(c: Card, st: Store.Sidebar, projectId: string, idStamp: nat, branchStamp: nat, nowMs: int)
    requires Valid(c) && c.phase == Succeeded
    ensures var w := Created(c, projectId, idStamp, branchStamp, nowMs);
      var after := Store.AddWorkspace(st, w).workspaces;
      Store.ProjectWorkspaces(after, projectId)
        == Store.ProjectWorkspaces(st.workspaces, projectId) + [w]
      && w.name in Cities
      && Step(c, FinishTimer) == Reset(c)
  {
    var w := Created(c, projectId, idStamp, branchStamp, nowMs);
    Store.AddShowsInOwnProject(st, w, projectId);
  }

  /** Collapsing the project mid-creation abandons the run: the reopened
      card is idle, and no timer of the old run touches it. Collapsing it on
      the success screen abandons the card too, but the success timeout is
      never cleared, so the workspace is still added to the store. */
  lemma CollapseAbandonsRun(c: Card, st: Store.Sidebar, projectId: string, idStamp: nat, branchStamp: nat, nowMs: int)
    requires Valid(c)
    ensures var r := Step(c, ProjectCollapsed);
      r == InitialCard
      && Step(r, SecondTick) == r && Step(r, StepTimer) == r
      && Step(r, StepsDone) == r && Step(r, FinishTimer) == r
    ensures c.phase == Succeeded ==>
      var w := Created(c, projectId, idStamp, branchStamp, nowMs);
      Store.ProjectWorkspaces(Store.AddWorkspace(st, w).workspaces, projectId)
        == Store.ProjectWorkspaces(st.workspaces, projectId) + [w]
      && w.name in Cities
  {
    var w := Created(c, projectId, idStamp, branchStamp, nowMs);
    Store.AddShowsInOwnProject(st, w, projectId);
  }

  datatype StepMark = Done | Active | Pending

  /** The marker of set-up step `index` while `step` steps are complete. */
  function Mark(index: int, step: nat): StepMark {
    if index < step then Done else if index == step then Active else Pending
  }

  /** Exactly `step` steps show as done, and one shows as active unless all
      are done. */
  lemma MarksCount(step: nat)
    requires step <= StepCount
    ensures CountWhere(seq(StepCount, i => Mark(i, step)), (m: StepMark) => m == Done) == step
    ensures CountWhere(seq(StepCount, i => Mark(i, step)), (m: StepMark) => m == Active)
      == (if step < StepCount then 1 else 0)
  {
    var marks := seq(StepCount, i => Mark(i, step));
    MarksCountFrom(marks, 0, step);
  }

  /** Counting helper: the marks from position `from` on. */
  lemma {:induction false} MarksCountFrom(marks: seq<StepMark>, from: nat, step: nat)
    requires forall i :: 0 <= i < |marks| ==> marks[i] == Mark(i + from, step)
    ensures CountWhere(marks, (m: StepMark) => m == Done)
      == if step <= from then 0 else if step >= from + |marks| then |marks| else step - from
    ensures CountWhere(marks, (m: StepMark) => m == Active)
      == if from <= step < from + |marks| then 1 else 0
    decreases |marks|
  {
    if |marks| > 0 {
      MarksCountFrom(marks[1..], from + 1, step);
    }
  }

  /** The events of one set-up step as the page's timers deliver them: the
      one-second interval fires twice during the two-second step timeout. */
  const StepEvents: seq<Event> := [SecondTick, SecondTick, StepTimer]

  function Steps(n: nat): seq<Event> {
    if n == 0 then [] else StepEvents + Steps(n - 1)
  }

  lemma {:induction false} RunConcat(c: Card, a: seq<Event>, b: seq<Event>)
    ensures Run(c, a + b) == Run(Run(c, a), b)
    decreases |a|
  {
    if |a| == 0 {
      assert a + b == b;
    } else {
      assert (a + b)[1..] == a[1..] + b;
      RunConcat(Step(c, a[0]), a[1..], b);
    }
  }

  /** `n` set-up steps while creating: `n` more steps done and `2n` more
      seconds on the timer, nothing else changed. */
  lemma {:induction false} RunSteps(c: Card, n: nat)
    requires c.phase == Creating && c.step + n <= StepCount
    ensures Run(c, Steps(n)) == c.(step := c.step + n, elapsed := c.elapsed + 2 * n)
    decreases n
  {
    if n > 0 {
      var d := c.(step := c.step + 1, elapsed := c.elapsed + 2);
      assert Run(c, StepEvents) == d;
      RunConcat(c, StepEvents, Steps(n - 1));
      RunSteps(d, n - 1);
    }
  }

  /** The success screen is reached after the five step timeouts, by which
      time the one-second interval has fired ten times. */
  lemma HappyPath(i: nat)
    ensures var c := Run(InitialCard, [CreateClicked(i)] + Steps(StepCount) + [StepsDone]);
      c.phase == Succeeded && c.step == StepCount && c.elapsed == 10 && c.city in Cities
  {
    var started := Step(InitialCard, CreateClicked(i));
    assert Run(InitialCard, [CreateClicked(i)]) == started;
    RunConcat(InitialCard, [CreateClicked(i)], Steps(StepCount) + [StepsDone]);
    RunConcat(started, Steps(StepCount), [StepsDone]);
    RunSteps(started, StepCount);
    assert [CreateClicked(i)] + Steps(StepCount) + [StepsDone]
      == [CreateClicked(i)] + (Steps(StepCount) + [StepsDone]);
  }
}
