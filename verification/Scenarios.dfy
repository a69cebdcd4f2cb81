/** Concrete runs from the empty table showing where the queue does less than one
    might expect. Each step of a run is checked against the table it leaves. */
module Scenarios {
  import opened Optional
  import opened TaskModel
  import opened Claiming
  import opened WaitingParent
  import opened Protocol
  import opened Guarantees
  import L = Pipeline
  import PH = PipelineHistory

  /** The run leaves this table and has issued these runner ids. */
  ghost predicate Leaves(steps: seq<Step>, rows: Table, issued: set<RunnerId>) {
    Reach(steps).rows == rows && Reach(steps).hist.issued == issued
  }

  lemma Created(steps: seq<Step>, rows: Table, issued: set<RunnerId>, t: Task)
    requires Leaves(steps, rows, issued) && FreshRow(t) && t.parent.None? && t.uniqueKey.None?
    ensures Leaves(steps + [Create(t)], rows + [t], issued)
  {
    RunOneMore(steps, Create(t));
  }

  /** One claim when row i is the only pending one. */
  function ClaimOne(u: RunnerId): Step {
    ClaimTasks(AnyQuery(), {}, [u])
  }

  function AnyQuery(): Query {
    Query(0, {"default"}, {}, {}, 0, 1)
  }

  lemma OnlyPick(rows: Table, i: TaskId)
    requires i < |rows| && Eligible(rows, AnyQuery(), i)
    requires forall j :: 0 <= j < |rows| && j != i ==> !rows[j].state.Pending?
    ensures Picked(rows, AnyQuery(), {}) == [i]
  {
    var q := AnyQuery();
    assert Candidates(rows, q, {}) == {i};
    ClaimCount(rows, q, {});
    assert Picked(rows, q, {})[0] in Candidates(rows, q, {});
  }

  lemma Claimed(steps: seq<Step>, rows: Table, issued: set<RunnerId>, i: TaskId, u: RunnerId)
    requires Leaves(steps, rows, issued) && i < |rows| && Eligible(rows, AnyQuery(), i) && u !in issued
    requires forall j :: 0 <= j < |rows| && j != i ==> !rows[j].state.Pending?
    ensures Leaves(steps + [ClaimOne(u)], rows[i := Assign(rows[i], 0, u)], issued + {u})
  {
    OnlyPick(rows, i);
    RunOneMore(steps, ClaimOne(u));
    AssignAllAt(rows, [i], 0, [u]);
    assert [i][0] == i && [u][0] == u;
    assert Claim(rows, AnyQuery(), {}, [u]) == rows[i := Assign(rows[i], 0, u)];
    assert (set x | x in [u]) == {u};
  }

  lemma Wrote(steps: seq<Step>, rows: Table, issued: set<RunnerId>, op: RowOp, i: TaskId)
    requires Leaves(steps, rows, issued) && i < |rows| && Effect(op, rows[i]).Some?
    ensures Leaves(steps + [Row(op, i)], rows[i := Effect(op, rows[i]).value], issued)
  {
    RunOneMore(steps, Row(op, i));
  }

  lemma Forked(steps: seq<Step>, rows: Table, issued: set<RunnerId>, p: TaskId, kids: seq<Task>, mark: Mark)
    requires Leaves(steps, rows, issued) && p < |rows| && MayFork(rows[p], kids, mark) && FreshKids(kids, p)
    ensures Leaves(steps + [ForkWave(p, kids, mark)], Fork(rows, p, kids, mark), issued)
  {
    RunOneMore(steps, ForkWave(p, kids, mark));
  }

  /** A check of an unlocked waiting parent with nothing active and a child that
      failed for good. */
  lemma CheckedDead(steps: seq<Step>, rows: Table, issued: set<RunnerId>, p: TaskId, c: TaskId)
    requires Leaves(steps, rows, issued) && p < |rows| && rows[p].state.Waiting?
    requires !ActiveKid(rows, p) && ChildOf(rows, c, p) && Dead(rows[c])
    ensures Leaves(steps + [CheckParent(p, {}, Returned([], Unmarked, None), 1)],
                   rows[p := ToFailed(rows[p], 1)], issued)
  {
    RunOneMore(steps, CheckParent(p, {}, Returned([], Unmarked, None), 1));
    assert DeadKid(rows, p);
  }

  lemma RetriedByHand(steps: seq<Step>, rows: Table, issued: set<RunnerId>, i: TaskId)
    requires Leaves(steps, rows, issued) && i < |rows| && rows[i].state.Failed? && rows[i].uniqueKey.None?
    ensures Leaves(steps + [ManualRetry(i, None)], rows[i := Reset(rows[i], None)], issued)
  {
    RunOneMore(steps, ManualRetry(i, None));
  }

  /** A claim of the only pending row and the start by its own thread. */
  lemma ClaimedAndStarted(steps: seq<Step>, rows: Table, issued: set<RunnerId>, i: TaskId, u: RunnerId)
    requires Leaves(steps, rows, issued) && i < |rows| && Eligible(rows, AnyQuery(), i) && u !in issued
    requires forall j :: 0 <= j < |rows| && j != i ==> !rows[j].state.Pending?
    ensures Leaves(steps + [ClaimOne(u)] + [Row(Start(u), i)],
                   rows[i := Assign(rows[i], 0, u).(state := Running, progress := 0)], issued + {u})
  {
    Claimed(steps, rows, issued, i, u);
    Wrote(steps + [ClaimOne(u)], rows[i := Assign(rows[i], 0, u)], issued + {u}, Start(u), i);
    assert rows[i := Assign(rows[i], 0, u)][i := Assign(rows[i], 0, u).(state := Running, progress := 0)]
           == rows[i := Assign(rows[i], 0, u).(state := Running, progress := 0)];
  }

  // ---- a late thread starts somebody else's claim ------------------------------------

  function Root(): Task {
    Plain("job", 0)
  }

  function LoseFirst(): Step {
    Row(Lost(Some(1), Some(0), None, 9), 0)
  }

  function Born(): seq<Step> {
    [Create(Root())]
  }

  /** Runner 1 claims the task and its worker is lost; runner 2 claims it again;
      then the thread of runner 1 wakes up and starts it. */
  function LateStart(): seq<Step> {
    Born() + [ClaimOne(1)] + [LoseFirst()] + [ClaimOne(2)]
  }

  lemma BornPending()
    ensures Leaves(Born(), [Root()], {})
  {
    Created([], [], {}, Root());
    assert [] + [Create(Root())] == Born() && [] + [Root()] == [Root()];
  }

  lemma BeforeLoss(steps: seq<Step>)
    requires Leaves(steps, [Root()], {})
    ensures Leaves(steps + [ClaimOne(1)], [Assign(Root(), 0, 1)], {1})
  {
    Claimed(steps, [Root()], {}, 0, 1);
    assert [Root()][0 := Assign(Root(), 0, 1)] == [Assign(Root(), 0, 1)] && {} + {1} == {1};
  }

  lemma AfterLoss(steps: seq<Step>)
    requires Leaves(steps, [Assign(Root(), 0, 1)], {1})
    ensures Leaves(steps + [LoseFirst()], [Root()], {1})
    ensures Leaves(steps + [LoseFirst()] + [ClaimOne(2)], [Assign(Root(), 0, 2)], {1, 2})
  {
    var a := [Assign(Root(), 0, 1)];
    Wrote(steps, a, {1}, LoseFirst().op, 0);
    assert a[0 := Unclaimed(a[0])] == [Root()];
    RootClaimed(steps + [LoseFirst()], {1}, 2);
    assert {1} + {2} == {1, 2};
  }

  lemma RootClaimed(steps: seq<Step>, issued: set<RunnerId>, u: RunnerId)
    requires Leaves(steps, [Root()], issued) && u !in issued
    ensures Leaves(steps + [ClaimOne(u)], [Assign(Root(), 0, u)], issued + {u})
  {
    Claimed(steps, [Root()], issued, 0, u);
    assert [Root()][0 := Assign(Root(), 0, u)] == [Assign(Root(), 0, u)];
  }

  lemma ClaimsHere(before: seq<Step>, rows: Table, issued: set<RunnerId>, i: TaskId, u: RunnerId)
    requires Leaves(before, rows, issued) && i < |rows| && Eligible(rows, AnyQuery(), i) && u !in issued
    requires forall j :: 0 <= j < |rows| && j != i ==> !rows[j].state.Pending?
    ensures Enabled(Reach(before), ClaimOne(u)) && i in Picked(Reach(before).rows, AnyQuery(), {})
    ensures Leaves(before + [ClaimOne(u)], rows[i := Assign(rows[i], 0, u)], issued + {u})
  {
    OnlyPick(rows, i);
    Claimed(before, rows, issued, i, u);
  }

  /** The claim just after `before` in the run `whole`. */
  lemma ClaimedAt(before: seq<Step>, rows: Table, issued: set<RunnerId>, i: TaskId, u: RunnerId, whole: seq<Step>)
    requires |before| < |whole| && whole[..|before|] == before && whole[|before|] == ClaimOne(u)
    requires Leaves(before, rows, issued) && i < |rows| && Eligible(rows, AnyQuery(), i) && u !in issued
    requires forall j :: 0 <= j < |rows| && j != i ==> !rows[j].state.Pending?
    ensures ClaimsAs(whole, |before|, i, u)
  {
    ClaimsHere(before, rows, issued, i, u);
    assert whole[..|before| + 1] == before + [ClaimOne(u)];
  }

  lemma LateStartLeaves(steps: seq<Step>)
    requires Leaves(steps, [Root()], {})
    ensures Leaves(steps + [ClaimOne(1)] + [LoseFirst()], [Root()], {1})
    ensures Leaves(steps + [ClaimOne(1)] + [LoseFirst()] + [ClaimOne(2)], [Assign(Root(), 0, 2)], {1, 2})
  {
    BeforeLoss(steps);
    AfterLoss(steps + [ClaimOne(1)]);
  }

  lemma BothClaim(steps: seq<Step>, whole: seq<Step>)
    requires Leaves(steps, [Root()], {}) && whole == steps + [ClaimOne(1)] + [LoseFirst()] + [ClaimOne(2)]
    ensures ClaimsAs(whole, |steps|, 0, 1) && ClaimsAs(whole, |steps| + 2, 0, 2)
  {
    LateStartLeaves(steps);
    ClaimedAt(steps, [Root()], {}, 0, 1, whole);
    ClaimedAt(steps + [ClaimOne(1)] + [LoseFirst()], [Root()], {1}, 0, 2, whole);
  }

  lemma LateStartIsAccepted()
    ensures ClaimsAs(LateStart(), 1, 0, 1) && ClaimsAs(LateStart(), 3, 0, 2)
    ensures Enabled(Reach(LateStart()), Row(Start(1), 0))
    ensures Leaves(LateStart() + [Row(Start(1), 0)], [Assign(Root(), 0, 2).(state := Running)], {1, 2})
  {
    BornPending();
    BothClaim(Born(), LateStart());
    LateStartLeaves(Born());
    StartsLate(LateStart());
  }

  lemma StartsLate(steps: seq<Step>)
    requires Leaves(steps, [Assign(Root(), 0, 2)], {1, 2})
    ensures Enabled(Reach(steps), Row(Start(1), 0))
    ensures Leaves(steps + [Row(Start(1), 0)], [Assign(Root(), 0, 2).(state := Running)], {1, 2})
  {
    var b := [Assign(Root(), 0, 2)];
    Wrote(steps, b, {1, 2}, Start(1), 0);
    assert b[0 := Effect(Start(1), b[0]).value] == [b[0].(state := Running)];
  }

  // ---- a retried pipeline root with a child that failed for good --------------------------

  function Kid(): Task {
    Root().(parent := Some(0))
  }

  function Fails(): RowOp {
    ThreadRaised(2, false, None, 7)
  }

  function PollRoot(): Step {
    CheckParent(0, {}, Returned([], Unmarked, None), 1)
  }

  /** The root is claimed, started, and spawns a wave of one child. */
  function Opens(steps: seq<Step>, u: RunnerId): seq<Step> {
    steps + [ClaimOne(u)] + [Row(Start(u), 0)] + [ForkWave(0, [Kid()], WaveOf(0))]
  }

  /** The child at i is claimed, started and settled, and the root is checked. */
  function Closes(steps: seq<Step>, u: RunnerId, i: TaskId, op: RowOp): seq<Step> {
    steps + [ClaimOne(u)] + [Row(Start(u), i)] + [Row(op, i)] + [PollRoot()]
  }

  /** First execution: its one child fails for good, and the root with it. */
  function FailedOnce(): seq<Step> {
    Closes(Opens(Born(), 1), 2, 1, Fails())
  }

  /** Second execution, after a manual retry of the root: its one child is done. */
  function RetriedOnce(): seq<Step> {
    Closes(Opens(FailedOnce() + [ManualRetry(0, None)], 3), 4, 2, ThreadDone(4, None))
  }

  function WaitingRoot(u: RunnerId, child: TaskId): Task {
    Root().(state := Waiting, worker := Some(0), runner := Some(u), phase := 0, wave := [child])
  }

  function DeadChild(): Task {
    Kid().(state := Failed, worker := Some(0), runner := Some(2), error := Some(7))
  }

  lemma WaveSpawned(steps: seq<Step>, r: Task, others: Table, issued: set<RunnerId>)
    requires Leaves(steps, [r] + others, issued) && (r.state.Running? || r.state.Waiting?)
    ensures Leaves(steps + [ForkWave(0, [Kid()], WaveOf(0))],
                   [r.(state := Waiting, phase := 0, wave := [1 + |others|])] + others + [Kid()], issued)
  {
    var rows := [r] + others;
    Forked(steps, rows, issued, 0, [Kid()], WaveOf(0));
    assert Span(1 + |others|, 1) == [1 + |others|];
    var w := r.(state := Waiting, phase := 0, wave := [1 + |others|]);
    assert Fork(rows, 0, [Kid()], WaveOf(0)) == (rows + [Kid()])[0 := w];
    assert (rows + [Kid()])[0 := w] == [w] + others + [Kid()];
  }

  lemma RootStarted(steps: seq<Step>, root: Task, others: Table, issued: set<RunnerId>, u: RunnerId)
    requires Leaves(steps, [root] + others, issued) && u !in issued
    requires root.state.Pending? && root == Root().(wave := root.wave)
    requires forall t :: t in others ==> !t.state.Pending?
    ensures Leaves(steps + [ClaimOne(u)] + [Row(Start(u), 0)],
                   [Assign(root, 0, u).(state := Running)] + others, issued + {u})
  {
    var rows := [root] + others;
    assert Eligible(rows, AnyQuery(), 0);
    assert forall j :: 0 < j < |rows| ==> rows[j] in others;
    ClaimedAndStarted(steps, rows, issued, 0, u);
    var r := Assign(root, 0, u).(state := Running);
    assert rows[0 := r] == [r] + others;
  }

  lemma Opened(steps: seq<Step>, root: Task, others: Table, issued: set<RunnerId>, u: RunnerId)
    requires Leaves(steps, [root] + others, issued) && u !in issued
    requires root.state.Pending? && root == Root().(wave := root.wave)
    requires forall t :: t in others ==> !t.state.Pending?
    ensures Leaves(Opens(steps, u), [WaitingRoot(u, 1 + |others|)] + others + [Kid()], issued + {u})
  {
    RootStarted(steps, root, others, issued, u);
    WaveSpawned(steps + [ClaimOne(u)] + [Row(Start(u), 0)], Assign(root, 0, u).(state := Running), others,
                issued + {u});
  }

  lemma Settled(steps: seq<Step>, root: Task, others: Table, issued: set<RunnerId>, u: RunnerId, op: RowOp, t: Task)
    requires Leaves(steps, [root] + others + [Kid()], issued) && u !in issued && root.state.Waiting?
    requires forall o :: o in others ==> o.state.Failed?
    requires Effect(op, Assign(Kid(), 0, u).(state := Running)) == Some(t)
    ensures Leaves(steps + [ClaimOne(u)] + [Row(Start(u), 1 + |others|)] + [Row(op, 1 + |others|)],
                   [root] + others + [t], issued + {u})
  {
    var rows, i := [root] + others + [Kid()], 1 + |others|;
    assert rows[i] == Kid() && Eligible(rows, AnyQuery(), i);
    assert forall j :: 0 < j < i ==> rows[j] in others;
    ClaimedAndStarted(steps, rows, issued, i, u);
    var r := Assign(Kid(), 0, u).(state := Running);
    assert rows[i := r] == [root] + others + [r];
    Wrote(steps + [ClaimOne(u)] + [Row(Start(u), i)], [root] + others + [r], issued + {u}, op, i);
    assert ([root] + others + [r])[i := t] == [root] + others + [t];
  }

  lemma FirstWave()
    ensures Leaves(Opens(Born(), 1), [WaitingRoot(1, 1), Kid()], {1})
  {
    BornPending();
    assert [Root()] == [Root()] + [];
    Opened(Born(), Root(), [], {}, 1);
    assert {} + {1} == {1} && [WaitingRoot(1, 1)] + [] + [Kid()] == [WaitingRoot(1, 1), Kid()];
  }

  lemma FirstExecution()
    ensures Leaves(FailedOnce(), [ToFailed(WaitingRoot(1, 1), 1), DeadChild()], {1, 2})
  {
    FirstWave();
    FirstChildFails(Opens(Born(), 1), WaitingRoot(1, 1));
  }

  lemma OnlyChildSettles(steps: seq<Step>, w: Task, issued: set<RunnerId>, u: RunnerId, op: RowOp, t: Task)
    requires Leaves(steps, [w, Kid()], issued) && u !in issued && w.state.Waiting?
    requires Effect(op, Assign(Kid(), 0, u).(state := Running)) == Some(t)
    ensures Leaves(steps + [ClaimOne(u)] + [Row(Start(u), 1)] + [Row(op, 1)], [w, t], issued + {u})
  {
    assert [w, Kid()] == [w] + [] + [Kid()];
    Settled(steps, w, [], issued, u, op, t);
    assert [w] + [] + [t] == [w, t];
  }

  lemma FirstChildSettles(steps: seq<Step>, w: Task)
    requires Leaves(steps, [w, Kid()], {1}) && w.state.Waiting?
    ensures Leaves(steps + [ClaimOne(2)] + [Row(Start(2), 1)] + [Row(Fails(), 1)], [w, DeadChild()], {1, 2})
  {
    OnlyChildSettles(steps, w, {1}, 2, Fails(), DeadChild());
    assert {1} + {2} == {1, 2};
  }

  lemma FirstChildFails(steps: seq<Step>, w: Task)
    requires Leaves(steps, [w, Kid()], {1}) && w.state.Waiting? && w.parent.None?
    ensures Leaves(Closes(steps, 2, 1, Fails()), [ToFailed(w, 1), DeadChild()], {1, 2})
  {
    FirstChildSettles(steps, w);
    Polled(steps + [ClaimOne(2)] + [Row(Start(2), 1)] + [Row(Fails(), 1)], [w, DeadChild()], {1, 2});
    assert [w, DeadChild()][1..] == [DeadChild()];
  }

  lemma Polled(steps: seq<Step>, rows: Table, issued: set<RunnerId>)
    requires Leaves(steps, rows, issued) && |rows| > 1 && rows[0].state.Waiting? && rows[1] == DeadChild()
    requires forall i :: 0 < i < |rows| ==> !rows[i].state.Active()
    requires rows[0].parent.None?
    ensures Leaves(steps + [PollRoot()], [ToFailed(rows[0], 1)] + rows[1..], issued)
  {
    assert ChildOf(rows, 1, 0);
    CheckedDead(steps, rows, issued, 0, 1);
    assert rows[0 := ToFailed(rows[0], 1)] == [ToFailed(rows[0], 1)] + rows[1..];
  }

  lemma SecondExecution(steps: seq<Step>)
    requires Leaves(steps, [ToFailed(WaitingRoot(1, 1), 1), DeadChild()], {1, 2})
    ensures Leaves(Opens(steps + [ManualRetry(0, None)], 3), [WaitingRoot(3, 2), DeadChild(), Kid()], {1, 2, 3})
  {
    var failed, dead := ToFailed(WaitingRoot(1, 1), 1), DeadChild();
    RetriedByHand(steps, [failed, dead], {1, 2}, 0);
    var root := Reset(failed, None);
    assert [failed, dead][0 := root] == [root] + [dead];
    Opened(steps + [ManualRetry(0, None)], root, [dead], {1, 2}, 3);
    assert {1, 2} + {3} == {1, 2, 3};
    assert [WaitingRoot(3, 2)] + [dead] + [Kid()] == [WaitingRoot(3, 2), dead, Kid()];
  }

  function DoneChild(): Task {
    ToDone(Assign(Kid(), 0, 4), None)
  }

  lemma SecondChildSettles(steps: seq<Step>)
    requires Leaves(steps, [WaitingRoot(3, 2), DeadChild(), Kid()], {1, 2, 3})
    ensures Leaves(steps + [ClaimOne(4)] + [Row(Start(4), 2)] + [Row(ThreadDone(4, None), 2)],
                   [WaitingRoot(3, 2), DeadChild(), DoneChild()], {1, 2, 3, 4})
  {
    var w, dead := WaitingRoot(3, 2), DeadChild();
    assert [w, dead, Kid()] == [w] + [dead] + [Kid()];
    Settled(steps, w, [dead], {1, 2, 3}, 4, ThreadDone(4, None), DoneChild());
    assert {1, 2, 3} + {4} == {1, 2, 3, 4} && [w] + [dead] + [DoneChild()] == [w, dead, DoneChild()];
  }

  lemma SecondChildDone(steps: seq<Step>)
    requires Leaves(steps, [WaitingRoot(3, 2), DeadChild(), Kid()], {1, 2, 3})
    ensures Leaves(Closes(steps, 4, 2, ThreadDone(4, None)),
                   [ToFailed(WaitingRoot(3, 2), 1), DeadChild(), DoneChild()], {1, 2, 3, 4})
  {
    var rows := [WaitingRoot(3, 2), DeadChild(), DoneChild()];
    SecondChildSettles(steps);
    Polled(steps + [ClaimOne(4)] + [Row(Start(4), 2)] + [Row(ThreadDone(4, None), 2)], rows, {1, 2, 3, 4});
    assert rows[1..] == [DeadChild(), DoneChild()];
  }

  /** The second execution's whole wave is done, and the root fails all the same,
      for the child of the first. */
  lemma RetriedRootFails()
    ensures var rows := Reach(RetriedOnce()).rows;
            && |rows| == 3 && rows[0].wave == [2]
            && rows[2].state.Done? && ChildOf(rows, 2, 0)
            && Dead(rows[1]) && ChildOf(rows, 1, 0)
            && rows[0].state.Failed?
  {
    FirstExecution();
    SecondExecution(FailedOnce());
    SecondChildDone(Opens(FailedOnce() + [ManualRetry(0, None)], 3));
  }

  // ---- a late execute() ------------------------------------------------------------------

  function Job(): Task {
    Root().(policy := RetryAny, maxRetries := 1)
  }

  function ForkKid(): Step {
    ForkWave(0, [Kid()], WaveOf(0))
  }

  /** Runner 1 starts the task and its worker is declared dead; the task is requeued,
      claimed and started by runner 2. Both threads are now in execute(). */
  function TwoThreads(): seq<Step> {
    [Create(Job())] + [ClaimOne(1)] + [Row(Start(1), 0)] + [LoseFirst()] + [ClaimOne(2)] + [Row(Start(2), 0)]
  }

  function RunningJob(u: RunnerId, retries: nat): Task {
    Job().(state := Running, worker := Some(0), runner := Some(u), retryCount := retries)
  }

  function WaitingJob(child: TaskId): Task {
    RunningJob(2, 1).(state := Waiting, wave := [child])
  }

  lemma JobCreated()
    ensures Leaves([Create(Job())], [Job()], {})
  {
    Created([], [], {}, Job());
    assert [] + [Create(Job())] == [Create(Job())] && [] + [Job()] == [Job()];
  }

  lemma JobStarted(steps: seq<Step>, issued: set<RunnerId>, u: RunnerId, retries: nat)
    requires Leaves(steps, [Job().(retryCount := retries)], issued) && u !in issued
    ensures Leaves(steps + [ClaimOne(u)] + [Row(Start(u), 0)], [RunningJob(u, retries)], issued + {u})
  {
    var t := Job().(retryCount := retries);
    ClaimedAndStarted(steps, [t], issued, 0, u);
    assert [t][0 := RunningJob(u, retries)] == [RunningJob(u, retries)];
  }

  lemma JobLost(steps: seq<Step>)
    requires Leaves(steps, [RunningJob(1, 0)], {1})
    ensures Leaves(steps + [LoseFirst()], [Job().(retryCount := 1)], {1})
  {
    var r := RunningJob(1, 0);
    Wrote(steps, [r], {1}, LoseFirst().op, 0);
    assert [r][0 := Charged(r, None)] == [Job().(retryCount := 1)];
  }

  lemma TwoThreadsLeave()
    ensures Leaves(TwoThreads(), [RunningJob(2, 1)], {1, 2})
  {
    JobCreated();
    JobStarted([Create(Job())], {}, 1, 0);
    assert {} + {1} == {1} && {1} + {2} == {1, 2};
    JobLost([Create(Job())] + [ClaimOne(1)] + [Row(Start(1), 0)]);
    JobStarted([Create(Job())] + [ClaimOne(1)] + [Row(Start(1), 0)] + [LoseFirst()], {1}, 2, 1);
  }

  lemma ForkedOnce(steps: seq<Step>)
    requires Leaves(steps, [RunningJob(2, 1)], {1, 2})
    ensures Leaves(steps + [ForkKid()], [WaitingJob(1), Kid()], {1, 2})
  {
    assert [RunningJob(2, 1)] == [RunningJob(2, 1)] + [];
    WaveSpawned(steps, RunningJob(2, 1), [], {1, 2});
    assert [WaitingJob(1)] + [] + [Kid()] == [WaitingJob(1), Kid()];
  }

  lemma ForkedTwice(steps: seq<Step>)
    requires Leaves(steps, [RunningJob(2, 1)], {1, 2})
    ensures Leaves(steps + [ForkKid()] + [ForkKid()], [WaitingJob(2), Kid(), Kid()], {1, 2})
  {
    ForkedOnce(steps);
    assert [WaitingJob(1), Kid()] == [WaitingJob(1)] + [Kid()];
    WaveSpawned(steps + [ForkKid()], WaitingJob(1), [Kid()], {1, 2});
    assert [WaitingJob(2)] + [Kid()] + [Kid()] == [WaitingJob(2), Kid(), Kid()];
  }

  /** One phase that spawns one child. */
  function OnePhase(): seq<L.Plan> {
    [L.Kids([Kid()])]
  }

  /** The two executions of one phase, one by each thread. */
  function BothExecute(): seq<L.Event> {
    [L.Execute(OnePhase(), 2), L.Execute(OnePhase(), 1)]
  }

  lemma ExecuteForks(x: L.Exec, u: RunnerId)
    requires Shaped(x.sys) && |x.sys.rows| > 0 && (x.sys.rows[0].state.Running? || x.sys.rows[0].state.Waiting?)
    ensures var x' := L.Executed(x, 0, OnePhase(), u);
            && (x.open || x.sys.rows[0].state.Running? ==> x'.sys == Apply(x.sys, ForkKid()))
            && (x.sys.rows[0].state.Running? ==> x'.open && x'.log == [L.Call(0, None)])
            && (x.open && x.sys.rows[0].state.Waiting? ==> x'.log == x.log + [L.Call(0, None)])
  {
    assert L.FirstWave(OnePhase(), 0) == L.WaveAt(0);
    assert L.Planned(0, 1, None) == [L.Call(0, None)];
  }

  lemma BothPlan(s: Sys)
    requires PH.Begins(s, 0) && s.rows[0].state.Running?
    ensures PH.TypedAll(BothExecute(), 0, 1)
    ensures var x := PH.Lives(s, 0, 1, BothExecute());
            && x.log == [L.Call(0, None), L.Call(0, None)]
            && x.sys == Apply(Apply(s, ForkKid()), ForkKid())
  {
    var es := BothExecute();
    assert FreshKids([Kid()], 0);
    assert es[..2] == es && es[..1] == [es[0]] && es[..0] == [];
    assert PH.Lives(s, 0, 1, es[..1]) == L.Executed(L.Vacant(s), 0, OnePhase(), 2) by {
      assert es[..1][..0] == [];
    }
    ExecuteForks(L.Vacant(s), 2);
    var x1 := L.Executed(L.Vacant(s), 0, OnePhase(), 2);
    OnceForked(s);
    ExecuteForks(x1, 1);
  }

  lemma OnceForked(s: Sys)
    requires Shaped(s) && |s.rows| > 0 && s.rows[0].state.Running?
    ensures Shaped(Apply(s, ForkKid())) && |Apply(s, ForkKid()).rows| > 0
    ensures Apply(s, ForkKid()).rows[0].state.Waiting?
  {
    StepShape(s, ForkKid());
    assert FreshKids([Kid()], 0);
    ForkFrame(s.rows, 0, [Kid()], WaveOf(0));
  }

  /** After runner 2's thread has spawned the wave of phase 0 and parked the root,
      runner 1's thread plans phase 0 again and spawns a second wave: both calls are
      committed, the root forgets the first wave, and nobody will see its results. */
  lemma LateExecuteReplans()
    ensures Leaves(TwoThreads() + [ForkKid()] + [ForkKid()], [WaitingJob(2), Kid(), Kid()], {1, 2})
    ensures PH.Begins(Reach(TwoThreads()), 0) && PH.TypedAll(BothExecute(), 0, 1)
    ensures var x := PH.Lives(Reach(TwoThreads()), 0, 1, BothExecute());
            && x.sys == Reach(TwoThreads() + [ForkKid()] + [ForkKid()])
            && x.log == [L.Call(0, None), L.Call(0, None)]
  {
    TwoThreadsLeave();
    ForkedTwice(TwoThreads());
    BothPlan(Reach(TwoThreads()));
    RunOneMore(TwoThreads(), ForkKid());
    RunOneMore(TwoThreads() + [ForkKid()], ForkKid());
  }

  // ---- a late execute() with nothing to spawn -----------------------------------------

  /** Two phases that each spawn a child. */
  function TwoPhases(): seq<L.Plan> {
    [L.Kids([Kid()]), L.Kids([Kid()])]
  }

  /** The hook of the two-phase pipeline standing past its end. */
  function PollPastEnd(): Step {
    CheckParent(0, {}, L.PipelineHook(TwoPhases(), 2, L.Value(None)), 1)
  }

  function LateEmpty(): seq<Step> {
    TwoThreads() + [ForkKid()] + [ClaimOne(3)] + [Row(Start(3), 1)] + [Row(ThreadDone(3, None), 1)]
      + [ForkWave(0, [], Exhausted(2))] + [PollPastEnd()]
  }

  function FirstKidDone(): Task {
    ToDone(Assign(Kid(), 0, 3), None)
  }

  lemma KidDone(steps: seq<Step>)
    requires Leaves(steps, [WaitingJob(1), Kid()], {1, 2})
    ensures Leaves(steps + [ClaimOne(3)] + [Row(Start(3), 1)] + [Row(ThreadDone(3, None), 1)],
                   [WaitingJob(1), FirstKidDone()], {1, 2, 3})
  {
    OnlyChildSettles(steps, WaitingJob(1), {1, 2}, 3, ThreadDone(3, None), FirstKidDone());
    assert {1, 2} + {3} == {1, 2, 3};
  }

  lemma MarkedExhausted(steps: seq<Step>)
    requires Leaves(steps, [WaitingJob(1), FirstKidDone()], {1, 2, 3})
    ensures Leaves(steps + [ForkWave(0, [], Exhausted(2))],
                   [WaitingJob(1).(phase := 2), FirstKidDone()], {1, 2, 3})
  {
    var rows := [WaitingJob(1), FirstKidDone()];
    Forked(steps, rows, {1, 2, 3}, 0, [], Exhausted(2));
    assert rows + [] == rows;
    assert rows[0 := WaitingJob(1).(phase := 2)] == [WaitingJob(1).(phase := 2), FirstKidDone()];
  }

  lemma PolledPastEnd(steps: seq<Step>)
    requires Leaves(steps, [WaitingJob(1).(phase := 2), FirstKidDone()], {1, 2, 3})
    ensures Leaves(steps + [PollPastEnd()], [ToDone(WaitingJob(1).(phase := 3), None), FirstKidDone()], {1, 2, 3})
  {
    var w, d := WaitingJob(1).(phase := 2), FirstKidDone();
    RunOneMore(steps, PollPastEnd());
    assert ChildOf([w, d], 1, 0);
    assert [w, d] + [] == [w, d];
    assert Check([w, d], {}, 0, PollPastEnd().hook, 1) == [w, d][0 := ToDone(w.(phase := 3), None)];
  }

  /** The root of a two-phase pipeline is done with one child in all: the second phase
      had a child to spawn and never got its turn. */
  lemma LateEmptySkipsPhase()
    ensures Leaves(LateEmpty(), [ToDone(WaitingJob(1).(phase := 3), None), FirstKidDone()], {1, 2, 3})
    ensures TwoPhases()[1].kids != []
  {
    TwoThreadsLeave();
    var s1 := TwoThreads() + [ForkKid()];
    ForkedOnce(TwoThreads());
    KidDone(s1);
    LateEmptyEnds(s1 + [ClaimOne(3)] + [Row(Start(3), 1)] + [Row(ThreadDone(3, None), 1)]);
  }

  lemma LateEmptyEnds(steps: seq<Step>)
    requires Leaves(steps, [WaitingJob(1), FirstKidDone()], {1, 2, 3})
    ensures Leaves(steps + [ForkWave(0, [], Exhausted(2))] + [PollPastEnd()],
                   [ToDone(WaitingJob(1).(phase := 3), None), FirstKidDone()], {1, 2, 3})
  {
    MarkedExhausted(steps);
    PolledPastEnd(steps + [ForkWave(0, [], Exhausted(2))]);
  }
}
