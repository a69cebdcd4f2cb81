/** What the protocol guarantees about whole runs, stated on the steps of the
    run rather than on its bookkeeping. */
module Guarantees {
  import opened Optional
  import opened TaskModel
  import opened TaskOrder
  import opened Claiming
  import opened Progress
  import opened WaitingParent
  import opened Protocol

  // ---- one outcome per claim ---------------------------------------------

  /** Step k of the run is a final write, of a thread that returned or raised or of a
      recovery, that was accepted while the row carried runner r. */
  ghost predicate Accepted(steps: seq<Step>, k: nat, r: RunnerId)
    requires k < |steps|
  {
    var s, step := At(steps, k), steps[k];
    && step.Row? && (step.op.ThreadDone? || step.op.ThreadRaised? || step.op.Lost?) && Enabled(s, step)
    && s.rows[step.id].runner == Some(r)
  }

  /** How often r had been spent before each step of the run. */
  ghost function SpentCounts(steps: seq<Step>, r: RunnerId): (c: seq<nat>)
    ensures |c| == |steps| + 1 && forall k :: 0 <= k <= |steps| ==> c[k] == At(steps, k).hist.consumed[r]
  {
    seq(|steps| + 1, k requires 0 <= k <= |steps| => At(steps, k).hist.consumed[r])
  }

  /** How often r had been begun before each step of the run. */
  ghost function BegunCounts(steps: seq<Step>, r: RunnerId): (c: seq<nat>)
    ensures |c| == |steps| + 1 && forall k :: 0 <= k <= |steps| ==> c[k] == At(steps, k).hist.begun[r]
  {
    seq(|steps| + 1, k requires 0 <= k <= |steps| => At(steps, k).hist.begun[r])
  }

  lemma NextUses(steps: seq<Step>, k: nat, r: RunnerId)
    requires k < |steps|
    ensures At(steps, k).hist.consumed[r] <= At(steps, k + 1).hist.consumed[r]
    ensures At(steps, k).hist.begun[r] <= At(steps, k + 1).hist.begun[r]
  {
    NextAt(steps, k);
  }

  lemma SpentStays(steps: seq<Step>, a: nat, b: nat, r: RunnerId)
    requires a <= b <= |steps|
    ensures At(steps, a).hist.consumed[r] <= At(steps, b).hist.consumed[r]
  {
    var counts := SpentCounts(steps, r);
    forall k | 0 <= k < |counts| - 1 ensures RisesAt(counts, k) { NextUses(steps, k, r); }
    NeverFalls(counts, a, b);
  }

  lemma FinalSpends(s: Sys, op: RowOp, id: TaskId, r: RunnerId)
    requires Shaped(s) && Owned(s) && Enabled(s, Row(op, id)) && Final(op) && s.rows[id].runner == Some(r)
    ensures s.hist.consumed[r] == 0 && Apply(s, Row(op, id)).hist.consumed[r] == 1
  {
    RowWrote(s, op, id);
    assert RunnerOk(s.rows[id], s.hist);
  }

  lemma AcceptedSpends(steps: seq<Step>, k: nat, r: RunnerId)
    requires k < |steps| && Accepted(steps, k, r)
    ensures At(steps, k).hist.consumed[r] == 0 && At(steps, k + 1).hist.consumed[r] == 1
  {
    NextAt(steps, k);
    ReachInv(steps[..k]);
    FinalSpends(At(steps, k), steps[k].op, steps[k].id, r);
  }

  /** In every run each claim has at most one accepted outcome: of all the done,
      fail, auto-retry and recovery writes under one runner id, at most one is
      accepted, whoever issues them and whenever they arrive. */
  lemma OneOutcomePerClaim(steps: seq<Step>, i: nat, j: nat, r: RunnerId)
    requires i < |steps| && j < |steps|
    requires Accepted(steps, i, r) && Accepted(steps, j, r)
    ensures i == j
  {
    AcceptedSpends(steps, i, r);
    AcceptedSpends(steps, j, r);
    if i < j { SpentStays(steps, i + 1, j, r); }
    if j < i { SpentStays(steps, j + 1, i, r); }
  }

  /** Once a claim has its outcome no row in flight carries its runner id again. */
  lemma SpentRunnerNeverReturns(steps: seq<Step>, k: nat, r: RunnerId, i: TaskId)
    requires k < |steps| && Accepted(steps, k, r)
    requires i < |Reach(steps).rows| && Reach(steps).rows[i].state.InFlight()
    ensures Reach(steps).rows[i].runner != Some(r)
  {
    AcceptedSpends(steps, k, r);
    SpentStays(steps, k + 1, |steps|, r);
    assert steps[..|steps|] == steps;
    ReachInv(steps);
    assert RunnerOk(Reach(steps).rows[i], Reach(steps).hist);
  }

  /** The claim of runner r is over: r was issued, and no row in flight carries it.
      Its row may have been finished, recovered, parked or cancelled. */
  ghost predicate Over(s: Sys, r: RunnerId) {
    r in s.hist.issued && forall i :: 0 <= i < |s.rows| && s.rows[i].state.InFlight() ==> s.rows[i].runner != Some(r)
  }

  lemma OverStays(s: Sys, step: Step, r: RunnerId)
    requires Shaped(s) && Over(s, r)
    ensures Over(Apply(s, step), r)
  {
    StepShape(s, step);
    var s' := Apply(s, step);
    forall i: TaskId | i < |s'.rows| && s'.rows[i].state.InFlight() ensures s'.rows[i].runner != Some(r) {
      if Enabled(s, step) {
        if step.ClaimTasks? {
          ClaimRow(s.rows, step.q, step.locked, step.uuids, i);
        } else {
          StayInFlight(s, step, i);
        }
      }
    }
  }

  lemma {:induction false} OverForGood(steps: seq<Step>, k: nat, r: RunnerId)
    requires k <= |steps| && Over(At(steps, k), r)
    ensures Over(Reach(steps), r)
    decreases |steps|
  {
    assert steps[..|steps|] == steps;
    if k < |steps| {
      var before := steps[..|steps| - 1];
      assert before[..k] == steps[..k];
      OverForGood(before, k, r);
      OverStays(Reach(before), steps[|steps| - 1], r);
    }
  }

  lemma AcceptedEnds(steps: seq<Step>, k: nat, r: RunnerId)
    requires k < |steps| && Accepted(steps, k, r)
    ensures Over(At(steps, k + 1), r)
  {
    NextAt(steps, k);
    ReachInv(steps[..k + 1]);
    AcceptedSpends(steps, k, r);
    var s := At(steps, k + 1);
    assert r in s.hist.consumed;
    forall i | 0 <= i < |s.rows| && s.rows[i].state.InFlight() ensures s.rows[i].runner != Some(r) {
      assert RunnerOk(s.rows[i], s.hist);
    }
  }

  /** So a zombie is harmless: from the moment a claim is over, whether it was
      finished, recovered, parked or cancelled, a write presenting its runner id
      changes nothing, on any row. */
  lemma ZombieWriteDropped(steps: seq<Step>, k: nat, r: RunnerId, op: RowOp, id: TaskId)
    requires k <= |steps| && Presented(op) == Some(r)
    requires Over(At(steps, k), r) || (k < |steps| && Accepted(steps, k, r))
    ensures Apply(Reach(steps), Row(op, id)) == Reach(steps)
  {
    if Over(At(steps, k), r) {
      OverForGood(steps, k, r);
    } else {
      AcceptedEnds(steps, k, r);
      OverForGood(steps, k + 1, r);
    }
  }

  /** The guard is exact: the writes presenting an issued runner id are all dropped
      exactly when its claim is over. */
  lemma DroppedIffOver(s: Sys, r: RunnerId)
    requires r in s.hist.issued
    ensures (forall op, id :: Presented(op) == Some(r) ==> !Enabled(s, Row(op, id))) <==> Over(s, r)
  {
    if i: TaskId :| i < |s.rows| && s.rows[i].state.InFlight() && s.rows[i].runner == Some(r) {
      var op := Lost(Some(r), None, None, 0);
      assert Presented(op) == Some(r) && Enabled(s, Row(op, i));
    }
  }

  // ---- one start per claim ---------------------------------------------------

  /** Step k is an accepted action_start of a row carrying runner r. */
  ghost predicate Started(steps: seq<Step>, k: nat, r: RunnerId)
    requires k < |steps|
  {
    var s, step := At(steps, k), steps[k];
    step.Row? && step.op.Start? && Enabled(s, step) && s.rows[step.id].runner == Some(r)
  }

  lemma BegunStays(steps: seq<Step>, a: nat, b: nat, r: RunnerId)
    requires a <= b <= |steps|
    ensures At(steps, a).hist.begun[r] <= At(steps, b).hist.begun[r]
  {
    var counts := BegunCounts(steps, r);
    forall k | 0 <= k < |counts| - 1 ensures RisesAt(counts, k) { NextUses(steps, k, r); }
    NeverFalls(counts, a, b);
  }

  lemma StartBegins(steps: seq<Step>, k: nat, r: RunnerId)
    requires k < |steps| && Started(steps, k, r)
    ensures At(steps, k).hist.begun[r] == 0 && At(steps, k + 1).hist.begun[r] == 1
  {
    NextAt(steps, k);
    ReachInv(steps[..k]);
    assert RunnerOk(At(steps, k).rows[steps[k].id], At(steps, k).hist);
  }

  /** In every run each claim is started at most once, whichever threads try. */
  lemma OneStartPerClaim(steps: seq<Step>, i: nat, j: nat, r: RunnerId)
    requires i < |steps| && j < |steps| && Started(steps, i, r) && Started(steps, j, r)
    ensures i == j
  {
    StartBegins(steps, i, r);
    StartBegins(steps, j, r);
    if i < j { BegunStays(steps, i + 1, j, r); }
    if j < i { BegunStays(steps, j + 1, i, r); }
  }

  /** Step k claims row id. */
  ghost predicate Claims(steps: seq<Step>, k: nat, id: TaskId)
    requires k < |steps|
  {
    var s, step := At(steps, k), steps[k];
    step.ClaimTasks? && Enabled(s, step) && id in Picked(s.rows, step.q, step.locked)
  }

  /** Step k claims row id under runner r. */
  ghost predicate ClaimsAs(steps: seq<Step>, k: nat, id: TaskId, r: RunnerId)
    requires k < |steps|
  {
    Claims(steps, k, id) && id < |At(steps, k + 1).rows| && At(steps, k + 1).rows[id].runner == Some(r)
  }

  lemma ClaimIssues(steps: seq<Step>, k: nat, id: TaskId)
    requires k < |steps| && Claims(steps, k, id)
    ensures id < |At(steps, k).rows| && id < |At(steps, k + 1).rows|
    ensures At(steps, k + 1).rows[id].runner.Some?
    ensures At(steps, k + 1).rows[id].runner.value !in At(steps, k).hist.issued
    ensures At(steps, k + 1).rows[id].runner.value in At(steps, k + 1).hist.issued
  {
    NextAt(steps, k);
    var s, step := At(steps, k), steps[k];
    ClaimRow(s.rows, step.q, step.locked, step.uuids, id);
    assert forall l :: 0 <= l < |step.uuids| ==> step.uuids[l] in step.uuids;
  }

  /** A runner id once issued is not put on a row by any later step. */
  lemma NotReissued(s: Sys, step: Step, id: TaskId, r: RunnerId)
    requires Shaped(s) && r in s.hist.issued && id < |s.rows|
    ensures id < |Apply(s, step).rows| && r in Apply(s, step).hist.issued
    ensures Apply(s, step).rows[id].runner == Some(r) ==> s.rows[id].runner == Some(r)
  {
    StepShape(s, step);
    if Enabled(s, step) {
      match step
      case ClaimTasks(q, locked, uuids) => ClaimIssuesAfresh(s, q, locked, uuids, id, r);
      case CheckParent(p, busy, hook, reason) => CheckFrame(s.rows, busy, p, hook, reason);
      case ForkWave(p, kids, mark) => ForkFrame(s.rows, p, kids, mark);
      case Report(p, value, busy, types) => UpdateFrame(s.rows, busy, types, p, value);
      case _ =>
    }
  }

  lemma ClaimIssuesAfresh(s: Sys, q: Query, locked: set<TaskId>, uuids: seq<RunnerId>, id: TaskId, r: RunnerId)
    requires Shaped(s) && r in s.hist.issued && id < |s.rows| && Enabled(s, ClaimTasks(q, locked, uuids))
    ensures var rows' := Rows(s, ClaimTasks(q, locked, uuids));
            id < |rows'| && (rows'[id].runner == Some(r) ==> s.rows[id].runner == Some(r))
  {
    ClaimRow(s.rows, q, locked, uuids, id);
    assert forall l :: 0 <= l < |uuids| ==> uuids[l] in uuids;
  }

  /** The steps of the run that claim row id. */
  ghost function ClaimFlags(steps: seq<Step>, id: TaskId): (r: seq<bool>)
    ensures |r| == |steps| && forall j :: 0 <= j < |steps| ==> r[j] == Claims(steps, j, id)
  {
    seq(|steps|, j requires 0 <= j < |steps| => Claims(steps, j, id))
  }

  predicate AnyAfter(flags: seq<bool>, k: nat) {
    exists j :: k < j < |flags| && flags[j]
  }

  /** A step after k claims row id. */
  ghost predicate Reclaimed(steps: seq<Step>, k: nat, id: TaskId) {
    AnyAfter(ClaimFlags(steps, id), k)
  }

  lemma SameFlag(steps: seq<Step>, j: nat, id: TaskId)
    requires j < |steps| - 1
    ensures Claims(steps[..|steps| - 1], j, id) == Claims(steps, j, id)
  {
    assert steps[..|steps| - 1][..j] == steps[..j];
  }

  lemma FlagsOneMore(steps: seq<Step>, id: TaskId)
    requires |steps| > 0
    ensures ClaimFlags(steps, id) == ClaimFlags(steps[..|steps| - 1], id) + [Claims(steps, |steps| - 1, id)]
  {
    var a, b := ClaimFlags(steps[..|steps| - 1], id), ClaimFlags(steps, id);
    forall j | 0 <= j < |a| ensures a[j] == b[j] { SameFlag(steps, j, id); }
  }

  lemma ReclaimedOneMore(steps: seq<Step>, k: nat, id: TaskId)
    requires k + 1 < |steps|
    ensures Reclaimed(steps, k, id) <==> Reclaimed(steps[..|steps| - 1], k, id) || Claims(steps, |steps| - 1, id)
  {
    FlagsOneMore(steps, id);
    OneFlagMore(ClaimFlags(steps[..|steps| - 1], id), Claims(steps, |steps| - 1, id), k);
  }

  lemma OneFlagMore(a: seq<bool>, last: bool, k: nat)
    requires k < |a|
    ensures AnyAfter(a + [last], k) <==> AnyAfter(a, k) || last
  {
    var b := a + [last];
    if j :| k < j < |a| && a[j] { assert b[j]; }
    if last { assert b[|a|]; }
  }

  /** A row carries the runner of the claim at step k only while no later claim has
      taken it, and then as long as it is in flight. */
  lemma {:induction false} RunnerIsLastClaim(steps: seq<Step>, k: nat, id: TaskId, r: RunnerId)
    requires k < |steps| && ClaimsAs(steps, k, id, r)
    ensures id < |Reach(steps).rows| && r in Reach(steps).hist.issued
    ensures Reclaimed(steps, k, id) ==> Reach(steps).rows[id].runner != Some(r)
    ensures !Reclaimed(steps, k, id) && Reach(steps).rows[id].state.InFlight() ==>
              Reach(steps).rows[id].runner == Some(r)
    decreases |steps|
  {
    if k + 1 == |steps| {
      assert steps[..k + 1] == steps;
      ClaimIssues(steps, k, id);
    } else {
      SameClaim(steps, k, id, r);
      RunnerIsLastClaim(steps[..|steps| - 1], k, id, r);
      ReclaimedOneMore(steps, k, id);
      LastClaimStep(steps, id, r);
    }
  }

  lemma SameClaim(steps: seq<Step>, k: nat, id: TaskId, r: RunnerId)
    requires k + 1 < |steps| && ClaimsAs(steps, k, id, r)
    ensures ClaimsAs(steps[..|steps| - 1], k, id, r)
  {
    var before := steps[..|steps| - 1];
    assert before[..k] == steps[..k] && before[..k + 1] == steps[..k + 1];
  }

  /** What the last step of a run does to the runner of one row. */
  lemma LastClaimStep(steps: seq<Step>, id: TaskId, r: RunnerId)
    requires |steps| > 0
    requires var s := Reach(steps[..|steps| - 1]); id < |s.rows| && r in s.hist.issued
    ensures var s, s' := Reach(steps[..|steps| - 1]), Reach(steps);
            && id < |s'.rows| && r in s'.hist.issued
            && (s'.rows[id].runner == Some(r) ==> s.rows[id].runner == Some(r))
            && (Claims(steps, |steps| - 1, id) ==> s'.rows[id].runner != Some(r))
            && (!Claims(steps, |steps| - 1, id) && s'.rows[id].state.InFlight() ==>
                  s.rows[id].state.InFlight() && s'.rows[id].runner == s.rows[id].runner)
  {
    var s, step, k := Reach(steps[..|steps| - 1]), steps[|steps| - 1], |steps| - 1;
    assert steps[..k] == steps[..|steps| - 1] && steps[..|steps|] == steps;
    NotReissued(s, step, id, r);
    if Claims(steps, k, id) {
      ClaimIssues(steps, k, id);
    } else if Enabled(s, step) {
      if step.ClaimTasks? {
        ClaimRow(s.rows, step.q, step.locked, step.uuids, id);
      } else if Reach(steps).rows[id].state.InFlight() {
        StayInFlight(s, step, id);
      }
    }
  }

  /** action_start checks no runner. A start by the thread of the claim at step k is
      accepted for that claim exactly when no later claim has taken the row; in
      every other accepted case it starts the execution of a later claim. */
  lemma StartIsOwnClaimIff(steps: seq<Step>, k: nat, id: TaskId, r: RunnerId)
    requires k < |steps|
    ensures ClaimsAs(steps, k, id, r) && Enabled(Reach(steps), Row(Start(r), id)) ==>
              (Reach(steps).rows[id].runner == Some(r) <==> !Reclaimed(steps, k, id))
  {
    if ClaimsAs(steps, k, id, r) { RunnerIsLastClaim(steps, k, id, r); }
  }

  // ---- executions -----------------------------------------------------------

  ghost predicate StartsTask(s: Sys, step: Step, id: TaskId)
    requires Shaped(s)
  {
    step.Row? && step.op.Start? && step.id == id && Enabled(s, step)
  }

  ghost predicate RetriesByHand(s: Sys, step: Step, id: TaskId)
    requires Shaped(s)
  {
    step.ManualRetry? && step.id == id && Enabled(s, step)
  }

  /** Accepted action_start transactions on a task. */
  ghost function Starts(steps: seq<Step>, id: TaskId): nat
    decreases |steps|
  {
    if steps == [] then 0
    else
      var before := steps[..|steps| - 1];
      Starts(before, id) + if StartsTask(Reach(before), steps[|steps| - 1], id) then 1 else 0
  }

  /** Accepted manual retries of a task. */
  ghost function HandRetries(steps: seq<Step>, id: TaskId): nat
    decreases |steps|
  {
    if steps == [] then 0
    else
      var before := steps[..|steps| - 1];
      HandRetries(before, id) + if RetriesByHand(Reach(before), steps[|steps| - 1], id) then 1 else 0
  }

  lemma RecordCounts(s: Sys, step: Step, id: TaskId)
    requires Shaped(s) && Enabled(s, step) && id < |s.rows| <= |Rows(s, step)|
    ensures var h := Record(s, step);
            && id < |h.starts| && id < |h.manual|
            && h.starts[id] == s.hist.starts[id] + (if StartsTask(s, step, id) then 1 else 0)
            && h.manual[id] == s.hist.manual[id] + (if RetriesByHand(s, step, id) then 1 else 0)
  {
  }

  lemma StepCounts(s: Sys, step: Step, id: TaskId)
    requires Shaped(s) && id < |s.rows|
    ensures Shaped(Apply(s, step)) && id < |Apply(s, step).rows|
    ensures Apply(s, step).hist.starts[id] == s.hist.starts[id] + if StartsTask(s, step, id) then 1 else 0
    ensures Apply(s, step).hist.manual[id] == s.hist.manual[id] + if RetriesByHand(s, step, id) then 1 else 0
  {
    StepShape(s, step);
    if Enabled(s, step) { RecordCounts(s, step, id); }
  }

  lemma {:induction false} HistoryCounts(steps: seq<Step>, id: TaskId)
    ensures var s := Reach(steps);
            if id < |s.rows| then s.hist.starts[id] == Starts(steps, id) && s.hist.manual[id] == HandRetries(steps, id)
            else Starts(steps, id) == 0 && HandRetries(steps, id) == 0
    decreases |steps|
  {
    if steps != [] {
      var s, step := Reach(steps[..|steps| - 1]), steps[|steps| - 1];
      HistoryCounts(steps[..|steps| - 1], id);
      if id < |s.rows| {
        StepCounts(s, step, id);
      } else if id < |Reach(steps).rows| {
        NewRow(s, step, id);
      }
    }
  }

  /** Conservation: a task is started once for its creation, once per charged
      automatic retry and once per manual retry, except for the start still owed
      to a pending or assigned row; cancellation may forgo an owed start. */
  lemma ExecutionsConserved(steps: seq<Step>, id: TaskId)
    requires id < |Reach(steps).rows|
    ensures var t := Reach(steps).rows[id];
            var due := Starts(steps, id) + if t.state.Pending? || t.state.Assigned? then 1 else 0;
            var paid := 1 + t.retryCount + HandRetries(steps, id);
            && due <= paid
            && (!t.state.Cancelled? ==> due == paid)
  {
    HistoryCounts(steps, id);
    ReachInv(steps);
    assert Balanced(Reach(steps).rows[id], Reach(steps).hist.starts[id], Reach(steps).hist.manual[id]);
  }

  /** An edit at step k leaves the task's max_retries as it stands. */
  ghost predicate KeepsLimitAt(steps: seq<Step>, k: nat, id: TaskId)
    requires k < |steps|
  {
    (steps[k].Edit? && steps[k].id == id && id < |At(steps, k).rows|) ==>
      steps[k].maxRetries == At(steps, k).rows[id].maxRetries
  }

  ghost predicate KeepsLimit(steps: seq<Step>, id: TaskId) {
    forall k :: 0 <= k < |steps| ==> KeepsLimitAt(steps, k, id)
  }

  lemma SameLimit(steps: seq<Step>, id: TaskId)
    requires steps != [] && KeepsLimit(steps, id)
    ensures KeepsLimit(steps[..|steps| - 1], id)
  {
    var before := steps[..|steps| - 1];
    forall k | 0 <= k < |before| ensures KeepsLimitAt(before, k, id) {
      assert before[..k] == steps[..k] && KeepsLimitAt(steps, k, id);
    }
  }

  lemma {:induction false} CapFixed(steps: seq<Step>, id: TaskId)
    requires KeepsLimit(steps, id) && id < |Reach(steps).rows|
    ensures Reach(steps).hist.cap[id] == Floor(Reach(steps).rows[id].maxRetries)
    decreases |steps|
  {
    if steps != [] {
      var before := steps[..|steps| - 1];
      var s, step := Reach(before), steps[|steps| - 1];
      StepShape(s, step);
      if id < |s.rows| {
        SameLimit(steps, id);
        CapFixed(before, id);
        assert KeepsLimitAt(steps, |before|, id);
        ReachInv(before);
        SameMax(s, step, id);
      } else {
        NewRow(s, step, id);
      }
    }
  }

  lemma SameMax(s: Sys, step: Step, i: TaskId)
    requires Shaped(s) && i < |s.rows| && (step.Edit? && step.id == i ==> step.maxRetries == s.rows[i].maxRetries)
    requires Within(s.rows[i], s.hist.cap[i])
    ensures Shaped(Apply(s, step)) && i < |Apply(s, step).rows|
    ensures Apply(s, step).rows[i].maxRetries == s.rows[i].maxRetries
    ensures Apply(s, step).hist.cap[i] == s.hist.cap[i]
  {
    StepShape(s, step);
    if Enabled(s, step) {
      match step
      case ClaimTasks(q, locked, uuids) => ClaimRow(s.rows, q, locked, uuids, i);
      case CheckParent(id, busy, hook, reason) => CheckFrame(s.rows, busy, id, hook, reason);
      case ForkWave(id, kids, mark) => ForkFrame(s.rows, id, kids, mark);
      case Report(id, value, busy, types) => UpdateFrame(s.rows, busy, types, id, value);
      case _ =>
    }
  }

  /** After k steps the row existed and allowed this many retries. */
  ghost predicate AllowedOnce(steps: seq<Step>, k: nat, id: TaskId, retries: nat)
    requires k <= |steps|
  {
    id < |Reach(steps[..k]).rows| && retries <= Floor(Reach(steps[..k]).rows[id].maxRetries)
  }

  /** However max_retries is edited, retry_count never passes the largest value it had
      at some moment of the run. */
  lemma {:induction false} RetriesWereAllowed(steps: seq<Step>, id: TaskId)
    requires id < |Reach(steps).rows|
    ensures exists k :: 0 <= k <= |steps| && AllowedOnce(steps, k, id, Reach(steps).rows[id].retryCount)
    decreases |steps|
  {
    assert steps[..|steps|] == steps;
    if steps != [] {
      var last := |steps| - 1;
      var s, retries := Reach(steps[..last]), Reach(steps).rows[id].retryCount;
      if id >= |s.rows| {
        NewRow(s, steps[last], id);
        assert AllowedOnce(steps, |steps|, id, retries);
      } else {
        RetriesStep(s, steps[last], id);
        if retries == s.rows[id].retryCount {
          RetriesWereAllowed(steps[..last], id);
          var k :| 0 <= k <= last && AllowedOnce(steps[..last], k, id, retries);
          AllowedStill(steps, k, id, retries);
        } else {
          assert AllowedOnce(steps, last, id, retries);
        }
      }
    }
  }

  lemma RetriesStep(s: Sys, step: Step, id: TaskId)
    requires Shaped(s) && id < |s.rows|
    ensures id < |Apply(s, step).rows|
    ensures var t, t' := s.rows[id], Apply(s, step).rows[id];
            t'.retryCount == t.retryCount || (t'.retryCount == t.retryCount + 1 && t.retryCount < t.maxRetries)
  {
    StepShape(s, step);
    if Enabled(s, step) { RowLimits(s, step, id); }
  }

  lemma AllowedStill(steps: seq<Step>, k: nat, id: TaskId, retries: nat)
    requires k < |steps| && AllowedOnce(steps[..|steps| - 1], k, id, retries)
    ensures AllowedOnce(steps, k, id, retries)
  {
    assert steps[..|steps| - 1][..k] == steps[..k];
  }


  /** However often workers crash, a task starts at most 1 + max_retries times
      plus once per manual retry, and its retry count never passes max_retries. */
  lemma BoundedExecutions(steps: seq<Step>, id: TaskId)
    requires KeepsLimit(steps, id) && id < |Reach(steps).rows|
    ensures var t := Reach(steps).rows[id];
            && t.retryCount <= Floor(t.maxRetries)
            && Starts(steps, id) <= 1 + Floor(t.maxRetries) + HandRetries(steps, id)
  {
    ReachInv(steps);
    CapFixed(steps, id);
    ExecutionsConserved(steps, id);
    assert Within(Reach(steps).rows[id], Reach(steps).hist.cap[id]);
  }

  // ---- singleton types --------------------------------------------------------

  /** With claims as serial steps that all enforce the singleton clauses, no two
      rows of a singleton type are ever in flight together. */
  lemma {:induction false} SingletonExclusion(steps: seq<Step>, singles: set<string>)
    requires forall k :: 0 <= k < |steps| ==> Guards(steps[k], singles)
    ensures Exclusive(Reach(steps).rows, singles)
    decreases |steps|
  {
    if steps != [] {
      var before := steps[..|steps| - 1];
      assert forall k :: 0 <= k < |before| ==> before[k] == steps[k];
      SingletonExclusion(before, singles);
      StepExcludes(Reach(before), steps[|steps| - 1], singles);
    }
  }

  function Plain(code: string, priority: int): Task {
    Task(code, "default", priority, 0, None, Pending, None, None, NoRetry, 0, 0, None, None, 0, [], None, None, 0)
  }

  /** Serial claims are needed. Two claims with overlapping snapshots, where a
      more urgent row of the type is created in between, take one row each: the
      first has locked row 0 and not committed, the second still sees it pending
      but finds row 1 canonical. Claiming.OverlapSafeIff says exactly when. */
  lemma OverlappingClaimsBreakSingleton(u: RunnerId, v: RunnerId)
    ensures var a, b := Plain("single", 5), Plain("single", 1);
            var q := Query(0, {"default"}, {}, {"single"}, 0, 1);
            && Picked([a], q, {}) == [0]
            && !AtMostOne(BothClaimed([a, b], q, {0}, [v], 0, 0, u), "single")
  {
    var a, b := Plain("single", 5), Plain("single", 1);
    var q := Query(0, {"default"}, {}, {"single"}, 0, 1);
    assert Eligible([a], q, 0);
    assert Eligible([a, b], q, 1);
    assert Candidates([a], q, {}) == {0};
    assert Candidates([a, b], q, {0}) == {1};
    ClaimCount([a], q, {});
    assert Picked([a], q, {})[0] in Candidates([a], q, {});
    assert Ahead([a, b], {1}, 1) == {};
    assert Overtakes([a, b], q, {0}, 0, 1);
    OverlapSafeIff([a, b], q, {0}, [v], 0, 0, u);
  }

  // ---- children that failed for good ------------------------------------------------

  /** The accepted steps that give a child that failed for good another chance, or
      give up on it. */
  ghost predicate Frees(s: Sys, step: Step, c: TaskId)
    requires Shaped(s) && c < |s.rows|
  {
    && Enabled(s, step)
    && match step
       case ManualRetry(id, _) => id == c
       case CancelTask(id) => id == c
       case Edit(id, _, _, _, policy, maxRetries) => id == c && policy.RetryAny? && s.rows[c].retryCount < maxRetries
       case _ => false
  }

  /** Nothing else ever does. */
  lemma DeadUntilFreed(s: Sys, step: Step, c: TaskId)
    requires Shaped(s) && c < |s.rows| && Dead(s.rows[c])
    ensures c < |Apply(s, step).rows| && (Dead(Apply(s, step).rows[c]) <==> !Frees(s, step, c))
  {
    StepShape(s, step);
    if Enabled(s, step) { DeadRow(s, step, c); }
  }

  /** Claims, checks, waves and progress reports leave a failed row failed, with its
      retry settings; at most a late execute() marks its pipeline exhausted. */
  lemma BystanderStays(s: Sys, step: Step, c: TaskId)
    requires Shaped(s) && Enabled(s, step) && c < |s.rows| && s.rows[c].state.Failed?
    requires step.ClaimTasks? || step.CheckParent? || step.ForkWave? || step.Report?
    ensures c < |Rows(s, step)|
    ensures var t' := Rows(s, step)[c];
            t' == s.rows[c].(progress := t'.progress, phase := t'.phase, wave := t'.wave)
  {
    match step
    case ClaimTasks(q, locked, uuids) => ClaimRow(s.rows, q, locked, uuids, c);
    case CheckParent(id, busy, hook, reason) => CheckFrame(s.rows, busy, id, hook, reason);
    case ForkWave(id, kids, mark) => ForkFrame(s.rows, id, kids, mark);
    case Report(id, value, busy, types) => UpdateFrame(s.rows, busy, types, id, value);
  }

  lemma DeadRow(s: Sys, step: Step, c: TaskId)
    requires Shaped(s) && Enabled(s, step) && c < |s.rows| <= |Rows(s, step)| && Dead(s.rows[c])
    ensures Dead(Rows(s, step)[c]) <==> !Frees(s, step, c)
  {
    if step.ClaimTasks? || step.CheckParent? || step.ForkWave? || step.Report? { BystanderStays(s, step, c); }
  }

  ghost predicate FreesAt(steps: seq<Step>, j: nat, c: TaskId)
    requires j < |steps|
  {
    c < |At(steps, j).rows| && Frees(At(steps, j), steps[j], c)
  }

  lemma {:induction false} DeadThroughout(steps: seq<Step>, i: nat, k: nat, c: TaskId)
    requires i <= k <= |steps| && c < |At(steps, i).rows| && Dead(At(steps, i).rows[c])
    requires forall j :: i <= j < k ==> !FreesAt(steps, j, c)
    ensures c < |At(steps, k).rows| && Dead(At(steps, k).rows[c])
    ensures At(steps, k).rows[c].parent == At(steps, i).rows[c].parent
    decreases k
  {
    if i < k {
      DeadThroughout(steps, i, k - 1, c);
      NextAt(steps, k - 1);
      assert !FreesAt(steps, k - 1, c);
      DeadUntilFreed(At(steps, k - 1), steps[k - 1], c);
      StepShape(At(steps, k - 1), steps[k - 1]);
    }
  }

  /** A child that failed for good, even one of an earlier execution of its parent,
      keeps the parent from completing until it is itself retried by hand, cancelled
      or given retries: the parent of such a child becomes done from `waiting` at
      step k only if one of these happened before. */
  lemma DeadChildBlocks(steps: seq<Step>, i: nat, k: nat, p: TaskId, c: TaskId)
    requires i <= k < |steps| && ChildOf(At(steps, i).rows, c, p) && Dead(At(steps, i).rows[c])
    requires p < |At(steps, k).rows| && At(steps, k).rows[p].state.Waiting?
    requires p < |At(steps, k + 1).rows| && At(steps, k + 1).rows[p].state.Done?
    ensures exists j :: i <= j < k && FreesAt(steps, j, c)
  {
    if forall j :: i <= j < k ==> !FreesAt(steps, j, c) {
      DeadThroughout(steps, i, k, c);
      NextAt(steps, k);
      var s, step := At(steps, k), steps[k];
      DoneByCheck(s, step, p);
      CheckSettles(s.rows, step.busy, p, step.hook, step.reason);
      assert ChildOf(s.rows, c, p);
    }
  }

  // ---- waiting parents ----------------------------------------------------------

  /** A task leaves `waiting` only by cancellation or when none of its children
      is active. */
  lemma LeavesWaiting(steps: seq<Step>, step: Step, p: TaskId)
    requires p < |Reach(steps).rows| && Reach(steps).rows[p].state.Waiting?
    ensures var s := Reach(steps);
            && p < |Apply(s, step).rows|
            && (Apply(s, step).rows[p].state.Waiting?
                || Apply(s, step).rows[p].state.Cancelled?
                || (Apply(s, step).rows[p].state.Terminal() && !ActiveKid(s.rows, p)))
  {
    StepShape(Reach(steps), step);
    if Enabled(Reach(steps), step) { LeavingRow(Reach(steps), step, p); }
  }

  lemma LeavingRow(s: Sys, step: Step, p: TaskId)
    requires Shaped(s) && Enabled(s, step) && p < |s.rows| && s.rows[p].state.Waiting? && p < |Rows(s, step)|
    ensures var t' := Rows(s, step)[p];
            t'.state.Waiting? || t'.state.Cancelled? || (t'.state.Terminal() && !ActiveKid(s.rows, p))
  {
    match step
    case ClaimTasks(q, locked, uuids) => ClaimRow(s.rows, q, locked, uuids, p);
    case CheckParent(id, busy, hook, reason) =>
      CheckFrame(s.rows, busy, id, hook, reason);
      if id == p { CheckSettles(s.rows, busy, id, hook, reason); }
    case ForkWave(id, kids, mark) => ForkFrame(s.rows, id, kids, mark);
    case Report(id, value, busy, types) => UpdateFrame(s.rows, busy, types, id, value);
    case _ =>
  }

  /** If a task becomes done from `waiting` at some step of a run, then at every
      later point it is done and every child it had at that step is done or
      cancelled. */
  lemma {:induction false} JoinIsFinal(steps: seq<Step>, k: nat, p: TaskId, c: TaskId)
    requires k < |steps| && p < |At(steps, k).rows| && At(steps, k).rows[p].state.Waiting?
    requires p < |At(steps, k + 1).rows| && At(steps, k + 1).rows[p].state.Done?
    requires ChildOf(At(steps, k).rows, c, p)
    ensures p < |Reach(steps).rows| && Reach(steps).rows[p].state.Done?
    ensures c < |Reach(steps).rows|
    ensures Reach(steps).rows[c].state.Done? || Reach(steps).rows[c].state.Cancelled?
    decreases |steps|
  {
    NextAt(steps, k);
    assert steps[..|steps|] == steps;
    if k + 1 == |steps| {
      DoneByCheck(At(steps, k), steps[k], p);
      var s, step := At(steps, k), steps[k];
      CheckSettles(s.rows, step.busy, p, step.hook, step.reason);
      StepSettled(s, step, c);
    } else {
      var before := steps[..|steps| - 1];
      assert before[..k] == steps[..k] && before[..k + 1] == steps[..k + 1];
      JoinIsFinal(before, k, p, c);
      StepSettled(Reach(before), steps[|steps| - 1], p);
      StepSettled(Reach(before), steps[|steps| - 1], c);
    }
  }

  /** Only the parent check takes a waiting task to done. */
  lemma DoneByCheck(s: Sys, step: Step, p: TaskId)
    requires Shaped(s) && p < |s.rows| && s.rows[p].state.Waiting?
    requires p < |Apply(s, step).rows| && Apply(s, step).rows[p].state.Done?
    ensures step.CheckParent? && step.id == p && Enabled(s, step)
  {
    if step.ClaimTasks? && Enabled(s, step) { ClaimRow(s.rows, step.q, step.locked, step.uuids, p); }
    if step.CheckParent? && Enabled(s, step) { CheckFrame(s.rows, step.busy, step.id, step.hook, step.reason); }
    if step.ForkWave? && Enabled(s, step) { ForkFrame(s.rows, step.id, step.kids, step.mark); }
    if step.Report? && Enabled(s, step) { UpdateFrame(s.rows, step.busy, step.types, step.id, step.value); }
  }

  lemma AdoptedRow(s: Sys, step: Step, p: TaskId)
    requires Shaped(s) && p < |s.rows| && Enabled(s, step) && Adopts(step, p)
    ensures ChildOf(Apply(s, step).rows, |s.rows|, p)
  {
  }

  lemma NewKidAdopted(s: Sys, step: Step, p: TaskId, c: TaskId)
    requires Shaped(s) && p < |s.rows| && s.rows[p].state.Done?
    requires ChildOf(Apply(s, step).rows, c, p) && c >= |s.rows|
    ensures Enabled(s, step) && Adopts(step, p)
  {
    NewParent(s, step, c);
  }

  /** Under a done parent a child appears only by a creation that names it. */
  lemma DoneParentAdopts(s: Sys, step: Step, p: TaskId)
    requires Shaped(s) && p < |s.rows| && s.rows[p].state.Done?
    ensures (exists c :: ChildOf(Apply(s, step).rows, c, p) && !ChildOf(s.rows, c, p))
            <==> Enabled(s, step) && Adopts(step, p)
  {
    StepShape(s, step);
    if Enabled(s, step) && Adopts(step, p) {
      AdoptedRow(s, step, p);
      assert !ChildOf(s.rows, |s.rows|, p);
    }
    if c :| ChildOf(Apply(s, step).rows, c, p) && !ChildOf(s.rows, c, p) {
      assert c >= |s.rows|;
      NewKidAdopted(s, step, p, c);
    }
  }

  lemma {:induction false} KidsWereThere(steps: seq<Step>, k: nat, p: TaskId, c: TaskId)
    requires k < |steps| && p < |At(steps, k).rows| && At(steps, k).rows[p].state.Waiting?
    requires p < |At(steps, k + 1).rows| && At(steps, k + 1).rows[p].state.Done?
    requires forall j :: k < j < |steps| ==> !Adopts(steps[j], p)
    ensures p < |Reach(steps).rows| && Reach(steps).rows[p].state.Done?
    ensures ChildOf(Reach(steps).rows, c, p) ==> ChildOf(At(steps, k).rows, c, p)
    decreases |steps|
  {
    assert steps[..|steps|] == steps;
    if k + 1 == |steps| {
      NextAt(steps, k);
      DoneByCheck(At(steps, k), steps[k], p);
      if ChildOf(Reach(steps).rows, c, p) { NoKidByCheck(At(steps, k), steps[k], p, c); }
    } else {
      var before, step := steps[..|steps| - 1], steps[|steps| - 1];
      assert before[..k] == steps[..k] && before[..k + 1] == steps[..k + 1];
      KidsWereThere(before, k, p, c);
      assert !Adopts(step, p);
      StepSettled(Reach(before), step, p);
      DoneParentAdopts(Reach(before), step, p);
    }
  }

  /** A check that completes its parent spawns nothing. */
  lemma NoKidByCheck(s: Sys, step: Step, p: TaskId, c: TaskId)
    requires Shaped(s) && Enabled(s, step) && step.CheckParent? && step.id == p
    requires p < |Apply(s, step).rows| && Apply(s, step).rows[p].state.Done? && ChildOf(Apply(s, step).rows, c, p)
    ensures ChildOf(s.rows, c, p)
  {
    StepShape(s, step);
    CheckFrame(s.rows, step.busy, p, step.hook, step.reason);
  }

  /** If a waiting task became done at step k and nobody has since created a task
      under it by hand, then every child it has now is done or cancelled. */
  lemma JoinCoversEveryChild(steps: seq<Step>, k: nat, p: TaskId, c: TaskId)
    requires k < |steps| && p < |At(steps, k).rows| && At(steps, k).rows[p].state.Waiting?
    requires p < |At(steps, k + 1).rows| && At(steps, k + 1).rows[p].state.Done?
    requires forall j :: k < j < |steps| ==> !Adopts(steps[j], p)
    requires ChildOf(Reach(steps).rows, c, p)
    ensures Reach(steps).rows[c].state.Done? || Reach(steps).rows[c].state.Cancelled?
  {
    assert steps[..|steps|] == steps;
    KidsWereThere(steps, k, p, c);
    JoinIsFinal(steps, k, p, c);
  }

  // ---- unique keys ---------------------------------------------------------------

  /** In every reachable table at most one active task holds each unique_key. */
  lemma OneActivePerKey(steps: seq<Step>, i: TaskId, j: TaskId)
    requires i < |Reach(steps).rows| && j < |Reach(steps).rows|
    requires Reach(steps).rows[i].state.Active() && Reach(steps).rows[j].state.Active()
    requires Reach(steps).rows[i].uniqueKey.Some? && Reach(steps).rows[i].uniqueKey == Reach(steps).rows[j].uniqueKey
    ensures i == j
  {
    ReachInv(steps);
  }
}
