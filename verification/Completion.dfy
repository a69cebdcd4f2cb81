/** Where a task's result comes from: the step that completes it. */
module Completion {
  import opened Optional
  import opened TaskModel
  import opened Claiming
  import opened Progress
  import opened WaitingParent
  import opened Protocol

  /** The step hands in this value for row c: what its execute() or its hook returned
      or ended with; nothing for a parent found without children. */
  ghost predicate HandsIn(rows: Table, step: Step, c: TaskId, value: Option<Payload>) {
    match step
    case Row(op, id) => id == c && op.ThreadDone? && op.value == value
    case CheckParent(id, busy, hook, reason) =>
      && id == c
      && if SomeKid(rows, c)
         then (hook.Returned? && hook.kids == [] && hook.value == value) || hook == MovedOut(ByDone(value))
         else value.None?
    case _ => false
  }

  /** The step takes row c to done, handing in this value. */
  ghost predicate Completes(s: Sys, step: Step, c: TaskId, value: Option<Payload>)
    requires Shaped(s)
  {
    && c < |s.rows| && !s.rows[c].state.Done? && HandsIn(s.rows, step, c, value)
    && c < |Apply(s, step).rows| && Apply(s, step).rows[c].state.Done?
  }

  /** A row that a step makes done holds what that step handed in. */
  lemma DoneHoldsValue(s: Sys, step: Step, c: TaskId)
    requires Shaped(s) && c < |s.rows| && !s.rows[c].state.Done?
    requires c < |Apply(s, step).rows| && Apply(s, step).rows[c].state.Done?
    ensures Completes(s, step, c, Apply(s, step).rows[c].result)
  {
    CompletingRow(s, step, c);
  }

  lemma CompletingRow(s: Sys, step: Step, c: TaskId)
    requires Shaped(s) && Enabled(s, step) && c < |s.rows| && !s.rows[c].state.Done?
    requires c < |Rows(s, step)| && Rows(s, step)[c].state.Done?
    ensures HandsIn(s.rows, step, c, Rows(s, step)[c].result)
  {
    match step
    case ClaimTasks(q, locked, uuids) => ClaimRow(s.rows, q, locked, uuids, c);
    case CheckParent(id, busy, hook, reason) => CheckFrame(s.rows, busy, id, hook, reason);
    case ForkWave(id, kids, mark) => ForkFrame(s.rows, id, kids, mark);
    case Report(id, value, busy, types) => UpdateFrame(s.rows, busy, types, id, value);
    case _ =>
  }

  /** A step leaves what a done row holds, and a row not yet stored is not done. */
  lemma DoneBefore(s: Sys, step: Step, c: TaskId)
    requires Shaped(s) && c < |Apply(s, step).rows| && Apply(s, step).rows[c].state.Done?
    ensures c < |s.rows|
    ensures s.rows[c].state.Done? ==> Apply(s, step).rows[c].result == s.rows[c].result
  {
    if c >= |s.rows| { NewRowFresh(s, step, c); } else if s.rows[c].state.Done? { StepSettled(s, step, c); }
  }

  /** Step k of the run takes row c to done, handing in this value. */
  ghost predicate CompletesAt(steps: seq<Step>, k: nat, c: TaskId, value: Option<Payload>)
    requires k < |steps|
  {
    Completes(Reach(steps[..k]), steps[k], c, value)
  }

  /** In every run a done task holds the value handed in by the accepted step that
      completed it. */
  lemma {:induction false} ResultIsHandedIn(steps: seq<Step>, c: TaskId)
    requires c < |Reach(steps).rows| && Reach(steps).rows[c].state.Done?
    ensures exists k :: 0 <= k < |steps| && CompletesAt(steps, k, c, Reach(steps).rows[c].result)
    decreases |steps|
  {
    var last := |steps| - 1;
    LastStep(steps);
    var before := Reach(steps[..last]);
    DoneBefore(before, steps[last], c);
    if before.rows[c].state.Done? {
      ResultIsHandedIn(steps[..last], c);
      var k :| 0 <= k < last && CompletesAt(steps[..last], k, c, before.rows[c].result);
      SamePrefix(steps, k, c, before.rows[c].result);
    } else {
      DoneHoldsValue(before, steps[last], c);
      assert CompletesAt(steps, last, c, Reach(steps).rows[c].result);
    }
  }

  lemma SamePrefix(steps: seq<Step>, k: nat, c: TaskId, value: Option<Payload>)
    requires k < |steps| - 1 && CompletesAt(steps[..|steps| - 1], k, c, value)
    ensures CompletesAt(steps, k, c, value)
  {
    assert steps[..|steps| - 1][..k] == steps[..k];
  }

  lemma LastStep(steps: seq<Step>)
    requires |Reach(steps).rows| > 0
    ensures |steps| > 0 && Reach(steps) == Apply(Reach(steps[..|steps| - 1]), steps[|steps| - 1])
  {
    if |steps| > 0 {
      RunOneMore(steps[..|steps| - 1], steps[|steps| - 1]);
      assert steps[..|steps| - 1] + [steps[|steps| - 1]] == steps;
    }
  }
}
