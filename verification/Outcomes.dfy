/** What users and the framework can always do: for each transaction, exactly when it
    goes through and the table it leaves, in terms of the stored rows. */
module Outcomes {
  import opened Optional
  import opened TaskModel
  import opened Cascade
  import opened Progress
  import opened WaitingParent
  import opened Protocol

  /** The row create() stores for these values. */
  function NewTask(typeCode: string, channel: string, priority: int, created: int, eta: Option<int>,
                   policy: RetryPolicy, maxRetries: int, key: Option<string>, parent: Option<TaskId>): Task {
    Task(typeCode, channel, priority, created, eta, Pending, None, None, policy, 0, maxRetries, key, parent,
         0, [], None, None, 0)
  }

  /** Nothing but these values is asked of a new row. */
  lemma FreshIsNew(t: Task)
    ensures FreshRow(t) <==> t == NewTask(t.typeCode, t.channel, t.priority, t.created, t.eta, t.policy, t.maxRetries,
                                          t.uniqueKey, t.parent)
  {
  }

  predicate Unfinished(t: Task) {
    match t.state
    case Pending => true
    case Assigned => true
    case Running => true
    case Stuck => true
    case Waiting => true
    case Done => false
    case Failed => false
    case Cancelled => false
  }

  /** No unfinished row holds the key. */
  ghost predicate KeyUnheld(rows: Table, key: Option<string>) {
    key == None || forall i :: 0 <= i < |rows| && Unfinished(rows[i]) ==> rows[i].uniqueKey != key
  }

  /** A creation goes through exactly when its parent is stored and no unfinished row
      holds its key. */
  lemma CreateOutcome(s: Sys, typeCode: string, channel: string, priority: int, created: int, eta: Option<int>,
                      policy: RetryPolicy, maxRetries: int, key: Option<string>, parent: Option<TaskId>)
    requires Shaped(s)
    ensures var t := NewTask(typeCode, channel, priority, created, eta, policy, maxRetries, key, parent);
            Apply(s, Create(t)).rows
            == if (parent == None || parent.value < |s.rows|) && KeyUnheld(s.rows, key) then s.rows + [t] else s.rows
  {
    var t := NewTask(typeCode, channel, priority, created, eta, policy, maxRetries, key, parent);
    assert KeyFree(s.rows, key) <==> KeyUnheld(s.rows, key);
  }

  /** A cancellation goes through exactly when the task is neither done nor cancelled;
      it then cancels the task and every unfinished child, grandchild and so on joined
      to it by unfinished rows, and writes nothing but their state. */
  lemma CancelOutcome(s: Sys, id: TaskId, x: TaskId)
    requires Shaped(s) && id < |s.rows| && x < |s.rows|
    ensures |Apply(s, CancelTask(id)).rows| == |s.rows|
    ensures var t := s.rows[x];
            Apply(s, CancelTask(id)).rows[x]
            == if s.rows[id].state != Done && s.rows[id].state != Cancelled && Below(s.rows, id, x)
               then t.(state := Cancelled) else t
  {
    BelowIsReached(s.rows, id, x);
  }

  /** x is the row, or an unfinished child of something below it. */
  ghost predicate Below(rows: Table, id: TaskId, x: TaskId)
    requires Forest(rows)
    decreases x
  {
    x < |rows| && (x == id || (Unfinished(rows[x]) && rows[x].parent.Some? && Below(rows, id, rows[x].parent.value)))
  }

  lemma {:induction false} BelowIsReached(rows: Table, id: TaskId, x: TaskId)
    requires Forest(rows)
    ensures Below(rows, id, x) <==> Reached(rows, {id}, x)
    decreases x
  {
    if x < |rows| && rows[x].parent.Some? { BelowIsReached(rows, id, rows[x].parent.value); }
  }

  /** A fork of children goes through exactly from running, or, for a pipeline's wave,
      also from waiting; it appends them, and parks the task. */
  lemma ForkOutcome(s: Sys, id: TaskId, kids: seq<Task>, mark: Mark)
    requires Shaped(s) && id < |s.rows| && FreshKids(kids, id) && kids != [] && !mark.Exhausted?
    ensures var t := s.rows[id];
            Apply(s, ForkWave(id, kids, mark)).rows
            == if t.state == Running || (t.state == Waiting && mark.WaveOf?)
               then (s.rows + kids)[id := MarkedBy(t, mark, |s.rows|, |kids|).(state := Waiting)] else s.rows
  {
    MarkWrites(s.rows, id, kids, mark);
  }

  /** With nothing to spawn a pipeline writes its phase, in whatever state it is. */
  lemma ExhaustedOutcome(s: Sys, id: TaskId, phase: nat)
    requires Shaped(s) && id < |s.rows|
    ensures Apply(s, ForkWave(id, [], Exhausted(phase))).rows == s.rows[id := s.rows[id].(phase := phase)]
  {
    assert Enabled(s, ForkWave(id, [], Exhausted(phase)));
    assert s.rows + [] == s.rows;
  }

  /** The row with a pipeline's marker: the phase, and for a wave the ids its n children
      get, in order, in a table of `first` rows. */
  function MarkedBy(t: Task, mark: Mark, first: nat, n: nat): Task {
    match mark
    case Unmarked => t
    case WaveOf(phase) => t.(phase := phase, wave := seq(n, k requires 0 <= k < n => first + k))
    case Exhausted(phase) => t.(phase := phase)
  }

  lemma MarkWrites(rows: Table, p: TaskId, kids: seq<Task>, mark: Mark)
    requires p < |rows|
    ensures Spawn(rows, p, kids, mark) == (rows + kids)[p := MarkedBy(rows[p], mark, |rows|, |kids|)]
  {
    assert Span(|rows|, |kids|) == seq(|kids|, k requires 0 <= k < |kids| => |rows| + k);
  }

  /** A check whose hook returns with children to spawn appends them and marks the
      still waiting parent; one that returns without completes it with the hook's
      value. */
  lemma HookOutcome(rows: Table, locked: set<TaskId>, p: TaskId, kids: seq<Task>, mark: Mark, value: Option<Payload>,
                    reason: Payload)
    requires p < |rows| && p !in locked && rows[p].state == Waiting && SomeKid(rows, p) && KidsSettled(rows, p)
    ensures var rows', t := Check(rows, locked, p, Returned(kids, mark, value), reason), rows[p];
            if kids != [] then rows' == (rows + kids)[p := MarkedBy(t, mark, |rows|, |kids|)]
            else rows' == rows[p := MarkedBy(t, mark, |rows|, 0).(state := Done, result := value, progress := 100)]
  {
    assert !ActiveKid(rows, p) && !DeadKid(rows, p) && !FailedKid(rows, p);
    MarkWrites(rows, p, kids, mark);
    assert rows + [] == rows;
  }

  /** A manual retry goes through exactly on a failed row whose key no unfinished row
      holds, whatever its policy and budget, and charges nothing. */
  lemma ManualRetryOutcome(s: Sys, id: TaskId, eta: Option<int>)
    requires Shaped(s) && id < |s.rows|
    ensures var t := s.rows[id];
            Apply(s, ManualRetry(id, eta)).rows
            == if t.state == Failed && KeyUnheld(s.rows, t.uniqueKey)
               then s.rows[id := t.(state := Pending, worker := None, runner := None, error := None, progress := 0,
                                    eta := eta)]
               else s.rows
  {
    assert KeyFree(s.rows, s.rows[id].uniqueKey) <==> KeyUnheld(s.rows, s.rows[id].uniqueKey);
  }

  /** A failed child is dead exactly when the retry sweep may never take it: its policy
      does not retry any failure, or the budget is spent. */
  lemma DeadOrRetriable(s: Sys, id: TaskId, eta: Option<int>)
    requires Shaped(s) && id < |s.rows| && s.rows[id].state == Failed && KeyUnheld(s.rows, s.rows[id].uniqueKey)
    ensures var t := s.rows[id];
            Apply(s, RetryFailed(id, eta)).rows
            == if Dead(t) then s.rows
               else s.rows[id := t.(state := Pending, worker := None, runner := None, error := None, progress := 0,
                                    eta := eta, retryCount := t.retryCount + 1)]
  {
    assert KeyFree(s.rows, s.rows[id].uniqueKey) <==> KeyUnheld(s.rows, s.rows[id].uniqueKey);
  }

  /** Edits and progress reports go through on every stored row. */
  lemma WritesGoThrough(s: Sys, id: TaskId, priority: int, channel: string, eta: Option<int>, policy: RetryPolicy,
                        maxRetries: int, value: int, busy: set<TaskId>, types: set<string>)
    requires Shaped(s) && id < |s.rows|
    ensures Apply(s, Edit(id, priority, channel, eta, policy, maxRetries)).rows
            == s.rows[id := s.rows[id].(priority := priority, channel := channel, eta := eta, policy := policy,
                                        maxRetries := maxRetries)]
    ensures Apply(s, Report(id, value, busy, types)).rows == Update(s.rows, busy, types, id, value)
  {
  }
}
