/** _check_waiting_parent: when a waiting parent settles, and what the task
    type's on_all_children_done hook may do to the table meanwhile. */
module WaitingParent {
  import opened Optional
  import opened TaskModel

  /** What a pipeline hook records on its own row along with a spawned wave. */
  datatype Mark = Unmarked | WaveOf(phase: nat) | Exhausted(phase: nat)

  /** How a hook may itself end its task. */
  datatype Ending = ByDone(value: Option<Payload>) | ByFail | ByCancel

  /** Outcome of on_all_children_done. A raising hook has its writes rolled back. */
  datatype Hook =
    | Returned(kids: seq<Task>, mark: Mark, value: Option<Payload>)
    | MovedOut(end: Ending)
    | AsksRetry
    | Transient
    | Broken

  /** A row as create() stores it: pending, never claimed, nothing charged. */
  predicate FreshRow(t: Task) {
    && t.state.Pending? && t.worker.None? && t.runner.None?
    && t.retryCount == 0 && t.phase == 0 && t.wave == []
    && t.result.None? && t.error.None? && t.progress == 0
  }

  /** A task spec carries no unique_key, so neither does a spawned child. */
  predicate FreshKids(kids: seq<Task>, p: TaskId) {
    forall k :: 0 <= k < |kids| ==> FreshRow(kids[k]) && kids[k].parent == Some(p) && kids[k].uniqueKey.None?
  }

  predicate HookFits(hook: Hook, p: TaskId) {
    hook.Returned? ==> FreshKids(hook.kids, p)
  }

  /** A child that failed for good: never retried, or out of retries. */
  predicate Dead(t: Task) {
    t.state.Failed? && !(t.policy.RetryAny? && Budget(t))
  }

  ghost predicate SomeKid(rows: Table, p: TaskId) {
    exists c :: ChildOf(rows, c, p)
  }

  ghost predicate ActiveKid(rows: Table, p: TaskId) {
    exists c :: ChildOf(rows, c, p) && rows[c].state.Active()
  }

  ghost predicate DeadKid(rows: Table, p: TaskId) {
    exists c :: ChildOf(rows, c, p) && Dead(rows[c])
  }

  ghost predicate FailedKid(rows: Table, p: TaskId) {
    exists c :: ChildOf(rows, c, p) && rows[c].state.Failed?
  }

  ghost predicate KidsSettled(rows: Table, p: TaskId) {
    forall c :: ChildOf(rows, c, p) ==> rows[c].state.Done? || rows[c].state.Cancelled?
  }

  /** Ids of n rows appended to a table of length `first`. */
  function Span(first: nat, n: nat): (r: seq<TaskId>)
    ensures |r| == n && forall k :: 0 <= k < n ==> r[k] == first + k
  {
    seq(n, k requires 0 <= k < n => first + k)
  }

  function Marked(t: Task, mark: Mark, wave: seq<TaskId>): Task {
    match mark
    case Unmarked => t
    case WaveOf(phase) => t.(phase := phase, wave := wave)
    case Exhausted(phase) => t.(phase := phase)
  }

  function Spawn(rows: Table, p: TaskId, kids: seq<Task>, mark: Mark): (r: Table)
    requires p < |rows|
    ensures |r| == |rows| + |kids|
  {
    (rows + kids)[p := Marked(rows[p], mark, Span(|rows|, |kids|))]
  }

  function Ended(t: Task, end: Ending, reason: Payload): Task {
    match end
    case ByDone(value) => ToDone(t, value)
    case ByFail => ToFailed(t, reason)
    case ByCancel => ToCancelled(t)
  }

  /** The table after one check of parent p. */
  ghost function Check(rows: Table, locked: set<TaskId>, p: TaskId, hook: Hook, reason: Payload): (r: Table)
    requires p < |rows|
    ensures |r| >= |rows|
  {
    if p in locked || !rows[p].state.Waiting? || ActiveKid(rows, p) then rows
    else if DeadKid(rows, p) then rows[p := ToFailed(rows[p], reason)]
    else if FailedKid(rows, p) then rows
    else if !SomeKid(rows, p) then rows[p := ToDone(rows[p], None)]
    else match hook
      case Returned(kids, mark, value) =>
        var rows' := Spawn(rows, p, kids, mark);
        if kids == [] then rows'[p := ToDone(rows'[p], value)] else rows'
      case MovedOut(end) => rows[p := Ended(rows[p], end, reason)]
      case AsksRetry => rows
      case Transient => rows
      case Broken => rows[p := ToFailed(rows[p], reason)]
  }

  /** Leaving `waiting` through a check takes a childhood with nothing active;
      leaving it as done takes every child done or cancelled. */
  lemma CheckSettles(rows: Table, locked: set<TaskId>, p: TaskId, hook: Hook, reason: Payload)
    requires p < |rows| && rows[p].state.Waiting? && HookFits(hook, p)
    ensures var t' := Check(rows, locked, p, hook, reason)[p];
            && (!t'.state.Waiting? ==> p !in locked && forall c :: ChildOf(rows, c, p) ==> rows[c].state.Terminal())
            && (t'.state.Done? ==> KidsSettled(rows, p))
            && (t'.state.Waiting? || Allowed(Waiting, t'.state))
  {
    forall c | ChildOf(rows, c, p)
      ensures rows[c].state.Active() ==> ActiveKid(rows, p)
      ensures rows[c].state.Failed? ==> FailedKid(rows, p)
    {
    }
  }

  /** An unlocked waiting parent none of whose children is active fails exactly when
      a child has failed for good, whatever wave it belongs to, or the hook, run on
      settled children, fails it. */
  lemma CheckFailsIff(rows: Table, locked: set<TaskId>, p: TaskId, hook: Hook, reason: Payload)
    requires p < |rows| && rows[p].state.Waiting? && HookFits(hook, p) && p !in locked && !ActiveKid(rows, p)
    ensures Check(rows, locked, p, hook, reason)[p].state.Failed?
            <==> DeadKid(rows, p)
                 || (SomeKid(rows, p) && KidsSettled(rows, p) && (hook.Broken? || (hook.MovedOut? && hook.end.ByFail?)))
  {
    forall c | ChildOf(rows, c, p)
      ensures rows[c].state.Active() ==> ActiveKid(rows, p)
      ensures rows[c].state.Failed? ==> FailedKid(rows, p)
    {
    }
    assert !FailedKid(rows, p) <==> KidsSettled(rows, p);
  }

  /** A parent is done after the check exactly when it was unlocked, its children
      are all done or cancelled, and the hook returned without spawning or itself
      completed the task. */
  lemma CheckCompletes(rows: Table, locked: set<TaskId>, p: TaskId, hook: Hook, reason: Payload)
    requires p < |rows| && rows[p].state.Waiting? && SomeKid(rows, p) && HookFits(hook, p)
    ensures Check(rows, locked, p, hook, reason)[p].state.Done?
            <==> p !in locked && KidsSettled(rows, p)
                 && ((hook.Returned? && hook.kids == []) || (hook.MovedOut? && hook.end.ByDone?))
  {
    forall c | ChildOf(rows, c, p)
      ensures rows[c].state.Active() ==> ActiveKid(rows, p)
      ensures rows[c].state.Failed? ==> FailedKid(rows, p)
    {
    }
    assert !ActiveKid(rows, p) && !FailedKid(rows, p) <==> KidsSettled(rows, p);
  }

  /** Some outcome of the hook completes an unlocked waiting parent exactly when all
      its children, of whatever execution, are done or cancelled. */
  lemma CanCompleteIff(rows: Table, locked: set<TaskId>, p: TaskId)
    requires p < |rows| && rows[p].state.Waiting? && SomeKid(rows, p) && p !in locked
    ensures (exists hook, reason :: HookFits(hook, p) && Check(rows, locked, p, hook, reason)[p].state.Done?)
            <==> KidsSettled(rows, p)
  {
    var easy := Returned([], Unmarked, None);
    CheckCompletes(rows, locked, p, easy, 0);
    assert HookFits(easy, p);
    if hook, reason :| HookFits(hook, p) && Check(rows, locked, p, hook, reason)[p].state.Done? {
      CheckCompletes(rows, locked, p, hook, reason);
    }
  }

  /** A check touches its parent and appends children; every other row, and every
      parent link, is as it was. */
  lemma CheckFrame(rows: Table, locked: set<TaskId>, p: TaskId, hook: Hook, reason: Payload)
    requires p < |rows| && HookFits(hook, p)
    ensures var rows' := Check(rows, locked, p, hook, reason);
            && (forall i :: 0 <= i < |rows| && i != p ==> rows'[i] == rows[i])
            && rows'[p] == rows[p].(state := rows'[p].state, result := rows'[p].result, error := rows'[p].error,
                                    progress := rows'[p].progress, phase := rows'[p].phase, wave := rows'[p].wave)
            && (forall i :: |rows| <= i < |rows'| ==>
                  && FreshRow(rows'[i]) && rows'[i].parent == Some(p) && rows'[i].uniqueKey.None?
                  && rows'[p].state.Waiting?)
  {
  }

  /** The transaction of an execute() that spawns a wave and waits for it; with
      nothing to spawn it only records the mark. */
  function Fork(rows: Table, p: TaskId, kids: seq<Task>, mark: Mark): (r: Table)
    requires p < |rows|
    ensures |r| == |rows| + |kids|
  {
    var r := Spawn(rows, p, kids, mark);
    if kids == [] then r else r[p := r[p].(state := Waiting)]
  }

  lemma ForkFrame(rows: Table, p: TaskId, kids: seq<Task>, mark: Mark)
    requires p < |rows| && FreshKids(kids, p)
    ensures var rows' := Fork(rows, p, kids, mark);
            && (forall i :: 0 <= i < |rows| && i != p ==> rows'[i] == rows[i])
            && rows'[p] == rows[p].(state := if kids == [] then rows[p].state else Waiting,
                                    phase := rows'[p].phase, wave := rows'[p].wave)
            && (forall i :: |rows| <= i < |rows'| ==>
                  FreshRow(rows'[i]) && rows'[i].parent == Some(p) && rows'[i].uniqueKey.None?)
  {
  }
}
