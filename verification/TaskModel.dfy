/** One row of the task table, the state machine over it, and the effect of
    every single-row action as a function from the row before the transaction
    to the row after it. */
module TaskModel {
  import opened Optional

  type TaskId = nat
  type WorkerId = nat
  /** A uuid4; only equality of runner ids is ever used. */
  type RunnerId = nat
  /** An opaque JSON or text payload (task_result, task_error). */
  type Payload = int

  datatype State =
    | Pending | Assigned | Running | Stuck | Waiting | Done | Failed | Cancelled
  {
    predicate Terminal() {
      Done? || Failed? || Cancelled?
    }

    predicate Active() {
      Pending? || Assigned? || Running? || Stuck? || Waiting?
    }

    /** Claimed by a worker and not yet resolved. */
    predicate InFlight() {
      Assigned? || Running? || Stuck?
    }
  }

  /** The declared transition table. */
  predicate Allowed(source: State, target: State) {
    match source
    case Pending => target.Assigned? || target.Cancelled?
    case Assigned => target.Running? || target.Pending? || target.Cancelled?
    case Running => target.Done? || target.Failed? || target.Waiting? || target.Stuck? || target.Cancelled?
    case Stuck => target.Done? || target.Failed? || target.Pending? || target.Cancelled?
    case Waiting => target.Done? || target.Failed? || target.Cancelled?
    case Failed => target.Pending? || target.Cancelled?
    case Done => false
    case Cancelled => false
  }

  /** The table read by its targets. */
  lemma WhenceAllowed(s: State)
    ensures Allowed(s, Pending) <==> s == Assigned || s == Stuck || s == Failed
    ensures Allowed(s, Assigned) <==> s == Pending
    ensures Allowed(s, Running) <==> s == Assigned
    ensures (Allowed(s, Stuck) <==> s == Running) && (Allowed(s, Waiting) <==> s == Running)
    ensures Allowed(s, Done) <==> s == Running || s == Stuck || s == Waiting
    ensures Allowed(s, Failed) <==> s == Running || s == Stuck || s == Waiting
    ensures Allowed(s, Cancelled) <==> s != Done && s != Cancelled
  {
  }

  datatype RetryPolicy = NoRetry | RetryKnown | RetryAny

  datatype Task = Task(
    typeCode: string,
    channel: string,
    priority: int,
    created: int,
    eta: Option<int>,
    state: State,
    worker: Option<WorkerId>,
    runner: Option<RunnerId>,
    policy: RetryPolicy,
    retryCount: nat,
    maxRetries: int,
    uniqueKey: Option<string>,
    parent: Option<TaskId>,
    phase: nat,
    wave: seq<TaskId>,
    result: Option<Payload>,
    error: Option<Payload>,
    progress: int)

  /** The stored rows; a task's id is its position, so ids grow with time. */
  type Table = seq<Task>

  ghost predicate ChildOf(rows: Table, child: int, parent: TaskId) {
    0 <= child < |rows| && rows[child].parent == Some(parent)
  }

  /** parent_id is written at creation only, hence always an older row. */
  ghost predicate Forest(rows: Table) {
    forall i :: 0 <= i < |rows| && rows[i].parent.Some? ==> rows[i].parent.value < i
  }

  // ---- ownership -------------------------------------------------------

  /** The WHERE clause of _acquire_finalization; an unset check is skipped. */
  predicate Owns(t: Task, runner: Option<RunnerId>, worker: Option<WorkerId>, orAssigned: bool) {
    && (t.state.Running? || t.state.Stuck? || (orAssigned && t.state.Assigned?))
    && (runner.None? || t.runner == runner)
    && (worker.None? || t.worker == worker)
  }

  // ---- single-row actions ----------------------------------------------

  /** What a task thread or recovery may do to one row in one transaction. */
  datatype RowOp =
    | Start(thread: RunnerId)                                 // the runner its thread captured; not checked
    | MarkStuck
    | Park                                                    // action_wait_children
    | ThreadDone(runner: RunnerId, value: Option<Payload>)
    | ThreadRaised(runner: RunnerId, known: bool, retryAt: Option<int>, trace: Payload)
    | Lost(lostRunner: Option<RunnerId>, owner: Option<WorkerId>, retryAt: Option<int>, reason: Payload)
    | Disown                                                  // startup un-owns a waiting orphan

  function ToDone(t: Task, value: Option<Payload>): Task {
    t.(state := Done, result := value, progress := 100)
  }

  function ToFailed(t: Task, error: Payload): Task {
    t.(state := Failed, error := Some(error))
  }

  function ToCancelled(t: Task): Task {
    t.(state := Cancelled)
  }

  /** Back to pending, un-owned, without charging the retry budget. */
  function Unclaimed(t: Task): Task {
    t.(state := Pending, worker := None, runner := None)
  }

  /** Manual retry: never charges the budget. */
  function Reset(t: Task, eta: Option<int>): Task {
    Unclaimed(t).(error := None, progress := 0, eta := eta)
  }

  /** Automatic retry: the same, and one attempt is charged. */
  function Charged(t: Task, eta: Option<int>): Task {
    Reset(t, eta).(retryCount := t.retryCount + 1)
  }

  predicate ShouldAutoRetry(policy: RetryPolicy, known: bool) {
    policy.RetryAny? || (policy.RetryKnown? && known)
  }

  predicate Budget(t: Task) {
    t.retryCount < t.maxRetries
  }

  /** The row after op commits, or None when op finds nothing to do: the guard
      fails, the transition is refused, or the caller no longer owns the row. */
  function Effect(op: RowOp, t: Task): Option<Task> {
    match op
    case Start(_) =>
      if t.state.Assigned? then Some(t.(state := Running, progress := 0)) else None
    case MarkStuck =>
      if t.state.Running? then Some(t.(state := Stuck)) else None
    case Park =>
      if t.state.Running? then Some(t.(state := Waiting)) else None
    case ThreadDone(runner, value) =>
      if Owns(t, Some(runner), None, false) then Some(ToDone(t, value)) else None
    case ThreadRaised(runner, known, retryAt, trace) =>
      if !Owns(t, Some(runner), None, false) then None
      else if ShouldAutoRetry(t.policy, known) && Budget(t) then Some(Charged(t, retryAt))
      else Some(ToFailed(t, trace))
    case Lost(runner, worker, retryAt, reason) =>
      if !Owns(t, runner, worker, true) then None
      else if t.state.Assigned? then Some(Unclaimed(t))
      else if ShouldAutoRetry(t.policy, true) && Budget(t) then Some(Charged(t, retryAt))
      else Some(ToFailed(t.(runner := None), reason))
    case Disown =>
      if t.state.Waiting? then Some(t.(worker := None)) else None
  }

  /** Final writes: those that settle the execution holding the row. */
  predicate Final(op: RowOp) {
    op.ThreadDone? || op.ThreadRaised? || op.Lost?
  }

  /** The runner id a final write presents, if it presents one. */
  function Presented(op: RowOp): Option<RunnerId> {
    match op
    case ThreadDone(r, _) => Some(r)
    case ThreadRaised(r, _, _, _) => Some(r)
    case Lost(r, _, _, _) => r
    case Start(_) => None
    case MarkStuck => None
    case Park => None
    case Disown => None
  }

  /** A raising execution that still owns its running or stuck row goes back to the
      queue, one attempt charged, exactly when the budget is not spent and the policy
      retries any failure, or known ones and this is one; otherwise it fails for good. */
  lemma RaisedRetriesIff(t: Task, runner: RunnerId, known: bool, retryAt: Option<int>, trace: Payload)
    requires (t.state == Running || t.state == Stuck) && t.runner == Some(runner)
    ensures Effect(ThreadRaised(runner, known, retryAt, trace), t).Some?
    ensures var t' := Effect(ThreadRaised(runner, known, retryAt, trace), t).value;
            if t.retryCount < t.maxRetries && (t.policy == RetryAny || (t.policy == RetryKnown && known)) then
              t' == t.(state := Pending, worker := None, runner := None, error := None, progress := 0,
                       eta := retryAt, retryCount := t.retryCount + 1)
            else t' == t.(state := Failed, error := Some(trace))
  {
  }

  /** A recovery acts on the execution it was told about and on no other: the row must
      be in flight, under that runner and that worker as far as they are given. */
  lemma LostNamesTheExecution(t: Task, runner: Option<RunnerId>, worker: Option<WorkerId>, retryAt: Option<int>,
                              reason: Payload)
    ensures Effect(Lost(runner, worker, retryAt, reason), t).Some?
            <==> (t.state == Assigned || t.state == Running || t.state == Stuck)
                 && (runner == None || t.runner == runner) && (worker == None || t.worker == worker)
  {
  }

  /** Every row write stays inside the declared table, with one exception: an
      automatic retry takes a running task straight back to pending. */
  lemma EffectTransitions(op: RowOp, t: Task)
    requires Effect(op, t).Some?
    ensures var t' := Effect(op, t).value;
            || t'.state == t.state
            || Allowed(t.state, t'.state)
            || (t.state.Running? && t'.state.Pending? && t'.retryCount == t.retryCount + 1)
    ensures !t.state.Terminal()
  {
  }

  /** An accepted write leaves the declared table exactly when it requeues a running
      task with budget left: as its thread's retriable failure, or as a lost
      execution under any retrying policy. */
  lemma AutoRetryLeavesTheTable(op: RowOp, t: Task)
    requires Effect(op, t).Some?
    ensures var t' := Effect(op, t).value;
            t'.state != t.state && !Allowed(t.state, t'.state)
            <==> t.state.Running? && Budget(t)
                 && ((op.ThreadRaised? && ShouldAutoRetry(t.policy, op.known)) || (op.Lost? && !t.policy.NoRetry?))
  {
  }
}
