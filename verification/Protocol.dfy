/** The task queue as a transition system. Every committed transaction on the task
    table, whether of a worker, task thread, sweep, progress report or user, is one
    step; a refused or rolled-back transaction leaves the table as it was. Runs
    interleave steps arbitrarily, and a task thread may act with the runner id of
    its claim arbitrarily late. */
module Protocol {
  import opened Optional
  import opened TaskModel
  import opened Claiming
  import opened Cascade
  import opened Progress
  import opened WaitingParent

  /** What happened so far. None of it is read by a step except `issued`
      (a uuid4 is never drawn twice). */
  datatype Hist = Hist(
    issued: set<RunnerId>,            // runner ids handed out by claims
    begun: multiset<RunnerId>,        // runner of the row, once per accepted start
    consumed: multiset<RunnerId>,     // runner of the row, once per accepted final write
    starts: seq<nat>,                 // executions started, per task
    manual: seq<nat>,                 // manual retries, per task
    cap: seq<nat>)                    // largest max_retries the row ever had, at least 0

  datatype Sys = Sys(rows: Table, hist: Hist)

  datatype Step =
    | Row(op: RowOp, id: TaskId)
    | ClaimTasks(q: Query, locked: set<TaskId>, uuids: seq<RunnerId>)
    | Create(task: Task)
    | CancelTask(id: TaskId)
    | CheckParent(id: TaskId, busy: set<TaskId>, hook: Hook, reason: Payload)
    | ForkWave(id: TaskId, kids: seq<Task>, mark: Mark)
    | ManualRetry(id: TaskId, eta: Option<int>)
    | RetryFailed(id: TaskId, eta: Option<int>)
    | Report(id: TaskId, value: int, busy: set<TaskId>, types: set<string>)   // update_progress
    | Edit(id: TaskId, priority: int, channel: string, eta: Option<int>, policy: RetryPolicy, maxRetries: int)

  function Floor(n: int): nat {
    if n < 0 then 0 else n
  }

  /** The partial unique index admits another active row with this key. */
  predicate KeyFree(rows: Table, key: Option<string>) {
    key.None? || forall i :: 0 <= i < |rows| && rows[i].state.Active() ==> rows[i].uniqueKey != key
  }

  predicate Distinct(uuids: seq<RunnerId>) {
    forall k, l :: 0 <= k < l < |uuids| ==> uuids[k] != uuids[l]
  }

  /** Which forks an execute() transaction gets through. Nobody asks whose thread it
      is: spawning and parking takes a running task; a pipeline skips the parking when
      the task already waits; and an exhausted pipeline writes its phase in any state. */
  predicate MayFork(t: Task, kids: seq<Task>, mark: Mark) {
    match mark
    case Unmarked => kids != [] && t.state.Running?
    case WaveOf(_) => kids != [] && (t.state.Running? || t.state.Waiting?)
    case Exhausted(_) => kids == []
  }

  /** The step creates a task under p by hand. */
  predicate Adopts(step: Step, p: TaskId) {
    step.Create? && step.task.parent == Some(p)
  }

  ghost predicate Enabled(s: Sys, step: Step) {
    match step
    case Row(op, id) => id < |s.rows| && Effect(op, s.rows[id]).Some?
    case ClaimTasks(q, locked, uuids) =>
      |uuids| == |Picked(s.rows, q, locked)| && Distinct(uuids) && forall u :: u in uuids ==> u !in s.hist.issued
    case Create(task) =>
      FreshRow(task) && (task.parent.Some? ==> task.parent.value < |s.rows|) && KeyFree(s.rows, task.uniqueKey)
    case CancelTask(id) => Cancellable(s.rows, {id})
    case CheckParent(id, busy, hook, reason) => id < |s.rows| && HookFits(hook, id)
    case ForkWave(id, kids, mark) => id < |s.rows| && MayFork(s.rows[id], kids, mark) && FreshKids(kids, id)
    case ManualRetry(id, eta) => id < |s.rows| && s.rows[id].state.Failed? && KeyFree(s.rows, s.rows[id].uniqueKey)
    case RetryFailed(id, eta) =>
      && id < |s.rows| && s.rows[id].state.Failed? && s.rows[id].policy.RetryAny? && Budget(s.rows[id])
      && KeyFree(s.rows, s.rows[id].uniqueKey)
    case Report(id, value, busy, types) => id < |s.rows|
    case Edit(id, priority, channel, eta, policy, maxRetries) => id < |s.rows|
  }

  ghost function Rows(s: Sys, step: Step): Table
    requires Enabled(s, step)
  {
    var rows := s.rows;
    match step
    case Row(op, id) => rows[id := Effect(op, rows[id]).value]
    case ClaimTasks(q, locked, uuids) => Claim(rows, q, locked, uuids)
    case Create(task) => rows + [task]
    case CancelTask(id) => Cancel(rows, {id})
    case CheckParent(id, busy, hook, reason) => Check(rows, busy, id, hook, reason)
    case ForkWave(id, kids, mark) => Fork(rows, id, kids, mark)
    case ManualRetry(id, eta) => rows[id := Reset(rows[id], eta)]
    case RetryFailed(id, eta) => rows[id := Charged(rows[id], eta)]
    case Report(id, value, busy, types) => Update(rows, busy, types, id, value)
    case Edit(id, priority, channel, eta, policy, maxRetries) =>
      rows[id := rows[id].(priority := priority, channel := channel, eta := eta,
                           policy := policy, maxRetries := maxRetries)]
  }

  /** The runner whose execution a step begins: the one the row carries, whichever
      thread asks. */
  ghost function Begun(s: Sys, step: Step): multiset<RunnerId>
    requires Enabled(s, step)
  {
    if step.Row? && step.op.Start? && s.rows[step.id].runner.Some?
    then multiset{s.rows[step.id].runner.value} else multiset{}
  }

  /** The runner spent by a step: the one the row carried when a final write
      was accepted. */
  ghost function Spent(s: Sys, step: Step): multiset<RunnerId>
    requires Enabled(s, step)
  {
    if step.Row? && Final(step.op) && s.rows[step.id].runner.Some?
    then multiset{s.rows[step.id].runner.value} else multiset{}
  }

  ghost function Record(s: Sys, step: Step): Hist
    requires Enabled(s, step)
    requires |s.hist.starts| == |s.hist.manual| == |s.hist.cap| == |s.rows|
  {
    var h := s.hist;
    var rows' := Rows(s, step);
    var grown := |rows'| - |s.rows|;
    Hist(
      h.issued + (if step.ClaimTasks? then set u | u in step.uuids else {}),
      h.begun + Begun(s, step),
      h.consumed + Spent(s, step),
      (if step.Row? && step.op.Start? then h.starts[step.id := h.starts[step.id] + 1] else h.starts)
        + Zeros(grown),
      (if step.ManualRetry? then h.manual[step.id := h.manual[step.id] + 1] else h.manual) + Zeros(grown),
      (if step.Edit? && h.cap[step.id] < step.maxRetries then h.cap[step.id := step.maxRetries] else h.cap)
        + Caps(rows'[|s.rows|..]))
  }

  function Zeros(n: int): (r: seq<nat>)
    ensures |r| == Floor(n) && forall i :: 0 <= i < |r| ==> r[i] == 0
  {
    seq(Floor(n), i => 0)
  }

  function Caps(kids: seq<Task>): (r: seq<nat>)
    ensures |r| == |kids| && forall i :: 0 <= i < |r| ==> r[i] == Floor(kids[i].maxRetries)
  {
    seq(|kids|, i requires 0 <= i < |kids| => Floor(kids[i].maxRetries))
  }

  ghost predicate Shaped(s: Sys) {
    && |s.hist.starts| == |s.hist.manual| == |s.hist.cap| == |s.rows|
    && Forest(s.rows)
  }

  ghost function Apply(s: Sys, step: Step): Sys
    requires Shaped(s)
  {
    if Enabled(s, step) then Sys(Rows(s, step), Record(s, step)) else s
  }

  lemma StepShape(s: Sys, step: Step)
    requires Shaped(s)
    ensures Shaped(Apply(s, step))
    ensures |Apply(s, step).rows| >= |s.rows|
    ensures forall i :: 0 <= i < |s.rows| ==>
              && Apply(s, step).rows[i].parent == s.rows[i].parent
              && Apply(s, step).rows[i].typeCode == s.rows[i].typeCode
              && Apply(s, step).rows[i].uniqueKey == s.rows[i].uniqueKey
  {
    if Enabled(s, step) {
      forall i | 0 <= i < |Rows(s, step)|
        ensures i < |s.rows| ==> SameIdentity(s.rows[i], Rows(s, step)[i])
        ensures i >= |s.rows| && Rows(s, step)[i].parent.Some? ==> Rows(s, step)[i].parent.value < |s.rows|
      {
        RowShape(s, step, i);
      }
    }
  }

  ghost predicate SameIdentity(t: Task, t': Task) {
    t'.parent == t.parent && t'.typeCode == t.typeCode && t'.uniqueKey == t.uniqueKey
  }

  lemma RowShape(s: Sys, step: Step, i: TaskId)
    requires Shaped(s) && Enabled(s, step) && i < |Rows(s, step)|
    ensures |Rows(s, step)| >= |s.rows|
    ensures i < |s.rows| ==> SameIdentity(s.rows[i], Rows(s, step)[i])
    ensures i >= |s.rows| && Rows(s, step)[i].parent.Some? ==> Rows(s, step)[i].parent.value < |s.rows|
  {
    match step
    case ClaimTasks(q, locked, uuids) => ClaimRow(s.rows, q, locked, uuids, i);
    case CheckParent(id, busy, hook, reason) => CheckFrame(s.rows, busy, id, hook, reason);
    case ForkWave(id, kids, mark) => ForkFrame(s.rows, id, kids, mark);
    case Report(id, value, busy, types) => UpdateFrame(s.rows, busy, types, id, value);
    case _ =>
  }

  // ---- conservation of executions ---------------------------------------

  /** Each execution is paid for once: by the creation, by a charged automatic
      retry, or by a manual retry; pending and assigned rows are owed one. */
  ghost predicate Balanced(t: Task, starts: nat, manual: nat) {
    var due := starts + if t.state.Pending? || t.state.Assigned? then 1 else 0;
    if t.state.Cancelled? then due <= 1 + t.retryCount + manual else due == 1 + t.retryCount + manual
  }

  ghost predicate Conserved(s: Sys)
    requires Shaped(s)
  {
    forall i :: 0 <= i < |s.rows| ==> Balanced(s.rows[i], s.hist.starts[i], s.hist.manual[i])
  }

  lemma StepConserves(s: Sys, step: Step)
    requires Shaped(s) && Conserved(s)
    ensures Shaped(Apply(s, step)) && Conserved(Apply(s, step))
  {
    StepShape(s, step);
    var s' := Apply(s, step);
    forall i | 0 <= i < |s'.rows| ensures Balanced(s'.rows[i], s'.hist.starts[i], s'.hist.manual[i]) {
      if i < |s.rows| {
        assert Balanced(s.rows[i], s.hist.starts[i], s.hist.manual[i]);
        RowBalanced(s, step, i);
      } else {
        NewRow(s, step, i);
      }
    }
  }

  /** A row a step appends is fresh, and so is its history. */
  lemma NewRow(s: Sys, step: Step, i: TaskId)
    requires Shaped(s) && |s.rows| <= i < |Apply(s, step).rows|
    ensures Shaped(Apply(s, step))
    ensures var s' := Apply(s, step);
            && FreshRow(s'.rows[i]) && s'.hist.starts[i] == 0 && s'.hist.manual[i] == 0
            && s'.hist.cap[i] == Floor(s'.rows[i].maxRetries)
  {
    StepShape(s, step);
    NewRowFresh(s, step, i);
    NewRowHist(s, step, i);
  }

  lemma NewRowHist(s: Sys, step: Step, i: TaskId)
    requires Shaped(s) && Enabled(s, step) && |s.rows| <= i < |Rows(s, step)|
    ensures var h := Record(s, step);
            && |h.starts| == |h.manual| == |h.cap| == |Rows(s, step)|
            && h.starts[i] == 0 && h.manual[i] == 0 && h.cap[i] == Floor(Rows(s, step)[i].maxRetries)
  {
    var kids := Rows(s, step)[|s.rows|..];
    assert kids[i - |s.rows|] == Rows(s, step)[i];
    OnlyTheseGrow(s, step);
  }

  lemma OnlyTheseGrow(s: Sys, step: Step)
    requires Shaped(s) && Enabled(s, step) && |Rows(s, step)| > |s.rows|
    ensures step.Create? || step.CheckParent? || step.ForkWave?
  {
  }

  lemma NewRowFresh(s: Sys, step: Step, i: TaskId)
    requires Shaped(s) && Enabled(s, step) && |s.rows| <= i < |Rows(s, step)|
    ensures FreshRow(Rows(s, step)[i])
  {
    match step
    case CheckParent(id, busy, hook, reason) => CheckFrame(s.rows, busy, id, hook, reason);
    case ForkWave(id, kids, mark) => ForkFrame(s.rows, id, kids, mark);
    case _ =>
  }

  /** Which rows a step may append, and under which parent. */
  lemma NewParent(s: Sys, step: Step, c: TaskId)
    requires Shaped(s) && Enabled(s, step) && |s.rows| <= c < |Rows(s, step)|
    ensures match step
            case Create(task) => Rows(s, step)[c].parent == task.parent
            case CheckParent(id, busy, hook, reason) => Rows(s, step)[c].parent == Some(id)
            case ForkWave(id, kids, mark) => Rows(s, step)[c].parent == Some(id)
            case _ => false
  {
    match step
    case CheckParent(id, busy, hook, reason) => CheckFrame(s.rows, busy, id, hook, reason);
    case ForkWave(id, kids, mark) => ForkFrame(s.rows, id, kids, mark);
    case _ =>
  }

  lemma RowBalanced(s: Sys, step: Step, i: TaskId)
    requires Shaped(s) && i < |s.rows| && Balanced(s.rows[i], s.hist.starts[i], s.hist.manual[i])
    ensures Shaped(Apply(s, step)) && i < |Apply(s, step).rows|
    ensures var s' := Apply(s, step); Balanced(s'.rows[i], s'.hist.starts[i], s'.hist.manual[i])
  {
    StepShape(s, step);
    if Enabled(s, step) {
      if step.Row? {
        EffectBalanced(step.op, s.rows[step.id], s.hist.starts[step.id], s.hist.manual[step.id], i == step.id);
      } else if step.ClaimTasks? || step.CheckParent? || step.ForkWave? || step.Report? {
        WaveBalanced(s, step, i);
      }
    }
  }

  lemma WaveBalanced(s: Sys, step: Step, i: TaskId)
    requires Shaped(s) && i < |s.rows| && Balanced(s.rows[i], s.hist.starts[i], s.hist.manual[i])
    requires Enabled(s, step) && (step.ClaimTasks? || step.CheckParent? || step.ForkWave? || step.Report?)
    ensures i < |Rows(s, step)| && Balanced(Rows(s, step)[i], s.hist.starts[i], s.hist.manual[i])
  {
    match step
    case ClaimTasks(q, locked, uuids) => ClaimRow(s.rows, q, locked, uuids, i);
    case CheckParent(id, busy, hook, reason) =>
      CheckFrame(s.rows, busy, id, hook, reason);
      CheckSettlesRow(s.rows, busy, id, hook, reason, i);
    case ForkWave(id, kids, mark) => ForkFrame(s.rows, id, kids, mark);
    case Report(id, value, busy, types) => UpdateFrame(s.rows, busy, types, id, value);
  }

  lemma EffectBalanced(op: RowOp, t: Task, starts: nat, manual: nat, relevant: bool)
    requires Effect(op, t).Some? && (relevant ==> Balanced(t, starts, manual))
    ensures relevant ==> Balanced(Effect(op, t).value, starts + if op.Start? then 1 else 0, manual)
  {
  }

  lemma CheckSettlesRow(rows: Table, busy: set<TaskId>, p: TaskId, hook: Hook, reason: Payload, i: TaskId)
    requires p < |rows| && i < |rows| && HookFits(hook, p)
    ensures var t' := Check(rows, busy, p, hook, reason)[i];
            || t'.state == rows[i].state
            || (rows[i].state.Waiting? && t'.state.Terminal())
  {
    CheckFrame(rows, busy, p, hook, reason);
  }

  // ---- the retry budget --------------------------------------------------

  ghost predicate Within(t: Task, cap: nat) {
    t.retryCount <= cap && t.maxRetries <= cap
  }

  ghost predicate Budgeted(s: Sys)
    requires Shaped(s)
  {
    forall i :: 0 <= i < |s.rows| ==> Within(s.rows[i], s.hist.cap[i])
  }

  lemma StepBudgets(s: Sys, step: Step)
    requires Shaped(s) && Budgeted(s)
    ensures Shaped(Apply(s, step)) && Budgeted(Apply(s, step))
  {
    StepShape(s, step);
    var s' := Apply(s, step);
    forall i | 0 <= i < |s'.rows| ensures Within(s'.rows[i], s'.hist.cap[i]) {
      if i < |s.rows| {
        assert Within(s.rows[i], s.hist.cap[i]);
        RowWithin(s, step, i);
      } else {
        NewRow(s, step, i);
      }
    }
  }

  lemma RowWithin(s: Sys, step: Step, i: TaskId)
    requires Shaped(s) && i < |s.rows| && Within(s.rows[i], s.hist.cap[i])
    ensures Shaped(Apply(s, step)) && i < |Apply(s, step).rows|
    ensures Within(Apply(s, step).rows[i], Apply(s, step).hist.cap[i])
  {
    StepShape(s, step);
    if Enabled(s, step) { RowLimits(s, step, i); }
  }

  lemma RowLimits(s: Sys, step: Step, i: TaskId)
    requires Shaped(s) && Enabled(s, step) && i < |s.rows| && i < |Rows(s, step)|
    ensures var t, t' := s.rows[i], Rows(s, step)[i];
            && (t'.retryCount == t.retryCount || (t'.retryCount == t.retryCount + 1 && Budget(t)))
            && t'.maxRetries == if step.Edit? && step.id == i then step.maxRetries else t.maxRetries
  {
    match step
    case ClaimTasks(q, locked, uuids) => ClaimRow(s.rows, q, locked, uuids, i);
    case CheckParent(id, busy, hook, reason) => CheckFrame(s.rows, busy, id, hook, reason);
    case ForkWave(id, kids, mark) => ForkFrame(s.rows, id, kids, mark);
    case Report(id, value, busy, types) => UpdateFrame(s.rows, busy, types, id, value);
    case _ =>
  }

  // ---- one outcome per claim ---------------------------------------------

  /** A row in flight carries an issued runner id that has not been spent, and an
      assigned one an id that has begun nothing. */
  ghost predicate RunnerOk(t: Task, h: Hist) {
    t.state.InFlight() ==>
      && t.runner.Some?
      && t.runner.value in h.issued
      && h.consumed[t.runner.value] == 0
      && (t.state.Assigned? ==> h.begun[t.runner.value] == 0)
  }

  ghost predicate RunnersDistinct(rows: Table) {
    forall i, j :: 0 <= i < j < |rows| && rows[i].state.InFlight() && rows[j].state.InFlight()
      ==> rows[i].runner != rows[j].runner
  }

  /** No runner id is ever begun or spent twice, or before it is issued. */
  ghost predicate UsedOnce(h: Hist) {
    && (forall r :: h.consumed[r] <= 1 && h.begun[r] <= 1)
    && (forall r :: r in h.consumed || r in h.begun ==> r in h.issued)
  }

  ghost predicate Owned(s: Sys) {
    && (forall i :: 0 <= i < |s.rows| ==> RunnerOk(s.rows[i], s.hist))
    && RunnersDistinct(s.rows)
    && UsedOnce(s.hist)
  }

  lemma StepOwns(s: Sys, step: Step)
    requires Shaped(s) && Owned(s)
    ensures Owned(Apply(s, step))
  {
    if Enabled(s, step) {
      match step
      case ClaimTasks(q, locked, uuids) => ClaimOwns(s, q, locked, uuids);
      case Row(op, id) => RowOwns(s, op, id);
      case _ => OthersOwn(s, step);
    }
  }

  /** No other step puts a row in flight or rewrites the runner of one that is. */
  lemma OthersOwn(s: Sys, step: Step)
    requires Shaped(s) && Owned(s) && Enabled(s, step) && !step.Row? && !step.ClaimTasks?
    ensures Owned(Apply(s, step))
  {
    var s' := Apply(s, step);
    assert s'.hist.consumed == s.hist.consumed && s'.hist.begun == s.hist.begun && s'.hist.issued == s.hist.issued;
    forall i: TaskId | i < |s'.rows| && s'.rows[i].state.InFlight()
      ensures i < |s.rows| && s.rows[i].state.InFlight() && s'.rows[i].runner == s.rows[i].runner
      ensures RunnerOk(s'.rows[i], s'.hist)
    {
      StayInFlight(s, step, i);
      assert RunnerOk(s.rows[i], s.hist);
    }
  }

  lemma StayInFlight(s: Sys, step: Step, i: TaskId)
    requires Shaped(s) && Enabled(s, step) && !step.ClaimTasks?
    requires i < |Rows(s, step)| && Rows(s, step)[i].state.InFlight()
    ensures i < |s.rows| && s.rows[i].state.InFlight()
    ensures Rows(s, step)[i].runner == s.rows[i].runner && Rows(s, step)[i].worker == s.rows[i].worker
    ensures Rows(s, step)[i].state.Assigned? ==> s.rows[i].state.Assigned?
  {
    if step.ForkWave? { ForkFrame(s.rows, step.id, step.kids, step.mark); }
    if step.Report? { UpdateFrame(s.rows, step.busy, step.types, step.id, step.value); }
    if step.CheckParent? { CheckInFlight(s.rows, step.busy, step.id, step.hook, step.reason); }
  }

  lemma CheckInFlight(rows: Table, busy: set<TaskId>, p: TaskId, hook: Hook, reason: Payload)
    requires p < |rows| && HookFits(hook, p)
    ensures var rows' := Check(rows, busy, p, hook, reason);
            forall i :: 0 <= i < |rows'| && rows'[i].state.InFlight() ==> i < |rows| && rows'[i] == rows[i]
  {
    CheckFrame(rows, busy, p, hook, reason);
  }

  lemma RowOwns(s: Sys, op: RowOp, id: TaskId)
    requires Shaped(s) && Owned(s) && Enabled(s, Row(op, id))
    ensures Owned(Apply(s, Row(op, id)))
  {
    RowWrote(s, op, id);
    if Final(op) {
      EndOwns(s, Apply(s, Row(op, id)), id);
    } else if op.Start? {
      BeginOwns(s, Apply(s, Row(op, id)), id);
    } else {
      KeepOwns(s, Apply(s, Row(op, id)), id);
    }
  }

  ghost predicate Wrote(s: Sys, s': Sys, id: TaskId) {
    && id < |s.rows| == |s'.rows|
    && s'.rows == s.rows[id := s'.rows[id]]
    && s'.hist.issued == s.hist.issued
    && RunnerOk(s.rows[id], s.hist)
  }

  lemma RowWrote(s: Sys, op: RowOp, id: TaskId)
    requires Shaped(s) && Owned(s) && Enabled(s, Row(op, id))
    ensures var s', t := Apply(s, Row(op, id)), s.rows[id];
            && Wrote(s, s', id) && s'.rows[id] == Effect(op, t).value
            && s'.hist.begun == s.hist.begun + (if op.Start? then multiset{t.runner.value} else multiset{})
            && s'.hist.consumed == s.hist.consumed + (if Final(op) then multiset{t.runner.value} else multiset{})
  {
    assert RunnerOk(s.rows[id], s.hist);
  }

  /** A final write spends the runner of a row it takes out of flight. */
  lemma EndOwns(s: Sys, s': Sys, id: TaskId)
    requires Owned(s) && Wrote(s, s', id) && s.rows[id].state.InFlight() && !s'.rows[id].state.InFlight()
    requires s'.hist.consumed == s.hist.consumed + multiset{s.rows[id].runner.value}
    requires s'.hist.begun == s.hist.begun
    ensures Owned(s')
  {
    forall i | 0 <= i < |s'.rows| ensures RunnerOk(s'.rows[i], s'.hist) { assert RunnerOk(s.rows[i], s.hist); }
  }

  lemma BeginOwns(s: Sys, s': Sys, id: TaskId)
    requires Owned(s) && Wrote(s, s', id) && s.rows[id].state.Assigned? && s'.rows[id].state.Running?
    requires s'.rows[id].runner == s.rows[id].runner
    requires s'.hist.begun == s.hist.begun + multiset{s.rows[id].runner.value}
    requires s'.hist.consumed == s.hist.consumed
    ensures Owned(s')
  {
    forall i | 0 <= i < |s'.rows| ensures RunnerOk(s'.rows[i], s'.hist) { assert RunnerOk(s.rows[i], s.hist); }
  }

  lemma KeepOwns(s: Sys, s': Sys, id: TaskId)
    requires Owned(s) && Wrote(s, s', id)
    requires s'.rows[id].state.InFlight() ==>
               s.rows[id].state.InFlight() && s'.rows[id].runner == s.rows[id].runner && !s'.rows[id].state.Assigned?
    requires s'.hist.begun == s.hist.begun && s'.hist.consumed == s.hist.consumed
    ensures Owned(s')
  {
    forall i | 0 <= i < |s'.rows| ensures RunnerOk(s'.rows[i], s'.hist) { assert RunnerOk(s.rows[i], s.hist); }
  }

  lemma ClaimOwns(s: Sys, q: Query, locked: set<TaskId>, uuids: seq<RunnerId>)
    requires Shaped(s) && Owned(s) && Enabled(s, ClaimTasks(q, locked, uuids))
    ensures Owned(Apply(s, ClaimTasks(q, locked, uuids)))
  {
    var s' := Apply(s, ClaimTasks(q, locked, uuids));
    var p := Picked(s.rows, q, locked);
    PickedDistinct(s.rows, q, locked);
    forall i: TaskId | i < |s.rows| ensures ClaimedOrKept(s.rows, s'.rows, p, uuids, i) {
      ClaimRow(s.rows, q, locked, uuids, i);
    }
    IssueOwns(s, s', p, uuids);
  }

  ghost predicate ClaimedOrKept(rows: Table, rows': Table, p: seq<TaskId>, uuids: seq<RunnerId>, i: TaskId)
    requires i < |rows| == |rows'| && |p| == |uuids|
  {
    if i in p then exists k :: 0 <= k < |p| && p[k] == i && rows'[i].runner == Some(uuids[k]) else rows'[i] == rows[i]
  }

  /** Issuing distinct runner ids never issued before keeps ownership exclusive. */
  lemma IssueOwns(s: Sys, s': Sys, p: seq<TaskId>, uuids: seq<RunnerId>)
    requires Owned(s) && |s'.rows| == |s.rows| && |p| == |uuids| && Distinct(uuids)
    requires forall u :: u in uuids ==> u !in s.hist.issued
    requires s'.hist.consumed == s.hist.consumed && s'.hist.begun == s.hist.begun
    requires s'.hist.issued == s.hist.issued + set u | u in uuids
    requires forall i: TaskId :: i < |s.rows| ==> ClaimedOrKept(s.rows, s'.rows, p, uuids, i)
    ensures Owned(s')
  {
    forall i: TaskId | i < |s'.rows| ensures RunnerOk(s'.rows[i], s'.hist) {
      assert ClaimedOrKept(s.rows, s'.rows, p, uuids, i) && RunnerOk(s.rows[i], s.hist);
      assert forall k :: 0 <= k < |uuids| ==> uuids[k] in uuids;
    }
    forall i: TaskId, j: TaskId | i < j < |s'.rows| && s'.rows[i].state.InFlight() && s'.rows[j].state.InFlight()
      ensures s'.rows[i].runner != s'.rows[j].runner
    {
      assert ClaimedOrKept(s.rows, s'.rows, p, uuids, i) && RunnerOk(s.rows[i], s.hist);
      assert ClaimedOrKept(s.rows, s'.rows, p, uuids, j) && RunnerOk(s.rows[j], s.hist);
      assert forall k :: 0 <= k < |uuids| ==> uuids[k] in uuids;
    }
  }

  // ---- unique keys -------------------------------------------------------

  /** At most one active row per unique_key. */
  ghost predicate KeysUnique(rows: Table) {
    forall i, j :: 0 <= i < j < |rows| && rows[i].state.Active() && rows[j].state.Active() && rows[i].uniqueKey.Some?
      ==> rows[i].uniqueKey != rows[j].uniqueKey
  }

  lemma StepKeys(s: Sys, step: Step)
    requires Shaped(s) && KeysUnique(s.rows)
    ensures KeysUnique(Apply(s, step).rows)
  {
    if Enabled(s, step) {
      if step.Create? || step.ManualRetry? || step.RetryFailed? {
        ActivationsKeepKeys(s, step);
      } else {
        OthersKeepKeys(s, step);
      }
    }
  }

  /** The three writes that make a row active pass through the index. */
  lemma ActivationsKeepKeys(s: Sys, step: Step)
    requires Shaped(s) && KeysUnique(s.rows) && Enabled(s, step)
    requires step.Create? || step.ManualRetry? || step.RetryFailed?
    ensures KeysUnique(Rows(s, step))
  {
  }

  lemma OthersKeepKeys(s: Sys, step: Step)
    requires Shaped(s) && KeysUnique(s.rows) && Enabled(s, step)
    requires !step.Create? && !step.ManualRetry? && !step.RetryFailed?
    ensures KeysUnique(Rows(s, step))
  {
    StepShape(s, step);
    forall i | 0 <= i < |Rows(s, step)| && Rows(s, step)[i].state.Active()
      ensures i < |s.rows| ==> s.rows[i].state.Active()
      ensures i >= |s.rows| ==> Rows(s, step)[i].uniqueKey.None?
    {
      StayActive(s, step, i);
    }
  }

  lemma StayActive(s: Sys, step: Step, i: TaskId)
    requires Shaped(s) && Enabled(s, step) && !step.Create? && !step.ManualRetry? && !step.RetryFailed?
    requires i < |Rows(s, step)| && Rows(s, step)[i].state.Active()
    ensures i < |s.rows| ==> s.rows[i].state.Active()
    ensures i >= |s.rows| ==> Rows(s, step)[i].uniqueKey.None?
  {
    match step
    case ClaimTasks(q, locked, uuids) => ClaimRow(s.rows, q, locked, uuids, i);
    case CheckParent(id, busy, hook, reason) => CheckFrame(s.rows, busy, id, hook, reason);
    case ForkWave(id, kids, mark) => ForkFrame(s.rows, id, kids, mark);
    case Report(id, value, busy, types) => UpdateFrame(s.rows, busy, types, id, value);
    case _ =>
  }

  // ---- singleton types ---------------------------------------------------

  /** Every claim of the run enforces the singleton clauses for these types. */
  predicate Guards(step: Step, singles: set<string>) {
    step.ClaimTasks? ==> singles <= step.q.singles
  }

  ghost predicate Exclusive(rows: Table, singles: set<string>) {
    forall code :: code in singles ==> AtMostOne(rows, code)
  }

  lemma StepExcludes(s: Sys, step: Step, singles: set<string>)
    requires Shaped(s) && Exclusive(s.rows, singles) && Guards(step, singles)
    ensures Exclusive(Apply(s, step).rows, singles)
  {
    forall code | code in singles ensures AtMostOne(Apply(s, step).rows, code) {
      assert AtMostOne(s.rows, code);
      if Enabled(s, step) {
        match step
        case ClaimTasks(q, locked, uuids) => ClaimKeepsSingleton(s.rows, q, locked, uuids, code);
        case _ => OthersExclude(s, step, code);
      }
    }
  }

  lemma OthersExclude(s: Sys, step: Step, code: string)
    requires Shaped(s) && Enabled(s, step) && !step.ClaimTasks? && AtMostOne(s.rows, code)
    ensures AtMostOne(Rows(s, step), code)
  {
    StepShape(s, step);
    forall i | 0 <= i < |Rows(s, step)| && Rows(s, step)[i].state.InFlight()
      ensures i < |s.rows| && s.rows[i].state.InFlight() && Rows(s, step)[i].typeCode == s.rows[i].typeCode
    {
      StayInFlight(s, step, i);
    }
  }

  /** Done and cancelled rows never change state again, nor what they report. */
  lemma StepSettled(s: Sys, step: Step, i: TaskId)
    requires Shaped(s) && i < |s.rows| && (s.rows[i].state.Done? || s.rows[i].state.Cancelled?)
    ensures i < |Apply(s, step).rows|
    ensures Apply(s, step).rows[i].state == s.rows[i].state
    ensures Apply(s, step).rows[i].result == s.rows[i].result && Apply(s, step).rows[i].error == s.rows[i].error
  {
    StepShape(s, step);
    if Enabled(s, step) { SettledRow(s, step, i); }
  }

  lemma SettledRow(s: Sys, step: Step, i: TaskId)
    requires Shaped(s) && Enabled(s, step)
    requires i < |s.rows| && (s.rows[i].state.Done? || s.rows[i].state.Cancelled?)
    ensures i < |Rows(s, step)|
    ensures var t' := Rows(s, step)[i];
            t'.state == s.rows[i].state && t'.result == s.rows[i].result && t'.error == s.rows[i].error
  {
    match step
    case ClaimTasks(q, locked, uuids) => ClaimRow(s.rows, q, locked, uuids, i);
    case CheckParent(id, busy, hook, reason) => CheckFrame(s.rows, busy, id, hook, reason);
    case ForkWave(id, kids, mark) => ForkFrame(s.rows, id, kids, mark);
    case Report(id, value, busy, types) => UpdateFrame(s.rows, busy, types, id, value);
    case _ =>
  }

  // ---- progress --------------------------------------------------------------

  lemma StepInRange(s: Sys, step: Step)
    requires Shaped(s) && InRange(s.rows)
    ensures InRange(Apply(s, step).rows)
  {
    StepShape(s, step);
    if Enabled(s, step) {
      if step.Report? {
        UpdateInRange(s.rows, step.busy, step.types, step.id, step.value);
      } else {
        forall i | 0 <= i < |Rows(s, step)| ensures 0 <= Rows(s, step)[i].progress <= 100 { RowInRange(s, step, i); }
      }
    }
  }

  lemma RowInRange(s: Sys, step: Step, i: TaskId)
    requires Shaped(s) && Enabled(s, step) && !step.Report? && InRange(s.rows) && i < |Rows(s, step)|
    ensures 0 <= Rows(s, step)[i].progress <= 100
  {
    if i >= |s.rows| {
      NewRowFresh(s, step, i);
    } else {
      match step
      case ClaimTasks(q, locked, uuids) => ClaimRow(s.rows, q, locked, uuids, i);
      case CheckParent(id, busy, hook, reason) => CheckFrame(s.rows, busy, id, hook, reason);
      case ForkWave(id, kids, mark) => ForkFrame(s.rows, id, kids, mark);
      case _ =>
    }
  }

  // ---- runs ----------------------------------------------------------------

  ghost function Init(): Sys {
    Sys([], Hist({}, multiset{}, multiset{}, [], [], []))
  }

  ghost predicate Inv(s: Sys) {
    Shaped(s) && Conserved(s) && Budgeted(s) && Owned(s) && KeysUnique(s.rows) && InRange(s.rows)
  }

  lemma StepInv(s: Sys, step: Step)
    requires Inv(s)
    ensures Inv(Apply(s, step))
  {
    StepConserves(s, step);
    StepBudgets(s, step);
    StepOwns(s, step);
    StepKeys(s, step);
    StepInRange(s, step);
  }

  /** The state after a run, from any state of the right shape. */
  ghost function Run(s: Sys, steps: seq<Step>): (r: Sys)
    requires Shaped(s)
    ensures Shaped(r) && |r.rows| >= |s.rows|
    decreases |steps|
  {
    if steps == [] then s
    else
      var before := Run(s, steps[..|steps| - 1]);
      StepShape(before, steps[|steps| - 1]);
      Apply(before, steps[|steps| - 1])
  }

  lemma {:induction false} RunInv(s: Sys, steps: seq<Step>)
    requires Inv(s)
    ensures Inv(Run(s, steps))
    decreases |steps|
  {
    if steps != [] {
      RunInv(s, steps[..|steps| - 1]);
      StepInv(Run(s, steps[..|steps| - 1]), steps[|steps| - 1]);
    }
  }

  ghost function Reach(steps: seq<Step>): (r: Sys)
    ensures Shaped(r)
  {
    Run(Init(), steps)
  }

  lemma RunOneMore(steps: seq<Step>, step: Step)
    ensures Reach(steps + [step]) == Apply(Reach(steps), step)
  {
    assert (steps + [step])[..|steps|] == steps;
  }

  lemma ReachInv(steps: seq<Step>)
    ensures Inv(Reach(steps))
  {
    RunInv(Init(), steps);
  }

  /** The state just before the k-th step of a run. */
  ghost function At(steps: seq<Step>, k: nat): (r: Sys)
    requires k <= |steps|
    ensures Shaped(r)
  {
    Reach(steps[..k])
  }

  lemma NextAt(steps: seq<Step>, k: nat)
    requires k < |steps|
    ensures At(steps, k + 1) == Apply(At(steps, k), steps[k])
    ensures |At(steps, k).rows| <= |At(steps, k + 1).rows|
  {
    assert steps[..k + 1][..k] == steps[..k];
    StepShape(At(steps, k), steps[k]);
  }

  predicate RisesAt(counts: seq<nat>, k: nat)
    requires k + 1 < |counts|
  {
    counts[k] <= counts[k + 1]
  }

  lemma {:induction false} NeverFalls(counts: seq<nat>, a: nat, b: nat)
    requires a <= b < |counts|
    requires forall k :: 0 <= k < |counts| - 1 ==> RisesAt(counts, k)
    ensures counts[a] <= counts[b]
    decreases b - a
  {
    if a < b {
      NeverFalls(counts, a, b - 1);
      assert RisesAt(counts, b - 1);
    }
  }
}
