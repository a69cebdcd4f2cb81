/** The task model's actions, written as the code runs them on stored rows, each
    proved against the table function the protocol uses for it. */
module TaskTable {
  import opened Optional
  import opened TaskModel
  import opened TaskOrder
  import opened Claiming
  import opened Cascade
  import opened Progress
  import opened WaitingParent
  import opened Recovery
  import P = Protocol
  import Phases = Pipeline

  /** How a guarded action ended: written, dropped by the zombie guard, or
      refused by the transition check. */
  datatype Verdict = Accepted | Dropped | Refused

  /** How execute() ended. */
  datatype Execution = Succeeded(value: Option<Payload>) | Raised(known: bool, retryAt: Option<int>, trace: Payload)

  datatype Creation = Created(id: TaskId) | Reused(id: TaskId) | AlreadyScheduled(id: TaskId) | UniqueViolation

  /** The table a list of ids leaves when every listed row is charged a retry. */
  function ChargeAll(rows: Table, ids: seq<TaskId>, etaOf: Task -> Option<int>): (r: Table)
    ensures |r| == |rows|
  {
    seq(|rows|, i requires 0 <= i < |rows| => if i in ids then Charged(rows[i], etaOf(rows[i])) else rows[i])
  }

  function ResetAll(rows: Table, ids: seq<TaskId>, eta: Option<int>): (r: Table)
    ensures |r| == |rows|
  {
    seq(|rows|, i requires 0 <= i < |rows| => if i in ids then Reset(rows[i], eta) else rows[i])
  }

  /** Cancelling a row without active children cancels just that row. */
  lemma CancelLeaf(rows: Table, p: TaskId)
    requires p < |rows| && !ActiveKid(rows, p)
    ensures Cancel(rows, {p}) == rows[p := ToCancelled(rows[p])]
  {
    forall x | 0 <= x < |rows| ensures Reached(rows, {p}, x) <==> x == p {
      OnlyLeaf(rows, p, x);
    }
  }

  lemma {:induction false} OnlyLeaf(rows: Table, p: TaskId, x: TaskId)
    requires p < |rows| && !ActiveKid(rows, p) && x < |rows|
    ensures Reached(rows, {p}, x) <==> x == p
    decreases x
  {
    if x != p && rows[x].parent.Some? && rows[x].parent.value < x {
      OnlyLeaf(rows, p, rows[x].parent.value);
      if rows[x].parent.value == p && rows[x].state.Active() {
        assert ChildOf(rows, x, p);
        assert false;
      }
    }
  }

  /** A table assembled row by row as the claim demands is the claim's table. */
  lemma ClaimAssembled(rows: Table, rows': Table, q: Query, locked: set<TaskId>, uuids: seq<RunnerId>)
    requires |Picked(rows, q, locked)| <= |uuids| && |rows'| == |rows|
    requires forall l :: 0 <= l < |Picked(rows, q, locked)| ==>
               rows'[Picked(rows, q, locked)[l]] == Assign(rows[Picked(rows, q, locked)[l]], q.worker, uuids[l])
    requires forall i :: 0 <= i < |rows| && i !in Picked(rows, q, locked) ==> rows'[i] == rows[i]
    ensures rows' == Claim(rows, q, locked, uuids)
  {
    var p := Picked(rows, q, locked);
    PickedDistinct(rows, q, locked);
    AssignAllAt(rows, p, q.worker, uuids);
    forall i | 0 <= i < |rows| ensures rows'[i] == Claim(rows, q, locked, uuids)[i] {
      if i in p { var l :| 0 <= l < |p| && p[l] == i; }
    }
  }

  /** Waiting rows of a worker record un-owned. */
  function Disowned(rows: Table, worker: WorkerId): (r: Table)
    ensures |r| == |rows|
  {
    seq(|rows|, i requires 0 <= i < |rows| =>
      if rows[i].worker == Some(worker) && rows[i].state.Waiting? then rows[i].(worker := None) else rows[i])
  }

  /** Un-owning the waiting rows and then recovering the in-flight ones is the cleanup. */
  lemma CleanupInTwo(rows: Table, worker: WorkerId, lost: seq<TaskId>, blocked: set<TaskId>, terms: Terms)
    requires forall i :: i in lost <==> 0 <= i < |rows| && rows[i].worker == Some(worker) && rows[i].state.InFlight()
    ensures RecoverAll(Disowned(rows, worker), lost, blocked, terms) == Cleanup(rows, worker, blocked, terms)
  {
  }

  /** Distinct failed rows with the retry-any policy and budget left. */
  ghost predicate AutoRetryable(rows: Table, found: seq<TaskId>) {
    && Ids(rows, found)
    && (forall k, l :: 0 <= k < l < |found| ==> found[k] != found[l])
    && forall i :: i in found ==> rows[i].state.Failed? && rows[i].policy.RetryAny? && Budget(rows[i])
  }

  /** Distinct failed rows. */
  ghost predicate AllFailed(rows: Table, ids: seq<TaskId>) {
    && Ids(rows, ids)
    && (forall k, l :: 0 <= k < l < |ids| ==> ids[k] != ids[l])
    && forall l :: 0 <= l < |ids| ==> rows[ids[l]].state.Failed?
  }

  /** Unlocked failed rows the sweep of a worker may requeue. */
  function Retriable(rows: Table, locked: set<TaskId>, channels: set<string>, types: set<string>): set<TaskId> {
    set i: TaskId | 0 <= i < |rows| && i !in locked
                    && rows[i].state.Failed? && rows[i].policy.RetryAny? && Budget(rows[i])
                    && rows[i].channel in channels && rows[i].typeCode in types
  }

  /** The sweep may take exactly the unlocked failed rows of its channels and types that
      are not dead, those whose waiting parent is kept waiting for them. */
  lemma RetriableIsNotDead(rows: Table, locked: set<TaskId>, channels: set<string>, types: set<string>, i: TaskId)
    ensures i in Retriable(rows, locked, channels, types)
            <==> i < |rows| && rows[i].state == Failed && !Dead(rows[i]) && i !in locked
                 && rows[i].channel in channels && rows[i].typeCode in types
  {
  }

  /** Any n members of a set, or all of them. */
  method PickSome(from: set<TaskId>, n: nat) returns (ids: seq<TaskId>)
    ensures forall i :: i in ids ==> i in from
    ensures forall k, l :: 0 <= k < l < |ids| ==> ids[k] != ids[l]
    ensures |ids| == if |from| > n then n else |from|
  {
    ids := [];
    var rest := from;
    while rest != {} && |ids| < n
      invariant |ids| <= n && |ids| + |rest| == |from| && rest <= from
      invariant forall i :: i in ids ==> i in from && i !in rest
      invariant forall k, l :: 0 <= k < l < |ids| ==> ids[k] != ids[l]
      decreases |rest|
    {
      var i :| i in rest;
      ids := ids + [i];
      rest := rest - {i};
    }
  }

  lemma QueueDistinct(rows: Table, found: set<TaskId>)
    requires forall i :: i in found ==> i < |rows|
    ensures var q := Queue(rows, found);
            && Ids(rows, q) && (forall i :: i in q <==> i in found)
            && forall k, l :: 0 <= k < l < |q| ==> q[k] != q[l]
  {
    QueueSorted(rows, found);
    SortedDistinct(rows, Queue(rows, found));
  }

  /** Rows a cancellation can still change. */
  function Uncancelled(rows: Table): set<TaskId> {
    set i: TaskId | 0 <= i < |rows| && !rows[i].state.Cancelled?
  }

  class TaskTable {
    var rows: Table
    /** Rows other transactions hold locked at this moment. */
    var locked: set<TaskId>
    /** Type codes with propagate_progress set. */
    const propagating: set<string>

    constructor (propagating: set<string>)
      ensures rows == [] && locked == {} && this.propagating == propagating
    {
      rows, locked := [], {};
      this.propagating := propagating;
    }

    // ---- finalization guard -------------------------------------------------

    method AcquireFinalization(id: TaskId, runner: Option<RunnerId>, worker: Option<WorkerId>, orAssigned: bool)
      returns (acquired: bool)
      requires id < |rows|
      ensures acquired <==> id !in locked && Owns(rows[id], runner, worker, orAssigned)
    {
      var t := rows[id];
      if !Owns(t, runner, worker, orAssigned) {
        return false;
      }
      acquired := id !in locked;
    }

    method OwnsExecution(id: TaskId, runner: Option<RunnerId>) returns (proceed: bool)
      requires id < |rows|
      ensures proceed <==> runner.None? || (id !in locked && Owns(rows[id], runner, None, false))
    {
      if runner.None? {
        return true;
      }
      proceed := AcquireFinalization(id, runner, None, false);
    }

    // ---- state actions ------------------------------------------------------

    method ActionStart(id: TaskId) returns (ok: bool)
      requires id < |rows|
      modifies this`rows
      ensures forall thread :: ok <==> Effect(Start(thread), old(rows)[id]).Some?
      ensures forall thread ::
                rows == if ok then old(rows)[id := Effect(Start(thread), old(rows)[id]).value] else old(rows)
    {
      if !Allowed(rows[id].state, Running) {
        return false;
      }
      rows := rows[id := rows[id].(state := Running, progress := 0)];
      ok := true;
    }

    method ActionStuck(id: TaskId) returns (ok: bool)
      requires id < |rows|
      modifies this`rows
      ensures ok <==> Effect(MarkStuck, old(rows)[id]).Some?
      ensures rows == if ok then old(rows)[id := Effect(MarkStuck, old(rows)[id]).value] else old(rows)
    {
      if !Allowed(rows[id].state, Stuck) {
        return false;
      }
      rows := rows[id := rows[id].(state := Stuck)];
      ok := true;
    }

    method ActionWaitChildren(id: TaskId) returns (ok: bool)
      requires id < |rows|
      modifies this`rows
      ensures ok <==> Effect(Park, old(rows)[id]).Some?
      ensures rows == if ok then old(rows)[id := Effect(Park, old(rows)[id]).value] else old(rows)
    {
      if !Allowed(rows[id].state, Waiting) {
        return false;
      }
      rows := rows[id := rows[id].(state := Waiting)];
      ok := true;
    }

    method ActionDone(id: TaskId, value: Option<Payload>, runner: Option<RunnerId>) returns (v: Verdict)
      requires id < |rows|
      modifies this`rows
      ensures v.Dropped? <==> runner.Some? && (id in locked || !Owns(old(rows)[id], runner, None, false))
      ensures v.Refused? <==> !v.Dropped? && !Allowed(old(rows)[id].state, Done)
      ensures rows == if v.Accepted? then old(rows)[id := ToDone(old(rows)[id], value)] else old(rows)
    {
      var proceed := OwnsExecution(id, runner);
      if !proceed {
        return Dropped;
      }
      if !Allowed(rows[id].state, Done) {
        return Refused;
      }
      rows := rows[id := rows[id].(state := Done, result := value, progress := 100)];
      v := Accepted;
    }

    method ActionFail(id: TaskId, error: Payload, runner: Option<RunnerId>) returns (v: Verdict)
      requires id < |rows|
      modifies this`rows
      ensures v.Dropped? <==> runner.Some? && (id in locked || !Owns(old(rows)[id], runner, None, false))
      ensures v.Refused? <==> !v.Dropped? && !Allowed(old(rows)[id].state, Failed)
      ensures rows == if v.Accepted? then old(rows)[id := ToFailed(old(rows)[id], error)] else old(rows)
    {
      var proceed := OwnsExecution(id, runner);
      if !proceed {
        return Dropped;
      }
      if !Allowed(rows[id].state, Failed) {
        return Refused;
      }
      rows := rows[id := rows[id].(state := Failed, error := Some(error))];
      v := Accepted;
    }

    /** No transition check here: an automatic retry may leave `running` for `pending`. */
    method ActionAutoRetry(id: TaskId, eta: Option<int>, runner: Option<RunnerId>) returns (requeued: bool)
      requires id < |rows|
      modifies this`rows
      ensures requeued <==> runner.None? || (id !in locked && Owns(old(rows)[id], runner, None, false))
      ensures rows == if requeued then old(rows)[id := Charged(old(rows)[id], eta)] else old(rows)
    {
      requeued := OwnsExecution(id, runner);
      if requeued {
        var t := rows[id];
        rows := rows[id := t.(state := Pending, worker := None, runner := None, error := None,
                              progress := 0, eta := eta, retryCount := t.retryCount + 1)];
      }
    }

    method ActionRequeue(id: TaskId) returns (ok: bool)
      requires id < |rows|
      modifies this`rows
      ensures ok <==> Allowed(old(rows)[id].state, Pending)
      ensures rows == if ok then old(rows)[id := Unclaimed(old(rows)[id])] else old(rows)
    {
      if !Allowed(rows[id].state, Pending) {
        return false;
      }
      rows := rows[id := rows[id].(state := Pending, worker := None, runner := None)];
      ok := true;
    }

    /** Manual retry of a recordset: all or nothing. A row that is not failed, or a key
        the unique index does not admit, rolls everything back. */
    method ActionRetry(ids: seq<TaskId>, eta: Option<int>) returns (ok: bool)
      requires Ids(rows, ids)
      requires forall k, l :: 0 <= k < l < |ids| ==> ids[k] != ids[l]
      modifies this`rows
      ensures ok <==> AllFailed(old(rows), ids) && P.KeysUnique(ResetAll(old(rows), ids, eta))
      ensures rows == if ok then ResetAll(old(rows), ids, eta) else old(rows)
    {
      var saved := rows;
      var k := 0;
      assert rows == ResetAll(saved, [], eta);
      while k < |ids|
        invariant 0 <= k <= |ids|
        invariant forall l :: 0 <= l < k ==> saved[ids[l]].state.Failed?
        invariant rows == ResetAll(saved, ids[..k], eta)
      {
        var id := ids[k];
        assert id in ids && id !in ids[..k];
        if !rows[id].state.Failed? {
          rows := saved;
          return false;
        }
        rows := rows[id := Reset(rows[id], eta)];
        assert ids[..k + 1] == ids[..k] + [id];
        k := k + 1;
      }
      assert ids[..k] == ids;
      ok := IndexAdmits();
      if !ok {
        rows := saved;
      }
    }

    // ---- what a task thread writes --------------------------------------------

    /** The end of a task thread, with the runner id captured at claim time. */
    method FinishThread(id: TaskId, runner: RunnerId, run: Execution)
      requires id < |rows|
      modifies this`rows
      ensures var op := match run
                        case Succeeded(value) => ThreadDone(runner, value)
                        case Raised(known, retryAt, trace) => ThreadRaised(runner, known, retryAt, trace);
              rows == if id !in locked && Effect(op, old(rows)[id]).Some?
                      then old(rows)[id := Effect(op, old(rows)[id]).value] else old(rows)
    {
      match run
      case Succeeded(value) =>
        if rows[id].state.Waiting? {
          return;
        }
        var v := ActionDone(id, value, Some(runner));
      case Raised(known, retryAt, trace) =>
        var t := rows[id];
        if ShouldAutoRetry(t.policy, known) && t.retryCount < t.maxRetries {
          var requeued := ActionAutoRetry(id, retryAt, Some(runner));
          return;
        }
        var v := ActionFail(id, trace, Some(runner));
    }

    // ---- lost executions --------------------------------------------------------

    method HandleLostExecution(id: TaskId, reason: Payload, retryAt: Option<int>,
                               runner: Option<RunnerId>, worker: Option<WorkerId>)
      requires id < |rows|
      modifies this`rows
      ensures var e := Effect(Lost(runner, worker, retryAt, reason), old(rows)[id]);
              rows == if id !in locked && e.Some? then old(rows)[id := e.value] else old(rows)
    {
      var acquired := AcquireFinalization(id, runner, worker, true);
      if !acquired {
        return;
      }
      var t := rows[id];
      if t.state.Assigned? {
        var ok := ActionRequeue(id);
        return;
      }
      if !t.policy.NoRetry? && t.retryCount < t.maxRetries {
        var requeued := ActionAutoRetry(id, retryAt, None);
        return;
      }
      rows := rows[id := rows[id].(runner := None)];
      var v := ActionFail(id, reason, None);
    }

    /** Each row is recovered in a savepoint of its own; `raising` are the rows
        whose recovery raises and is rolled back. */
    method RecoverLostExecutions(ids: seq<TaskId>, raising: set<TaskId>, terms: Terms)
      requires Ids(rows, ids)
      requires forall k, l :: 0 <= k < l < |ids| ==> ids[k] != ids[l]
      modifies this`rows
      ensures rows == RecoverAll(old(rows), ids, locked + raising, terms)
    {
      var k := 0;
      assert rows == RecoverAll(old(rows), [], locked + raising, terms);
      while k < |ids|
        invariant 0 <= k <= |ids|
        invariant rows == RecoverAll(old(rows), ids[..k], locked + raising, terms)
      {
        var id := ids[k];
        assert id in ids && id !in ids[..k];
        if id !in raising {
          var t := rows[id];
          HandleLostExecution(id, terms.reason, terms.retryAt(t), t.runner, t.worker);
        }
        assert ids[..k + 1] == ids[..k] + [id];
        k := k + 1;
      }
      assert ids[..k] == ids;
    }

    /** One periodic sweep over the workers marked dead. */
    method RecoverDeadWorkerTasks(dead: set<WorkerId>, raising: set<TaskId>, terms: Terms)
      modifies this`rows
      ensures rows == Sweep(old(rows), dead, locked + raising, terms)
    {
      var found := Window(rows, dead);
      WindowDistinct(rows, dead);
      RecoverLostExecutions(found, raising, terms);
    }

    /** Startup of a worker record: its previous run is gone. */
    method CleanupOrphanedTasks(worker: WorkerId, raising: set<TaskId>, terms: Terms)
      modifies this`rows
      ensures rows == Cleanup(old(rows), worker, locked + raising, terms)
    {
      var found := set i: TaskId | 0 <= i < |rows| && rows[i].worker == Some(worker) && rows[i].state.InFlight();
      var lost := Queue(rows, found);
      QueueDistinct(rows, found);
      CleanupInTwo(rows, worker, lost, locked + raising, terms);
      rows := Disowned(rows, worker);
      RecoverLostExecutions(lost, raising, terms);
    }

    // ---- cancellation -----------------------------------------------------------

    /** Cancels the recordset, then its active children, level by level. */
    method ActionCancel(ids: set<TaskId>) returns (ok: bool)
      requires Forest(rows) && forall i :: i in ids ==> i < |rows|
      modifies this`rows
      ensures ok <==> Cancellable(old(rows), ids)
      ensures rows == if ok then Cancel(old(rows), ids) else old(rows)
      decreases Uncancelled(rows)
    {
      if exists i :: i in ids && !Allowed(rows[i].state, Cancelled) {
        return false;
      }
      CancelStep(rows, ids);
      rows := Level(rows, ids);
      var children := NextLevel(rows, ids);
      if children != {} {
        NextLevelCancellable(rows, ids);
        var i :| i in children;
        var p := rows[i].parent.value;
        assert p in Uncancelled(old(rows)) && p !in Uncancelled(rows);
        var below := ActionCancel(children);
      } else {
        CancelNothing(rows);
      }
      ok := true;
    }

    // ---- waiting parents ----------------------------------------------------------

    method SpawnChildren(p: TaskId, kids: seq<Task>)
      requires p < |rows|
      modifies this`rows
      ensures rows == old(rows) + kids
    {
      rows := rows + kids;
    }

    method CheckWaitingParent(p: TaskId, hook: Hook, reason: Payload)
      requires p < |rows| && HookFits(hook, p) && Forest(rows)
      modifies this`rows
      ensures rows == Check(old(rows), locked, p, hook, reason)
    {
      if p in locked || !rows[p].state.Waiting? {
        return;
      }
      var children := set c: TaskId | 0 <= c < |rows| && rows[c].parent == Some(p);
      assert forall c :: c in children <==> ChildOf(rows, c, p);
      if children == {} {
        var v := ActionDone(p, None, None);
        return;
      }
      if exists c :: c in children && rows[c].state.Active() {
        return;
      }
      if exists c :: c in children && Dead(rows[c]) {
        var v := ActionFail(p, reason, None);
        return;
      }
      if exists c :: c in children && rows[c].state.Failed? {
        return;
      }
      CompleteParent(p, hook, reason);
    }

    /** All children are done or cancelled: run the hook and act on its outcome. */
    method CompleteParent(p: TaskId, hook: Hook, reason: Payload)
      requires p < |rows| && HookFits(hook, p) && Forest(rows)
      requires p !in locked && rows[p].state.Waiting?
      requires SomeKid(rows, p) && !ActiveKid(rows, p) && !DeadKid(rows, p) && !FailedKid(rows, p)
      modifies this`rows
      ensures rows == Check(old(rows), locked, p, hook, reason)
    {
      match hook
      case Returned(kids, mark, value) =>
        var first := |rows|;
        SpawnChildren(p, kids);
        rows := rows[p := Marked(rows[p], mark, Span(first, |kids|))];
        assert kids != [] ==> rows[first].parent == Some(p) && rows[first].state.Active();
        if exists c: TaskId :: 0 <= c < |rows| && rows[c].parent == Some(p) && rows[c].state.Active() {
          return;
        }
        var v := ActionDone(p, value, None);
      case MovedOut(end) =>
        match end {
          case ByDone(value) => var v := ActionDone(p, value, None);
          case ByFail => var v := ActionFail(p, reason, None);
          case ByCancel =>
            CancelLeaf(rows, p);
            var ok := ActionCancel({p});
        }
      case AsksRetry =>
      case Transient =>
      case Broken =>
        var v := ActionFail(p, reason, None);
    }

    // ---- pipelines -------------------------------------------------------------------

    /** _start_wave: spawn the first phase at or after phaseIndex that yields
        children, record it, and park the task. When planning raises, or parking is
        refused because the task is neither running nor waiting any more (stuck or
        cancelled meanwhile, say), the error propagates and everything rolls back. */
    method StartWave(p: TaskId, phaseIndex: nat, plans: seq<Phases.Plan>) returns (found: Phases.Found, ok: bool)
      requires p < |rows| && Phases.PlansFit(plans, |plans|, p)
      modifies this`rows
      ensures found == Phases.FirstWave(plans, phaseIndex)
      ensures ok <==> found.NoMore? || (found.WaveAt? && (old(rows)[p].state.Running? || old(rows)[p].state.Waiting?))
      ensures !ok ==> rows == old(rows)
      ensures ok && found.WaveAt? ==> rows == Fork(old(rows), p, plans[found.phase].kids, WaveOf(found.phase))
      ensures found.NoMore? ==>
                rows == old(rows)[p := old(rows)[p].(phase := if phaseIndex < |plans| then |plans| else phaseIndex)]
    {
      var saved := rows;
      var k := phaseIndex;
      while k < |plans|
        invariant phaseIndex <= k
        invariant if phaseIndex <= |plans| then k <= |plans| else k == phaseIndex
        invariant rows == old(rows)
        invariant Phases.FirstWave(plans, phaseIndex) == Phases.FirstWave(plans, k)
      {
        if plans[k].Raise? {
          return Phases.RaisedAt(k), false;
        }
        var specs := plans[k].kids;
        if specs != [] {
          var first := |rows|;
          SpawnChildren(p, specs);
          rows := rows[p := rows[p].(phase := k, wave := Span(first, |specs|))];
          ok := true;
          if !rows[p].state.Waiting? {
            ok := ActionWaitChildren(p);
          }
          if !ok {
            rows := saved;
          }
          return Phases.WaveAt(k), ok;
        }
        k := k + 1;
      }
      rows := rows[p := rows[p].(phase := k)];
      return Phases.NoMore, true;
    }

    // ---- claiming ----------------------------------------------------------------------

    method ActionAssign(ids: seq<TaskId>, worker: WorkerId) returns (ok: bool)
      requires Ids(rows, ids)
      modifies this`rows
      ensures ok <==> forall l :: 0 <= l < |ids| ==> old(rows)[ids[l]].state.Pending?
      ensures |rows| == |old(rows)|
      ensures forall i :: 0 <= i < |rows| ==>
                rows[i] == if ok && i in ids
                           then old(rows)[i].(state := Assigned, worker := Some(worker)) else old(rows)[i]
    {
      if exists l :: 0 <= l < |ids| && !Allowed(rows[ids[l]].state, Assigned) {
        return false;
      }
      rows := seq(|rows|, i requires 0 <= i < |rows| reads this`rows =>
        if i in ids then rows[i].(state := Assigned, worker := Some(worker)) else rows[i]);
      ok := true;
    }

    /** Claims pending rows for a worker; uuids are the runner ids drawn, one per row. */
    method ClaimTask(q: Query, uuids: seq<RunnerId>) returns (claimed: seq<TaskId>)
      requires |Picked(rows, q, locked)| <= |uuids|
      modifies this`rows
      ensures claimed == Picked(old(rows), q, locked)
      ensures rows == Claim(old(rows), q, locked, uuids)
    {
      if q.channels == {} {
        NothingOnNoChannel(rows, q, locked);
        return [];
      }
      claimed := Picked(rows, q, locked);
      PickedDistinct(rows, q, locked);
      if claimed == [] {
        return;
      }
      assert forall l :: 0 <= l < |claimed| ==> claimed[l] in Candidates(rows, q, locked);
      var ok := ActionAssign(claimed, q.worker);
      WriteRunners(claimed, uuids);
      ClaimAssembled(old(rows), rows, q, locked, uuids);
    }

    /** A fresh runner id for each claimed row, one write at a time. */
    method WriteRunners(ids: seq<TaskId>, uuids: seq<RunnerId>)
      requires Ids(rows, ids) && |ids| <= |uuids|
      requires forall k, l :: 0 <= k < l < |ids| ==> ids[k] != ids[l]
      modifies this`rows
      ensures |rows| == |old(rows)|
      ensures forall l :: 0 <= l < |ids| ==> rows[ids[l]] == old(rows)[ids[l]].(runner := Some(uuids[l]))
      ensures forall i :: 0 <= i < |rows| && i !in ids ==> rows[i] == old(rows)[i]
    {
      var k := 0;
      while k < |ids|
        invariant 0 <= k <= |ids| && |rows| == |old(rows)|
        invariant forall l :: 0 <= l < k ==> rows[ids[l]] == old(rows)[ids[l]].(runner := Some(uuids[l]))
        invariant forall l :: k <= l < |ids| ==> rows[ids[l]] == old(rows)[ids[l]]
        invariant forall i :: 0 <= i < |rows| && i !in ids ==> rows[i] == old(rows)[i]
      {
        rows := rows[ids[k] := rows[ids[k]].(runner := Some(uuids[k]))];
        k := k + 1;
      }
    }

    // ---- creation ----------------------------------------------------------------------

    /** create_task. With a key: `rival` is a row with the same key another
        transaction commits between the lookup and the insert, and `visible` says
        whether this transaction's snapshot shows it afterwards. */
    method CreateTask(task: Task, raiseOnConflict: bool, rival: Option<Task>, visible: bool) returns (r: Creation)
      requires FreshRow(task) && P.KeysUnique(rows)
      requires rival.Some? ==> FreshRow(rival.value) && rival.value.uniqueKey == task.uniqueKey
      modifies this`rows
      ensures P.KeysUnique(rows)
      ensures |old(rows)| <= |rows| <= |old(rows)| + 1 && rows[..|old(rows)|] == old(rows)
      ensures task.uniqueKey.None? ==> r == Created(|old(rows)|) && rows == old(rows) + [task]
      ensures task.uniqueKey.Some? && !P.KeyFree(old(rows), task.uniqueKey) ==>
                rows == old(rows) && (if raiseOnConflict then r.AlreadyScheduled? else r.Reused?)
      ensures task.uniqueKey.Some? && P.KeyFree(old(rows), task.uniqueKey) && rival.None? ==>
                r == Created(|old(rows)|) && rows == old(rows) + [task]
      ensures task.uniqueKey.Some? && P.KeyFree(old(rows), task.uniqueKey) && rival.Some? ==>
                && rows == old(rows) + [rival.value]
                && r == (if !visible then UniqueViolation
                         else if raiseOnConflict then AlreadyScheduled(|old(rows)|) else Reused(|old(rows)|))
      ensures !r.UniqueViolation? ==>
                r.id < |rows| && rows[r.id].state.Active() && rows[r.id].uniqueKey == task.uniqueKey
    {
      if task.uniqueKey.None? {
        rows := rows + [task];
        return Created(|rows| - 1);
      }
      var holders := set i: TaskId | 0 <= i < |rows| && rows[i].uniqueKey == task.uniqueKey && rows[i].state.Active();
      if i :| i in holders {
        if raiseOnConflict {
          return AlreadyScheduled(i);
        }
        return Reused(i);
      }
      assert P.KeyFree(rows, task.uniqueKey) by {
        assert forall i :: 0 <= i < |rows| && rows[i].state.Active() ==> i !in holders;
      }
      match rival
      case None =>
        rows := rows + [task];
        return Created(|rows| - 1);
      case Some(winner) =>
        rows := rows + [winner];
        if !visible {
          return UniqueViolation;
        }
        if raiseOnConflict {
          return AlreadyScheduled(|rows| - 1);
        }
        return Reused(|rows| - 1);
    }

    /** One transaction of the failed-task sweep: up to ten retriable failed rows of
        this worker's channels and types, unlocked, are charged and requeued, unless
        the unique index refuses the commit. Which ten is left open. */
    method AutoRetryFailed(channels: set<string>, types: set<string>, etaOf: Task -> Option<int>)
      returns (found: seq<TaskId>, committed: bool)
      requires P.KeysUnique(rows)
      modifies this`rows
      ensures var retriable := Retriable(old(rows), locked, channels, types);
              && (forall i :: i in found ==> i in retriable)
              && (forall k, l :: 0 <= k < l < |found| ==> found[k] != found[l])
              && |found| == if |retriable| > 10 then 10 else |retriable|
      ensures committed <==> P.KeysUnique(ChargeAll(old(rows), found, etaOf))
      ensures rows == if committed then ChargeAll(old(rows), found, etaOf) else old(rows)
    {
      var retriable := Retriable(rows, locked, channels, types);
      found := [];
      if channels == {} || types == {} {
        assert retriable == {};
        assert rows == ChargeAll(rows, [], etaOf);
        return found, true;
      }
      found := PickSome(retriable, 10);
      assert forall k :: 0 <= k < |found| ==> found[k] in found;
      var saved := rows;
      ChargeEach(found, etaOf);
      committed := IndexAdmits();
      if !committed {
        rows := saved;
      }
    }

    method ChargeEach(found: seq<TaskId>, etaOf: Task -> Option<int>)
      requires AutoRetryable(rows, found)
      modifies this`rows
      ensures rows == ChargeAll(old(rows), found, etaOf)
    {
      var k := 0;
      assert rows == ChargeAll(rows, [], etaOf);
      while k < |found|
        invariant 0 <= k <= |found|
        invariant rows == ChargeAll(old(rows), found[..k], etaOf)
      {
        var id := found[k];
        assert id in found && id !in found[..k];
        var requeued := ActionAutoRetry(id, etaOf(rows[id]), None);
        assert found[..k + 1] == found[..k] + [id];
        k := k + 1;
      }
      assert found[..k] == found;
    }

    /** The partial unique index, checked when the transaction's writes are flushed. */
    method IndexAdmits() returns (ok: bool)
      ensures ok <==> P.KeysUnique(rows)
    {
      ok := forall i, j :: 0 <= i < j < |rows| && rows[i].state.Active() && rows[j].state.Active()
                           && rows[i].uniqueKey.Some?
              ==> rows[i].uniqueKey != rows[j].uniqueKey;
    }

    // ---- progress ------------------------------------------------------------------------

    method UpdateProgress(id: TaskId, value: int)
      requires id < |rows| && Forest(rows)
      modifies this`rows
      ensures rows == Update(old(rows), locked, propagating, id, value)
    {
      var clamped := if value > 100 then 100 else if value < 0 then 0 else value;
      if id !in locked {
        rows := rows[id := rows[id].(progress := clamped)];
      }
      if rows[id].parent.Some? && rows[id].typeCode in propagating {
        PropagateProgressUpward(rows[id].parent.value);
      }
    }

    method PropagateProgressUpward(p: TaskId)
      requires p < |rows| && Forest(rows)
      modifies this`rows
      ensures rows == Propagate(old(rows), locked, propagating, p)
      decreases p
    {
      var avg, count := Mean(rows, p), KidCount(rows, p, |rows|);
      if count == 0 {
        return;
      }
      if p in locked {
        return;
      }
      rows := rows[p := rows[p].(progress := avg)];
      if rows[p].typeCode in propagating && rows[p].parent.Some? {
        PropagateProgressUpward(rows[p].parent.value);
      }
    }
  }

  lemma CancelNothing(rows: Table)
    ensures Cancel(rows, {}) == rows
  {
    forall x | 0 <= x < |rows| ensures !Reached(rows, {}, x) { NothingReached(rows, x); }
  }

  lemma {:induction false} NothingReached(rows: Table, x: TaskId)
    ensures !Reached(rows, {}, x)
    decreases x
  {
    if x < |rows| && rows[x].parent.Some? && rows[x].parent.value < x { NothingReached(rows, rows[x].parent.value); }
  }

  lemma NothingOnNoChannel(rows: Table, q: Query, locked: set<TaskId>)
    requires q.channels == {}
    ensures Picked(rows, q, locked) == []
  {
    assert Candidates(rows, q, locked) == {};
    ClaimCount(rows, q, locked);
  }
}
