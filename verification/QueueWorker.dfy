/** A worker's supervisor loop: its task-thread slots, timeouts, and which task
    types it may claim. Thread liveness is the environment's: each call is told
    which threads are alive when it looks. */
module QueueWorker {
  import opened Optional
  import opened TaskModel
  import opened Claiming
  import T = TaskTable

  type ThreadId = nat

  datatype TaskThread = TaskThread(
    task: TaskId, runner: RunnerId, timeout: int, started: int, timedOut: bool, thread: ThreadId)

  // ---- slots, as values ------------------------------------------------------

  function StillAlive(active: seq<TaskThread>, alive: set<ThreadId>): (r: seq<TaskThread>)
    ensures |r| <= |active|
    ensures forall t :: t in r <==> t in active && t.thread in alive
  {
    if active == [] then []
    else
      var before, last := active[..|active| - 1], active[|active| - 1];
      assert active == before + [last];
      StillAlive(before, alive) + if last.thread in alive then [last] else []
  }

  /** Timed-out threads that have ended since. */
  function Resolved(active: seq<TaskThread>, alive: set<ThreadId>): seq<TaskThread> {
    if active == [] then []
    else
      var last := active[|active| - 1];
      Resolved(active[..|active| - 1], alive) + if last.thread !in alive && last.timedOut then [last] else []
  }

  predicate Expired(t: TaskThread, now: int) {
    !t.timedOut && t.timeout > 0 && now - t.started > t.timeout
  }

  function Aged(active: seq<TaskThread>, now: int): (r: seq<TaskThread>)
    ensures |r| == |active|
  {
    seq(|active|, i requires 0 <= i < |active| =>
      if Expired(active[i], now) then active[i].(timedOut := true) else active[i])
  }

  function FreeSlots(max: int, active: seq<TaskThread>): int {
    max - |active|
  }

  /** The k-th runner id drawn. */
  function Draw(uuids: seq<RunnerId>, k: nat): RunnerId {
    if k < |uuids| then uuids[k] else 0
  }

  function ThreadOf(row: Task, id: TaskId, worker: WorkerId, runner: RunnerId,
                    timeoutOf: Task -> int, now: int, thread: ThreadId): TaskThread {
    TaskThread(id, runner, timeoutOf(Assign(row, worker, runner)), now, false, thread)
  }

  /** One thread per row a claim picks, each with the runner id drawn for its row. */
  function Threads(rows: Table, q: Query, locked: set<TaskId>, uuids: seq<RunnerId>,
                   timeoutOf: Task -> int, now: int, first: ThreadId): (r: seq<TaskThread>)
    ensures |r| == |Picked(rows, q, locked)|
    ensures forall k :: 0 <= k < |r| ==>
              r[k] == ThreadOf(rows[Picked(rows, q, locked)[k]], Picked(rows, q, locked)[k], q.worker, Draw(uuids, k),
                               timeoutOf, now, first + k)
  {
    var p := Picked(rows, q, locked);
    seq(|p|, k requires 0 <= k < |p| => ThreadOf(rows[p[k]], p[k], q.worker, Draw(uuids, k), timeoutOf, now, first + k))
  }

  /** What a cycle finds: the threads alive when it looks, the clock, the table its
      claim reads, and the runner and thread ids drawn. */
  datatype Cycle = Cycle(
    alive: set<ThreadId>, now: int, rows: Table, q: Query, locked: set<TaskId>, uuids: seq<RunnerId>,
    timeoutOf: Task -> int, first: ThreadId)

  /** Ended threads are dropped, expired ones flagged, and a claim is asked for as
      many rows as there are free slots. */
  function AfterCycle(max: int, active: seq<TaskThread>, c: Cycle): seq<TaskThread> {
    Filled(max, Aged(StillAlive(active, c.alive), c.now), c)
  }

  function Filled(max: int, kept: seq<TaskThread>, c: Cycle): seq<TaskThread> {
    if FreeSlots(max, kept) <= 0 then kept
    else kept + Threads(c.rows, c.q.(limit := FreeSlots(max, kept)), c.locked, c.uuids, c.timeoutOf, c.now, c.first)
  }

  function AfterCycles(max: int, cycles: seq<Cycle>): seq<TaskThread> {
    if cycles == [] then []
    else AfterCycle(max, AfterCycles(max, cycles[..|cycles| - 1]), cycles[|cycles| - 1])
  }

  predicate WithinSlots(max: int, active: seq<TaskThread>) {
    |active| <= if max > 0 then max else 0
  }

  /** A cycle fills the free slots as far as there are rows to claim, and no further. */
  lemma CycleFills(max: int, active: seq<TaskThread>, c: Cycle)
    requires WithinSlots(max, active)
    ensures WithinSlots(max, AfterCycle(max, active, c))
    ensures var kept := Aged(StillAlive(active, c.alive), c.now);
            FreeSlots(max, kept) > 0 ==>
              var n := |Candidates(c.rows, c.q.(limit := FreeSlots(max, kept)), c.locked)|;
              |AfterCycle(max, active, c)| == if n < FreeSlots(max, kept) then |kept| + n else max
  {
    var kept := Aged(StillAlive(active, c.alive), c.now);
    if FreeSlots(max, kept) > 0 { ClaimCount(c.rows, c.q.(limit := FreeSlots(max, kept)), c.locked); }
  }

  /** Over every sequence of cycles the tracked threads fit the slots. */
  lemma {:induction false} SlotBound(max: int, cycles: seq<Cycle>)
    ensures WithinSlots(max, AfterCycles(max, cycles))
    decreases |cycles|
  {
    if cycles != [] {
      SlotBound(max, cycles[..|cycles| - 1]);
      CycleFills(max, AfterCycles(max, cycles[..|cycles| - 1]), cycles[|cycles| - 1]);
    }
  }

  function StuckCount(active: seq<TaskThread>, alive: set<ThreadId>): (r: nat)
    ensures r <= |active|
    ensures r == |active| <==> forall i :: 0 <= i < |active| ==> active[i].timedOut && active[i].thread in alive
  {
    if active == [] then 0
    else
      var rest := StuckCount(active[1..], alive);
      assert forall i :: 0 < i < |active| ==> active[i] == active[1..][i - 1];
      (if active[0].timedOut && active[0].thread in alive then 1 else 0) + rest
  }

  /** is_stuck means every slot is held by a timed-out live thread: no slot is free. */
  lemma StuckMeansFull(max: int, active: seq<TaskThread>, alive: set<ThreadId>)
    requires WithinSlots(max, active)
    ensures active != [] && StuckCount(active, alive) >= max
            <==> max > 0 && FreeSlots(max, active) == 0
                 && forall i :: 0 <= i < |active| ==> active[i].timedOut && active[i].thread in alive
  {
  }

  /** A stuck worker stays full through its next cycles as long as those threads
      live: it claims nothing. */
  lemma {:induction false} StuckClaimsNothing(max: int, active: seq<TaskThread>, c: Cycle)
    requires WithinSlots(max, active) && active != [] && StuckCount(active, c.alive) >= max
    ensures AfterCycle(max, active, c) == active
  {
    StuckMeansFull(max, active, c.alive);
    AllAlive(active, c.alive);
    AgedOnce(active, c.now);
    FullStays(max, active, c);
  }

  lemma FullStays(max: int, active: seq<TaskThread>, c: Cycle)
    requires FreeSlots(max, active) <= 0
    ensures Filled(max, active, c) == active
  {
  }

  lemma AgedOnce(active: seq<TaskThread>, now: int)
    requires forall i :: 0 <= i < |active| ==> active[i].timedOut
    ensures Aged(active, now) == active
  {
  }

  lemma {:induction false} AllAlive(active: seq<TaskThread>, alive: set<ThreadId>)
    requires forall i :: 0 <= i < |active| ==> active[i].thread in alive
    ensures StillAlive(active, alive) == active
  {
    if active != [] {
      var before, last := active[..|active| - 1], active[|active| - 1];
      AllAlive(before, alive);
      assert last.thread in alive && active == before + [last];
    }
  }

  // ---- service affinity ------------------------------------------------------------

  /** The type is bound to no service, or to this one. */
  predicate MayRun(registered: map<string, Option<string>>, service: string, t: string)
    requires t in registered
  {
    registered[t].None? || registered[t].value == service
  }

  /** Types this worker's service may run, restricted to its allowlist if it has one. */
  function EffectiveTypes(registered: map<string, Option<string>>, service: string, allowed: set<string>)
    : (r: set<string>)
    ensures forall t :: t in r <==> t in registered && MayRun(registered, service, t) && (allowed == {} || t in allowed)
  {
    set t | t in registered && MayRun(registered, service, t) && (allowed == {} || t in allowed)
  }

  ghost predicate RespectsTypes(effective: set<string>, rows: Table, q: Query, locked: set<TaskId>) {
    q.types == effective ==> forall i :: i in Picked(rows, q, locked) ==> rows[i].typeCode in effective
  }

  function Foreign(): Task {
    Task("foreign", "default", 0, 0, None, Pending, None, None, NoRetry, 0, 0, None, None, 0, [], None, None, 0)
  }

  lemma EmptyTypesTakeAll()
    ensures Picked([Foreign()], Query(0, {"default"}, {}, {}, 0, 1), {}) == [0]
  {
    var rows, q := [Foreign()], Query(0, {"default"}, {}, {}, 0, 1);
    assert Eligible(rows, q, 0);
    assert Candidates(rows, q, {}) == {0};
    ClaimCount(rows, q, {});
    assert Picked(rows, q, {})[0] in Candidates(rows, q, {});
  }

  /** claim_task reads an empty type list as "all types", so claims respect the
      effective types exactly when there is at least one. */
  lemma AffinityHoldsIff(effective: set<string>)
    ensures (forall rows, q, locked :: RespectsTypes(effective, rows, q, locked)) <==> effective != {}
  {
    if effective != {} {
      forall rows, q, locked ensures RespectsTypes(effective, rows, q, locked) {
        assert forall i :: i in Picked(rows, q, locked) ==> i in Candidates(rows, q, locked);
      }
    } else {
      EmptyTypesTakeAll();
      assert 0 in [0];
      assert !RespectsTypes(effective, [Foreign()], Query(0, {"default"}, {}, {}, 0, 1), {});
    }
  }

  /** A claim over a non-empty effective list considers exactly the eligible rows whose
      type is registered, may run on this service, and is allowed here. */
  lemma ClaimableIff(registered: map<string, Option<string>>, service: string, allowed: set<string>,
                     rows: Table, q: Query, locked: set<TaskId>, i: TaskId)
    requires q.types == EffectiveTypes(registered, service, allowed) && q.types != {} && i < |rows|
    ensures var code := rows[i].typeCode;
            i in Candidates(rows, q, locked)
            <==> i in Candidates(rows, q.(types := {}), locked)
                 && code in registered && (registered[code] == None || registered[code] == Some(service))
                 && (allowed == {} || code in allowed)
  {
    assert Eligible(rows, q, i) <==> Eligible(rows, q.(types := {}), i) && rows[i].typeCode in q.types;
  }

  predicate TimedOutOn(active: seq<TaskThread>, r: TaskId, now: int, alive: set<ThreadId>) {
    exists i :: 0 <= i < |active| && active[i].task == r && Expired(active[i], now) && active[i].thread in alive
  }

  /** The running tasks whose live thread has expired are stuck; no other row moves. */
  function AfterTimeouts(rows: Table, active: seq<TaskThread>, now: int, alive: set<ThreadId>): (r: Table)
    ensures |r| == |rows|
  {
    seq(|rows|, r requires 0 <= r < |rows| =>
      if rows[r].state.Running? && TimedOutOn(active, r, now, alive) then rows[r].(state := Stuck) else rows[r])
  }

  /** A look makes a task stuck exactly when it is running and a live thread not flagged
      before has been on it for longer than its timeout, 0 meaning none. */
  lemma StuckByLook(rows: Table, active: seq<TaskThread>, now: int, alive: set<ThreadId>, r: TaskId)
    requires r < |rows| && TasksStored(active, |rows|)
    ensures var late := exists i :: 0 <= i < |active| && active[i].task == r && active[i].thread in alive
                                    && !active[i].timedOut && active[i].timeout > 0
                                    && now > active[i].started + active[i].timeout;
            AfterTimeouts(rows, active, now, alive)[r]
            == if rows[r].state == Running && late then rows[r].(state := Stuck) else rows[r]
  {
    forall i | 0 <= i < |active|
      ensures Expired(active[i], now)
              <==> !active[i].timedOut && active[i].timeout > 0 && now > active[i].started + active[i].timeout
    {
    }
  }

  /** Looks at the clock one after the other. */
  function AgedBy(active: seq<TaskThread>, looks: seq<int>): (r: seq<TaskThread>)
    ensures |r| == |active|
  {
    if looks == [] then active else Aged(AgedBy(active, looks[..|looks| - 1]), looks[|looks| - 1])
  }

  /** A thread is flagged for good by the first look past its deadline, and a thread
      without a timeout never is. */
  lemma {:induction false} FlaggedOncePastDeadline(active: seq<TaskThread>, looks: seq<int>, i: nat)
    requires i < |active|
    ensures var t := active[i];
            AgedBy(active, looks)[i]
            == t.(timedOut := t.timedOut
                              || (t.timeout > 0 && exists k :: 0 <= k < |looks| && looks[k] > t.started + t.timeout))
    decreases |looks|
  {
    if looks != [] {
      var before := looks[..|looks| - 1];
      FlaggedOncePastDeadline(active, before, i);
      assert forall k :: 0 <= k < |before| ==> before[k] == looks[k];
    }
  }

  /** The thread of a claimed row carries the runner id stored on the row. */
  lemma ThreadOwnsRow(rows: Table, q: Query, locked: set<TaskId>, uuids: seq<RunnerId>,
                      timeoutOf: Task -> int, now: int, first: ThreadId, k: nat)
    requires k < |Picked(rows, q, locked)| <= |uuids|
    ensures var t, rows' := Threads(rows, q, locked, uuids, timeoutOf, now, first)[k], Claim(rows, q, locked, uuids);
            && t.task < |rows| && t.runner == uuids[k]
            && rows'[t.task] == Assign(rows[t.task], q.worker, t.runner)
            && Owns(rows'[t.task], Some(t.runner), Some(q.worker), true)
            && t.timeout == timeoutOf(rows'[t.task])
  {
    ClaimedRows(rows, q, locked, uuids);
  }

  predicate TasksStored(active: seq<TaskThread>, n: nat) {
    forall i :: 0 <= i < |active| ==> active[i].task < n
  }

  lemma StillStored(active: seq<TaskThread>, alive: set<ThreadId>, n: nat)
    requires TasksStored(active, n)
    ensures TasksStored(StillAlive(active, alive), n)
  {
    var kept := StillAlive(active, alive);
    forall i | 0 <= i < |kept| ensures kept[i].task < n { assert kept[i] in active; }
  }

  lemma ClaimedRows(rows: Table, q: Query, locked: set<TaskId>, uuids: seq<RunnerId>)
    requires |Picked(rows, q, locked)| <= |uuids|
    ensures var p := Picked(rows, q, locked);
            forall k :: 0 <= k < |p| ==> Claim(rows, q, locked, uuids)[p[k]] == Assign(rows[p[k]], q.worker, uuids[k])
  {
    PickedDistinct(rows, q, locked);
    AssignAllAt(rows, Picked(rows, q, locked), q.worker, uuids);
  }

  // ---- the worker ----------------------------------------------------------------------

  class QueueWorker {
    const maxParallelJobs: int
    const record: WorkerId
    var active: seq<TaskThread>
    var nextThread: ThreadId

    predicate Valid() reads this {
      WithinSlots(maxParallelJobs, active)
    }

    constructor (record: WorkerId, maxParallelJobs: int)
      ensures Valid() && active == [] && this.maxParallelJobs == maxParallelJobs && this.record == record
    {
      this.record, this.maxParallelJobs := record, maxParallelJobs;
      active, nextThread := [], 0;
    }

    /** Drops ended threads; returns those that had timed out before ending. */
    method FinalizeCompleted(alive: set<ThreadId>) returns (resolved: seq<TaskThread>)
      modifies this`active
      ensures active == StillAlive(old(active), alive)
      ensures resolved == Resolved(old(active), alive)
    {
      var stillActive := [];
      resolved := [];
      var i := 0;
      while i < |active|
        invariant 0 <= i <= |active| && active == old(active)
        invariant stillActive == StillAlive(active[..i], alive)
        invariant resolved == Resolved(active[..i], alive)
      {
        var info := active[i];
        assert active[..i + 1][..i] == active[..i];
        if info.thread in alive {
          stillActive := stillActive + [info];
        } else if info.timedOut {
          resolved := resolved + [info];
        }
        i := i + 1;
      }
      assert active[..i] == active;
      active := stillActive;
    }

    /** Flags expired threads; a task whose thread is still alive becomes stuck. */
    method CheckTimeouts(table: T.TaskTable, now: int, alive: set<ThreadId>)
      requires TasksStored(active, |table.rows|)
      modifies this`active, table`rows
      ensures active == Aged(old(active), now)
      ensures table.rows == AfterTimeouts(old(table.rows), old(active), now, alive)
    {
      var i := 0;
      while i < |active|
        invariant 0 <= i <= |active| == |old(active)| && |table.rows| == |old(table.rows)|
        invariant forall j :: 0 <= j < i ==> active[j] == Aged(old(active), now)[j]
        invariant forall j :: i <= j < |active| ==> active[j] == old(active)[j]
        invariant table.rows == AfterTimeouts(old(table.rows), old(active)[..i], now, alive)
      {
        var info := active[i];
        if Expired(info, now) {
          if info.thread in alive && table.rows[info.task].state.Running? {
            var ok := table.ActionStuck(info.task);
          }
          active := active[i := info.(timedOut := true)];
        }
        i := i + 1;
      }
    }

    method IsStuck(alive: set<ThreadId>) returns (stuck: bool)
      requires Valid()
      ensures stuck <==> maxParallelJobs > 0 && FreeSlots(maxParallelJobs, active) == 0
                         && forall i :: 0 <= i < |active| ==> active[i].timedOut && active[i].thread in alive
    {
      StuckMeansFull(maxParallelJobs, active, alive);
      if active == [] {
        return false;
      }
      stuck := StuckCount(active, alive) >= maxParallelJobs;
    }

    /** Claims up to `limit` rows and starts one thread per claimed row, each with
        the runner id stored on the row. */
    method ClaimAndSpawn(table: T.TaskTable, q: Query, uuids: seq<RunnerId>, timeoutOf: Task -> int, now: int)
      requires q.worker == record && |Picked(table.rows, q, table.locked)| <= |uuids|
      modifies this, table`rows
      ensures table.rows == Claim(old(table.rows), q, table.locked, uuids)
      ensures active == old(active) + Threads(old(table.rows), q, table.locked, uuids, timeoutOf, now, old(nextThread))
    {
      ghost var threads := Threads(table.rows, q, table.locked, uuids, timeoutOf, now, nextThread);
      ghost var before := table.rows;
      var claimed := table.ClaimTask(q, uuids);
      ghost var rows := table.rows;
      ClaimedRows(before, q, table.locked, uuids);
      var k := 0;
      while k < |claimed|
        invariant 0 <= k <= |claimed| && table.rows == rows && nextThread == old(nextThread) + k
        invariant active == old(active) + threads[..k]
      {
        var t := table.rows[claimed[k]];
        assert t == Assign(before[claimed[k]], q.worker, uuids[k]) && Draw(uuids, k) == uuids[k];
        assert threads[..k + 1] == threads[..k] + [threads[k]];
        SpawnTaskThread(claimed[k], timeoutOf(t), t.runner.value, now);
        k := k + 1;
      }
      assert threads[..k] == threads;
    }

    method SpawnTaskThread(task: TaskId, timeout: int, runner: RunnerId, now: int)
      modifies this
      ensures active == old(active) + [TaskThread(task, runner, timeout, now, false, old(nextThread))]
      ensures nextThread == old(nextThread) + 1
    {
      active := active + [TaskThread(task, runner, timeout, now, false, nextThread)];
      nextThread := nextThread + 1;
    }

    /** The slot-keeping part of one run_service cycle; `alive` are the threads alive
        when finished ones are dropped, `later` those alive when timeouts are checked. */
    method RunCycle(table: T.TaskTable, alive: set<ThreadId>, later: set<ThreadId>, now: int,
                    q: Query, uuids: seq<RunnerId>, timeoutOf: Task -> int)
      requires Valid() && q.worker == record && TasksStored(active, |table.rows|)
      requires |uuids| >= maxParallelJobs
      modifies this, table`rows
      ensures Valid()
      ensures var rows := AfterTimeouts(old(table.rows), StillAlive(old(active), alive), now, later);
              var kept := Aged(StillAlive(old(active), alive), now);
              && active == AfterCycle(maxParallelJobs, old(active),
                                      Cycle(alive, now, rows, q, table.locked, uuids, timeoutOf, old(nextThread)))
              && table.rows == if FreeSlots(maxParallelJobs, kept) <= 0 then rows
                               else Claim(rows, q.(limit := FreeSlots(maxParallelJobs, kept)), table.locked, uuids)
    {
      StillStored(active, alive, |table.rows|);
      var resolved := FinalizeCompleted(alive);
      CheckTimeouts(table, now, later);
      CycleFills(maxParallelJobs, old(active),
                 Cycle(alive, now, table.rows, q, table.locked, uuids, timeoutOf, nextThread));
      var freeSlots := maxParallelJobs - |active|;
      if freeSlots > 0 {
        ClaimAndSpawn(table, q.(limit := freeSlots), uuids, timeoutOf, now);
      }
    }
  }
}
