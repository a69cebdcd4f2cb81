/** Recovery of executions lost with their worker: the periodic sweep over dead
    workers, its bounded window, and the startup cleanup. */
module Recovery {
  import opened Optional
  import opened TaskModel
  import opened TaskOrder
  import opened Claiming
  import opened Protocol

  /** Most rows one sweep looks at. */
  const RECOVERY_BATCH_SIZE: nat := 10

  /** How a sweep treats a row: retry delays of the type, and the error text. */
  datatype Terms = Terms(retryAt: Task -> Option<int>, reason: Payload)

  /** In-flight rows of dead workers. */
  function Orphans(rows: Table, dead: set<WorkerId>): set<TaskId> {
    set i: TaskId | 0 <= i < |rows| && rows[i].state.InFlight() && rows[i].worker.Some? && rows[i].worker.value in dead
  }

  /** The rows a sweep finds: the first few orphans in serving order. */
  function Window(rows: Table, dead: set<WorkerId>): (r: seq<TaskId>)
    ensures |r| <= RECOVERY_BATCH_SIZE
    ensures forall i :: i in r ==> i in Orphans(rows, dead)
  {
    var r := Take(Queue(rows, Orphans(rows, dead)), RECOVERY_BATCH_SIZE);
    assert forall k :: 0 <= k < |r| ==> r[k] in Queue(rows, Orphans(rows, dead));
    r
  }

  /** A lost row as recovery leaves it, verified under the runner and worker it
      had when found. */
  function Recovered(t: Task, terms: Terms): Task {
    var e := Effect(Lost(t.runner, t.worker, terms.retryAt(t), terms.reason), t);
    if e.Some? then e.value else t
  }

  /** Every listed row recovered, except those whose recovery is skipped (locked)
      or raises (its savepoint is rolled back). */
  function RecoverAll(rows: Table, ids: seq<TaskId>, blocked: set<TaskId>, terms: Terms): (r: Table)
    ensures |r| == |rows|
  {
    seq(|rows|, i requires 0 <= i < |rows| =>
      if i in ids && i !in blocked then Recovered(rows[i], terms) else rows[i])
  }

  function Sweep(rows: Table, dead: set<WorkerId>, blocked: set<TaskId>, terms: Terms): (r: Table)
    ensures |r| == |rows|
  {
    RecoverAll(rows, Window(rows, dead), blocked, terms)
  }

  /** Recovery settles an in-flight row: back in the queue un-owned, charged one
      attempt exactly when it had started and had one left, or failed without a
      runner; a row that never started is never charged. */
  lemma RecoveredSettles(t: Task, terms: Terms)
    requires t.state.InFlight()
    ensures var t' := Recovered(t, terms);
            && (t'.state.Pending? || t'.state.Failed?)
            && t'.runner.None?
            && (t'.state.Pending? ==> t'.worker.None?)
            && (t'.state.Pending? <==> t.state.Assigned? || (!t.policy.NoRetry? && Budget(t)))
            && t'.retryCount == t.retryCount + (if t'.state.Pending? && !t.state.Assigned? then 1 else 0)
            && t'.priority == t.priority && t'.created == t.created
  {
  }

  /** Rows of live workers, and rows not in flight, come through untouched. */
  lemma SweepFrame(rows: Table, dead: set<WorkerId>, blocked: set<TaskId>, terms: Terms, i: TaskId)
    requires i < |rows| && i !in Orphans(rows, dead)
    ensures Sweep(rows, dead, blocked, terms)[i] == rows[i]
  {
  }

  /** A sweep recovers an orphan exactly when it is not blocked and fewer than
      RECOVERY_BATCH_SIZE orphans are served before it. */
  lemma SweepByRank(rows: Table, dead: set<WorkerId>, blocked: set<TaskId>, terms: Terms, i: TaskId)
    requires i < |rows|
    ensures SameKeys(rows, Sweep(rows, dead, blocked, terms))
    ensures i in Orphans(Sweep(rows, dead, blocked, terms), dead)
            <==> i in Orphans(rows, dead)
                 && (i in blocked || |Ahead(rows, Orphans(rows, dead), i)| >= RECOVERY_BATCH_SIZE)
  {
    var o := Orphans(rows, dead);
    TakeByRank(rows, o, RECOVERY_BATCH_SIZE, i);
    forall j | 0 <= j < |rows|
      ensures var t' := Sweep(rows, dead, blocked, terms)[j];
              t'.priority == rows[j].priority && t'.created == rows[j].created
    {
      if j in o { RecoveredSettles(rows[j], terms); }
    }
    if i in o { RecoveredSettles(rows[i], terms); }
  }

  // ---- convergence of repeated sweeps -----------------------------------------

  ghost function Sweeps(rows: Table, dead: set<WorkerId>, blocked: set<TaskId>, terms: Terms, n: nat): (r: Table)
    ensures |r| == |rows|
  {
    if n == 0 then rows else Sweep(Sweeps(rows, dead, blocked, terms, n - 1), dead, blocked, terms)
  }

  /** What a sweep leaves of a set of orphans. */
  ghost function Left(rows: Table, o: set<TaskId>, blocked: set<TaskId>): set<TaskId> {
    set i | i in o && i < |rows| && (i in blocked || |Ahead(rows, o, i)| >= RECOVERY_BATCH_SIZE)
  }

  ghost function LeftAfter(rows: Table, o: set<TaskId>, blocked: set<TaskId>, n: nat): set<TaskId> {
    if n == 0 then o else Left(rows, LeftAfter(rows, o, blocked, n - 1), blocked)
  }

  lemma SweepLeaves(rows: Table, dead: set<WorkerId>, blocked: set<TaskId>, terms: Terms)
    ensures SameKeys(rows, Sweep(rows, dead, blocked, terms))
    ensures Orphans(Sweep(rows, dead, blocked, terms), dead) == Left(rows, Orphans(rows, dead), blocked)
  {
    var rows', o := Sweep(rows, dead, blocked, terms), Orphans(rows, dead);
    forall j | 0 <= j < |rows|
      ensures rows'[j].priority == rows[j].priority && rows'[j].created == rows[j].created
    {
      if j in o { RecoveredSettles(rows[j], terms); }
    }
    forall i | 0 <= i < |rows|
      ensures i in Orphans(rows', dead) <==> i in Left(rows, o, blocked)
    {
      SweepByRank(rows, dead, blocked, terms, i);
    }
  }

  lemma SameAhead(rows: Table, rows': Table, o: set<TaskId>, i: TaskId)
    requires SameKeys(rows, rows') && i < |rows|
    ensures Ahead(rows', o, i) == Ahead(rows, o, i)
  {
  }

  lemma SameLeft(rows: Table, rows': Table, o: set<TaskId>, blocked: set<TaskId>)
    requires SameKeys(rows, rows')
    ensures Left(rows', o, blocked) == Left(rows, o, blocked)
  {
    forall i | i in o && i < |rows| ensures i in Left(rows', o, blocked) <==> i in Left(rows, o, blocked) {
      SameAhead(rows, rows', o, i);
    }
  }

  /** rows' keeps the serving order of rows, and o is what is left orphaned in it. */
  ghost predicate Tracks(rows: Table, rows': Table, dead: set<WorkerId>, o: set<TaskId>) {
    SameKeys(rows, rows') && Orphans(rows', dead) == o
  }

  lemma NextSweepTracks(rows: Table, rows': Table, dead: set<WorkerId>, blocked: set<TaskId>, terms: Terms,
                        o: set<TaskId>)
    requires Tracks(rows, rows', dead, o)
    ensures Tracks(rows, Sweep(rows', dead, blocked, terms), dead, Left(rows, o, blocked))
  {
    SweepLeaves(rows', dead, blocked, terms);
    SameLeft(rows, rows', Orphans(rows', dead), blocked);
  }

  lemma {:induction false} SweepsTrack(rows: Table, dead: set<WorkerId>, blocked: set<TaskId>, terms: Terms, n: nat)
    ensures Tracks(rows, Sweeps(rows, dead, blocked, terms, n), dead, LeftAfter(rows, Orphans(rows, dead), blocked, n))
  {
    if n > 0 {
      SweepsTrack(rows, dead, blocked, terms, n - 1);
      var rows', o := Sweeps(rows, dead, blocked, terms, n - 1), LeftAfter(rows, Orphans(rows, dead), blocked, n - 1);
      NextSweepTracks(rows, rows', dead, blocked, terms, o);
    }
  }

  /** Orphans served before i whose recovery keeps being skipped or keeps failing. */
  ghost function BlockedAhead(rows: Table, o: set<TaskId>, blocked: set<TaskId>, i: TaskId): set<TaskId>
    requires i < |rows|
  {
    Ahead(rows, o, i) * blocked
  }

  lemma Subset<T>(a: set<T>, b: set<T>)
    requires a <= b
    ensures |a| <= |b|
    ensures a != b ==> |a| < |b|
  {
    var rest := b - a;
    assert b == a + rest;
    assert |b| == |a| + |rest|;
    if a != b { assert rest != {}; }
  }

  lemma {:induction false} BlockedStay(rows: Table, o: set<TaskId>, blocked: set<TaskId>, n: nat)
    requires forall i :: i in o ==> i < |rows|
    ensures LeftAfter(rows, o, blocked, n) <= o
    ensures o * blocked <= LeftAfter(rows, o, blocked, n)
  {
    if n > 0 { BlockedStay(rows, o, blocked, n - 1); }
  }

  /** A full window of blocked orphans ahead starves a row for good. */
  lemma {:induction false} Starved(rows: Table, o: set<TaskId>, blocked: set<TaskId>, i: TaskId, n: nat)
    requires forall j :: j in o ==> j < |rows|
    requires i in o && |BlockedAhead(rows, o, blocked, i)| >= RECOVERY_BATCH_SIZE
    ensures i in LeftAfter(rows, o, blocked, n)
  {
    if n > 0 {
      Starved(rows, o, blocked, i, n - 1);
      BlockedStay(rows, o, blocked, n - 1);
      var before := LeftAfter(rows, o, blocked, n - 1);
      Subset(BlockedAhead(rows, o, blocked, i), Ahead(rows, before, i));
    }
  }

  /** The first ten of at least ten orphans ahead of i are ahead of i themselves. */
  lemma WindowAhead(rows: Table, o: set<TaskId>, i: TaskId) returns (window: set<TaskId>)
    requires (forall j :: j in o ==> j < |rows|) && i in o
    requires |Ahead(rows, o, i)| >= RECOVERY_BATCH_SIZE
    ensures window <= Ahead(rows, o, i) && |window| == RECOVERY_BATCH_SIZE
    ensures forall x :: x in window ==> x < |rows| && |Ahead(rows, o, x)| < RECOVERY_BATCH_SIZE
  {
    var q := Queue(rows, o);
    QueueSorted(rows, o);
    SortedDistinct(rows, q);
    var k :| 0 <= k < |q| && q[k] == i;
    QueuePosition(rows, o, k);
    var first := q[..RECOVERY_BATCH_SIZE];
    DistinctCount(first);
    window := Elems(first);
    forall x | x in window
      ensures x < |rows| && x in Ahead(rows, o, i) && |Ahead(rows, o, x)| < RECOVERY_BATCH_SIZE
    {
      var m :| 0 <= m < RECOVERY_BATCH_SIZE && first[m] == x;
      QueuePosition(rows, o, m);
      assert q[m] in q && Before(rows, q[m], q[k]);
    }
  }

  /** While a row waits behind less than a full window of blocked orphans, every
      sweep either recovers it or one of the orphans ahead of it. */
  lemma SweepAdvances(rows: Table, o: set<TaskId>, blocked: set<TaskId>, i: TaskId)
    requires forall j :: j in o ==> j < |rows|
    requires i in Left(rows, o, blocked) && i !in blocked
    requires |BlockedAhead(rows, o, blocked, i)| < RECOVERY_BATCH_SIZE
    ensures |Ahead(rows, Left(rows, o, blocked), i)| < |Ahead(rows, o, i)|
    ensures BlockedAhead(rows, Left(rows, o, blocked), blocked, i) == BlockedAhead(rows, o, blocked, i)
  {
    var o' := Left(rows, o, blocked);
    var window := WindowAhead(rows, o, i);
    if window <= blocked { Subset(window, BlockedAhead(rows, o, blocked, i)); }
    var x :| x in window && x !in blocked;
    assert x in Ahead(rows, o, i) && x !in Ahead(rows, o', i);
    assert Ahead(rows, o', i) <= Ahead(rows, o, i);
    Subset(Ahead(rows, o', i), Ahead(rows, o, i));
  }

  lemma {:induction false} ReachedInTurn(rows: Table, o: set<TaskId>, blocked: set<TaskId>, i: TaskId, n: nat)
    requires (forall j :: j in o ==> j < |rows|) && i in o && i !in blocked
    requires |BlockedAhead(rows, o, blocked, i)| < RECOVERY_BATCH_SIZE
    ensures var left := LeftAfter(rows, o, blocked, n);
            i in left ==>
              && |Ahead(rows, left, i)| + n <= |Ahead(rows, o, i)|
              && BlockedAhead(rows, left, blocked, i) == BlockedAhead(rows, o, blocked, i)
  {
    if n > 0 {
      ReachedInTurn(rows, o, blocked, i, n - 1);
      BlockedStay(rows, o, blocked, n - 1);
      var before := LeftAfter(rows, o, blocked, n - 1);
      if i in Left(rows, before, blocked) {
        SweepAdvances(rows, before, blocked, i);
      }
    }
  }

  ghost predicate RecoveredBy(rows: Table, dead: set<WorkerId>, blocked: set<TaskId>, terms: Terms, i: TaskId, n: nat) {
    i !in Orphans(Sweeps(rows, dead, blocked, terms, n), dead)
  }

  /** With some rows persistently blocked, repeated sweeps recover an unblocked
      orphan exactly when fewer than RECOVERY_BATCH_SIZE blocked orphans are
      served before it. */
  lemma SweepsReach(rows: Table, dead: set<WorkerId>, blocked: set<TaskId>, terms: Terms, i: TaskId)
    requires i in Orphans(rows, dead) && i !in blocked
    ensures (exists n: nat :: RecoveredBy(rows, dead, blocked, terms, i, n))
            <==> |BlockedAhead(rows, Orphans(rows, dead), blocked, i)| < RECOVERY_BATCH_SIZE
  {
    var o := Orphans(rows, dead);
    if |BlockedAhead(rows, o, blocked, i)| < RECOVERY_BATCH_SIZE {
      var n: nat := |Ahead(rows, o, i)| + 1;
      ReachedInTurn(rows, o, blocked, i, n);
      SweepsTrack(rows, dead, blocked, terms, n);
      assert i !in LeftAfter(rows, o, blocked, n);
      assert RecoveredBy(rows, dead, blocked, terms, i, n);
    } else {
      forall n: nat ensures !RecoveredBy(rows, dead, blocked, terms, i, n) {
        Starved(rows, o, blocked, i, n);
        SweepsTrack(rows, dead, blocked, terms, n);
      }
    }
  }

  /** With nothing blocked a sweep recovers min(10, n) of n orphans. */
  lemma SweepCount(rows: Table, dead: set<WorkerId>, terms: Terms)
    ensures |Orphans(Sweep(rows, dead, {}, terms), dead)|
            == if |Orphans(rows, dead)| > 10 then |Orphans(rows, dead)| - 10 else 0
  {
    var o, w := Orphans(rows, dead), Window(rows, dead);
    var o' := Orphans(Sweep(rows, dead, {}, terms), dead);
    forall i | 0 <= i < |rows| ensures i in o' <==> i in o && i !in w {
      SweepByRank(rows, dead, {}, terms, i);
      TakeByRank(rows, o, RECOVERY_BATCH_SIZE, i);
    }
    var q := Queue(rows, o);
    QueueSorted(rows, o);
    SortedDistinct(rows, q);
    DistinctCount(q);
    DistinctCount(w);
    assert Elems(q) == o;
    assert o == o' + Elems(w);
    assert |o| == |o'| + |Elems(w)|;
  }

  // ---- convergence among other activity ------------------------------------------

  datatype Event = Other(step: Step) | SweepNow(terms: Terms)

  /** No claim hands a row to a worker already dead. */
  predicate Quiet(e: Event, dead: set<WorkerId>) {
    e.Other? && e.step.ClaimTasks? ==> e.step.q.worker !in dead
  }

  /** A sweep as it runs among other transactions: one recovery step per row of
      its window. */
  ghost function Recover(s: Sys, ids: seq<TaskId>, terms: Terms): (r: Sys)
    requires Shaped(s)
    ensures Shaped(r) && |r.rows| >= |s.rows|
    decreases |ids|
  {
    if ids == [] then s
    else
      var s' := Recover(s, ids[..|ids| - 1], terms);
      var i := ids[|ids| - 1];
      if i < |s.rows| then
        var step := Row(Lost(s.rows[i].runner, s.rows[i].worker, terms.retryAt(s.rows[i]), terms.reason), i);
        StepShape(s', step);
        Apply(s', step)
      else s'
  }

  lemma RecoverOne(s: Sys, s': Sys, before: seq<TaskId>, i: TaskId, terms: Terms)
    requires Shaped(s') && i < |s.rows| && i !in before
    requires s'.rows == RecoverAll(s.rows, before, {}, terms)
    ensures var step := Row(Lost(s.rows[i].runner, s.rows[i].worker, terms.retryAt(s.rows[i]), terms.reason), i);
            Apply(s', step).rows == RecoverAll(s.rows, before + [i], {}, terms)
  {
    var step := Row(Lost(s.rows[i].runner, s.rows[i].worker, terms.retryAt(s.rows[i]), terms.reason), i);
    assert s'.rows[i] == s.rows[i];
    assert Apply(s', step).rows == s'.rows[i := Recovered(s.rows[i], terms)];
    forall j | 0 <= j < |s.rows|
      ensures RecoverAll(s.rows, before + [i], {}, terms)[j] == s'.rows[i := Recovered(s.rows[i], terms)][j]
    {
      assert j in before + [i] <==> j == i || j in before;
    }
  }

  /** Run as protocol steps, the sweep yields exactly the recovered table. */
  lemma {:induction false} RecoverIsRecoverAll(s: Sys, ids: seq<TaskId>, terms: Terms)
    requires Shaped(s) && (forall i :: i in ids ==> i < |s.rows|)
    requires forall k, l :: 0 <= k < l < |ids| ==> ids[k] != ids[l]
    ensures Recover(s, ids, terms).rows == RecoverAll(s.rows, ids, {}, terms)
    decreases |ids|
  {
    if ids == [] {
      assert RecoverAll(s.rows, [], {}, terms) == s.rows;
    } else {
      var before, i := ids[..|ids| - 1], ids[|ids| - 1];
      assert forall j :: j in before ==> j in ids;
      assert i in ids && i !in before;
      RecoverIsRecoverAll(s, before, terms);
      assert before + [i] == ids;
      RecoverNext(s, before, i, terms);
    }
  }

  lemma RecoverNext(s: Sys, before: seq<TaskId>, i: TaskId, terms: Terms)
    requires Shaped(s) && i < |s.rows| && i !in before
    requires Recover(s, before, terms).rows == RecoverAll(s.rows, before, {}, terms)
    ensures Recover(s, before + [i], terms).rows == RecoverAll(s.rows, before + [i], {}, terms)
  {
    assert (before + [i])[..|before|] == before;
    RecoverOne(s, Recover(s, before, terms), before, i, terms);
  }

  lemma {:induction false} RecoverInv(s: Sys, ids: seq<TaskId>, terms: Terms)
    requires Inv(s)
    ensures Inv(Recover(s, ids, terms))
    decreases |ids|
  {
    if ids != [] {
      RecoverInv(s, ids[..|ids| - 1], terms);
      var i := ids[|ids| - 1];
      if i < |s.rows| {
        StepInv(Recover(s, ids[..|ids| - 1], terms),
                Row(Lost(s.rows[i].runner, s.rows[i].worker, terms.retryAt(s.rows[i]), terms.reason), i));
      }
    }
  }

  ghost function Occur(s: Sys, e: Event, dead: set<WorkerId>): (r: Sys)
    requires Shaped(s)
    ensures Shaped(r)
  {
    match e
    case Other(step) => StepShape(s, step); Apply(s, step)
    case SweepNow(terms) => Recover(s, Window(s.rows, dead), terms)
  }

  /** Only a claim gives a row to a worker, so other activity never adds orphans. */
  lemma OthersAddNoOrphans(s: Sys, step: Step, dead: set<WorkerId>)
    requires Shaped(s) && Quiet(Other(step), dead)
    ensures Orphans(Apply(s, step).rows, dead) <= Orphans(s.rows, dead)
  {
    forall i | i in Orphans(Apply(s, step).rows, dead) ensures i in Orphans(s.rows, dead) {
      if Enabled(s, step) {
        if step.ClaimTasks? {
          ClaimRow(s.rows, step.q, step.locked, step.uuids, i);
        } else {
          StayInFlight(s, step, i);
        }
      }
    }
  }

  ghost predicate Follows(s: Sys, e: Event, s': Sys, dead: set<WorkerId>) {
    Shaped(s) && s' == Occur(s, e, dead)
  }

  /** A history of the queue: each state follows from the one before by an event. */
  ghost predicate History(states: seq<Sys>, events: seq<Event>, dead: set<WorkerId>) {
    && |states| == |events| + 1
    && forall k :: 0 <= k < |events| ==> FollowsAt(states, events, k, dead)
  }

  ghost predicate FollowsAt(states: seq<Sys>, events: seq<Event>, k: nat, dead: set<WorkerId>)
    requires |states| == |events| + 1 && k < |events|
  {
    Follows(states[k], events[k], states[k + 1], dead)
  }

  function SweepsIn(events: seq<Event>): nat {
    if events == [] then 0
    else SweepsIn(events[..|events| - 1]) + if events[|events| - 1].SweepNow? then 1 else 0
  }

  lemma WindowDistinct(rows: Table, dead: set<WorkerId>)
    ensures forall k, l :: 0 <= k < l < |Window(rows, dead)| ==> Window(rows, dead)[k] != Window(rows, dead)[l]
    ensures forall i :: i in Window(rows, dead) ==> i < |rows|
  {
    QueueSorted(rows, Orphans(rows, dead));
    SortedDistinct(rows, Queue(rows, Orphans(rows, dead)));
  }

  lemma SweepEventCount(s: Sys, terms: Terms, dead: set<WorkerId>)
    requires Shaped(s)
    ensures |Orphans(Occur(s, SweepNow(terms), dead).rows, dead)|
            == Floor(|Orphans(s.rows, dead)| - RECOVERY_BATCH_SIZE)
  {
    WindowDistinct(s.rows, dead);
    RecoverIsRecoverAll(s, Window(s.rows, dead), terms);
    SweepCount(s.rows, dead, terms);
  }

  lemma OthersCount(s: Sys, step: Step, dead: set<WorkerId>)
    requires Shaped(s) && Quiet(Other(step), dead)
    ensures |Orphans(Occur(s, Other(step), dead).rows, dead)| <= |Orphans(s.rows, dead)|
  {
    OthersAddNoOrphans(s, step, dead);
    Subset(Orphans(Apply(s, step).rows, dead), Orphans(s.rows, dead));
  }

  ghost function OrphanCount(s: Sys, dead: set<WorkerId>): nat {
    |Orphans(s.rows, dead)|
  }

  lemma EventCount(s: Sys, e: Event, s': Sys, dead: set<WorkerId>)
    requires Follows(s, e, s', dead) && Quiet(e, dead)
    ensures OrphanCount(s', dead)
            <= Floor(OrphanCount(s, dead) - if e.SweepNow? then RECOVERY_BATCH_SIZE else 0)
  {
    match e
    case Other(step) => OthersCount(s, step, dead);
    case SweepNow(terms) => SweepEventCount(s, terms, dead);
  }

  /** Counts drop by a full window, or to nothing, at every sweep and never rise. */
  ghost predicate Drops(counts: seq<nat>, events: seq<Event>, k: nat)
    requires |counts| == |events| + 1 && k < |events|
  {
    counts[k + 1] <= Floor(counts[k] - if events[k].SweepNow? then RECOVERY_BATCH_SIZE else 0)
  }

  lemma {:induction false} CountsFall(counts: seq<nat>, events: seq<Event>)
    requires |counts| == |events| + 1
    requires forall k :: 0 <= k < |events| ==> Drops(counts, events, k)
    ensures counts[|events|] <= Floor(counts[0] - RECOVERY_BATCH_SIZE * SweepsIn(events))
    decreases |events|
  {
    if events != [] {
      var counts', events' := counts[..|events|], events[..|events| - 1];
      forall k | 0 <= k < |events'| ensures Drops(counts', events', k) {
        assert Drops(counts, events, k);
      }
      CountsFall(counts', events');
      assert Drops(counts, events, |events| - 1);
    }
  }

  ghost function Counts(states: seq<Sys>, dead: set<WorkerId>): (r: seq<nat>)
    ensures |r| == |states| && forall k :: 0 <= k < |states| ==> r[k] == OrphanCount(states[k], dead)
  {
    seq(|states|, k requires 0 <= k < |states| => OrphanCount(states[k], dead))
  }

  lemma StepwiseCounts(states: seq<Sys>, events: seq<Event>, dead: set<WorkerId>)
    requires History(states, events, dead)
    requires forall k :: 0 <= k < |events| ==> Quiet(events[k], dead)
    ensures forall k :: 0 <= k < |events| ==> Drops(Counts(states, dead), events, k)
  {
    forall k | 0 <= k < |events| ensures Drops(Counts(states, dead), events, k) {
      assert FollowsAt(states, events, k, dead);
      EventCount(states[k], events[k], states[k + 1], dead);
    }
  }

  /** Recovery converges: whatever else happens meanwhile, after k sweeps at most
      n - 10k of n orphans are left; ceil(n / 10) sweeps leave none. */
  lemma RecoveryConverges(states: seq<Sys>, events: seq<Event>, dead: set<WorkerId>)
    requires History(states, events, dead)
    requires forall k :: 0 <= k < |events| ==> Quiet(events[k], dead)
    ensures OrphanCount(states[|events|], dead)
            <= Floor(OrphanCount(states[0], dead) - RECOVERY_BATCH_SIZE * SweepsIn(events))
  {
    StepwiseCounts(states, events, dead);
    CountsFall(Counts(states, dead), events);
  }

  // ---- startup cleanup -----------------------------------------------------------

  /** _cleanup_orphaned_tasks: waiting parents are un-owned, in-flight rows recovered. */
  function Cleanup(rows: Table, worker: WorkerId, blocked: set<TaskId>, terms: Terms): (r: Table)
    ensures |r| == |rows|
  {
    seq(|rows|, i requires 0 <= i < |rows| =>
      if rows[i].worker != Some(worker) then rows[i]
      else if rows[i].state.Waiting? then rows[i].(worker := None)
      else if rows[i].state.InFlight() && i !in blocked then Recovered(rows[i], terms)
      else rows[i])
  }

  /** After startup no unblocked row of the previous run is left in flight, none
      of its waiting parents is owned, and rows of other workers are untouched. */
  lemma CleanupSettles(rows: Table, worker: WorkerId, blocked: set<TaskId>, terms: Terms, i: TaskId)
    requires i < |rows|
    ensures var t' := Cleanup(rows, worker, blocked, terms)[i];
            && (t'.worker == Some(worker) && (t'.state.InFlight() || t'.state.Waiting?) ==>
                  i in blocked && t' == rows[i])
            && (rows[i].worker != Some(worker) ==> t' == rows[i])
            && (t'.state.Waiting? <==> rows[i].state.Waiting?)
  {
    if rows[i].state.InFlight() { RecoveredSettles(rows[i], terms); }
  }
}
