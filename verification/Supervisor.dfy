/** The background service's beat loop: one worker per active database, and the
    timer that acts when the service stays stuck. */
module Supervisor {
  import opened Optional

  type WorkerThreadId = nat

  datatype Probe = Probe(dbname: string, active: bool)

  /** How spawning a worker ends: a live thread, a registered worker whose thread
      could not start, or an exception before anything was registered. */
  datatype Launch = Starts | FailsToStart | Raises

  datatype Thread = Thread(dbname: string, alive: bool, stopped: bool)

  /** Registry of the service, and every worker thread it ever created (a thread's
      id is its position). */
  datatype Fleet = Fleet(workers: map<string, WorkerThreadId>, threads: seq<Thread>)

  /** Every live worker is the registered one of its database. */
  ghost predicate Supervised(f: Fleet) {
    && (forall w :: 0 <= w < |f.threads| && f.threads[w].alive ==>
          f.threads[w].dbname in f.workers && f.workers[f.threads[w].dbname] == w)
    && (forall db :: db in f.workers ==> f.workers[db] < |f.threads| && f.threads[f.workers[db]].dbname == db)
  }

  // ---- what one beat does, as values ---------------------------------------------

  function Spawned(f: Fleet, db: string, launch: Launch): Fleet {
    match launch
    case Raises => f
    case Starts => Fleet(f.workers[db := |f.threads|], f.threads + [Thread(db, true, false)])
    case FailsToStart => Fleet(f.workers[db := |f.threads|], f.threads + [Thread(db, false, false)])
  }

  function SpawnAll(f: Fleet, probes: seq<Probe>, launches: seq<Launch>): Fleet
    requires |launches| == |probes|
    decreases |probes|
  {
    if probes == [] then f
    else
      var last := |probes| - 1;
      var f' := SpawnAll(f, probes[..last], launches[..last]);
      if probes[last].active && probes[last].dbname !in f'.workers
      then Spawned(f', probes[last].dbname, launches[last]) else f'
  }

  /** A database keeps its worker only if its last probe says it is active. */
  function Wanted(probes: seq<Probe>, db: string): bool {
    if probes == [] then false
    else if probes[|probes| - 1].dbname == db then probes[|probes| - 1].active
    else Wanted(probes[..|probes| - 1], db)
  }

  function StopUnwanted(f: Fleet, probes: seq<Probe>): Fleet {
    Fleet(f.workers, seq(|f.threads|, w requires 0 <= w < |f.threads| =>
      var t := f.threads[w];
      if t.dbname in f.workers && f.workers[t.dbname] == w && !Wanted(probes, t.dbname) && t.alive
      then t.(stopped := true) else t))
  }

  predicate DeadEntry(f: Fleet, db: string) {
    db in f.workers && f.workers[db] < |f.threads| && !f.threads[f.workers[db]].alive
  }

  function Cleaned(f: Fleet): Fleet {
    Fleet(map db | db in f.workers && !DeadEntry(f, db) :: f.workers[db], f.threads)
  }

  /** The last probe of this database. */
  predicate LastProbe(probes: seq<Probe>, db: string, k: int) {
    0 <= k < |probes| && probes[k].dbname == db && forall j :: k < j < |probes| ==> probes[j].dbname != db
  }

  lemma {:induction false} WantedByLastProbe(probes: seq<Probe>, db: string)
    ensures Wanted(probes, db) <==> exists k :: LastProbe(probes, db, k) && probes[k].active
    decreases |probes|
  {
    if probes != [] {
      var last := |probes| - 1;
      var before := probes[..last];
      if probes[last].dbname == db {
        assert LastProbe(probes, db, last);
      } else {
        WantedByLastProbe(before, db);
        assert forall k :: 0 <= k < last ==> before[k] == probes[k];
        assert forall k :: k != last ==> (LastProbe(probes, db, k) <==> LastProbe(before, db, k));
      }
    }
  }

  /** A beat signals exactly the live registered workers whose database has not been
      probed as active, and changes nothing else. */
  lemma SignalledIff(f: Fleet, probes: seq<Probe>, w: WorkerThreadId)
    requires w < |f.threads|
    ensures var t := f.threads[w];
            var wanted := exists k :: LastProbe(probes, t.dbname, k) && probes[k].active;
            && StopUnwanted(f, probes).workers == f.workers
            && StopUnwanted(f, probes).threads[w]
               == t.(stopped := t.stopped || (t.alive && !wanted && t.dbname in f.workers && f.workers[t.dbname] == w))
  {
    WantedByLastProbe(probes, f.threads[w].dbname);
  }

  datatype Event =
    | Spawn(probes: seq<Probe>, launches: seq<Launch>)
    | Stop(probes: seq<Probe>)
    | Clean
    | Dies(worker: WorkerThreadId)

  function Happens(f: Fleet, e: Event): Fleet {
    match e
    case Spawn(probes, launches) => if |probes| == |launches| then SpawnAll(f, probes, launches) else f
    case Stop(probes) => StopUnwanted(f, probes)
    case Clean => Cleaned(f)
    case Dies(w) => if w < |f.threads| then f.(threads := f.threads[w := f.threads[w].(alive := false)]) else f
  }

  function After(events: seq<Event>): Fleet {
    if events == [] then Fleet(map[], []) else Happens(After(events[..|events| - 1]), events[|events| - 1])
  }

  lemma {:induction false} SpawnSupervised(f: Fleet, probes: seq<Probe>, launches: seq<Launch>)
    requires Supervised(f) && |launches| == |probes|
    ensures Supervised(SpawnAll(f, probes, launches))
    ensures |SpawnAll(f, probes, launches).threads| >= |f.threads|
    decreases |probes|
  {
    if probes != [] { SpawnSupervised(f, probes[..|probes| - 1], launches[..|probes| - 1]); }
  }

  lemma {:induction false} AlwaysSupervised(events: seq<Event>)
    ensures Supervised(After(events))
    decreases |events|
  {
    if events != [] {
      var before, e := After(events[..|events| - 1]), events[|events| - 1];
      AlwaysSupervised(events[..|events| - 1]);
      if e.Spawn? && |e.probes| == |e.launches| { SpawnSupervised(before, e.probes, e.launches); }
    }
  }

  /** Over any sequence of beats, with probe results changing and workers dying at
      any moment, no database has two live workers, and a live worker is never
      missing from the registry. */
  lemma OneLiveWorkerPerDatabase(events: seq<Event>, v: WorkerThreadId, w: WorkerThreadId)
    requires v < |After(events).threads| && w < |After(events).threads|
    requires After(events).threads[v].alive && After(events).threads[w].alive
    requires After(events).threads[v].dbname == After(events).threads[w].dbname
    ensures v == w
    ensures After(events).threads[v].dbname in After(events).workers
  {
    AlwaysSupervised(events);
  }

  /** A worker leaves the registry only when it is dead, and stays dead. */
  lemma RemovedWorkersAreDead(events: seq<Event>, e: Event, db: string)
    requires var f := After(events); db in f.workers && f.workers[db] < |f.threads|
    requires var f, f' := After(events), After(events + [e]);
             db !in f'.workers || f'.workers[db] != f.workers[db]
    ensures After(events).workers[db] < |After(events + [e]).threads|
    ensures !After(events + [e]).threads[After(events).workers[db]].alive
    ensures !After(events).threads[After(events).workers[db]].alive
  {
    assert (events + [e])[..|events|] == events;
    var f := After(events);
    if e.Spawn? && |e.probes| == |e.launches| {
      SpawnKeeps(f, e.probes, e.launches, db);
    }
  }

  lemma {:induction false} SpawnKeeps(f: Fleet, probes: seq<Probe>, launches: seq<Launch>, db: string)
    requires |launches| == |probes| && db in f.workers
    ensures var f' := SpawnAll(f, probes, launches); db in f'.workers && f'.workers[db] == f.workers[db]
    decreases |probes|
  {
    if probes != [] { SpawnKeeps(f, probes[..|probes| - 1], launches[..|probes| - 1], db); }
  }

  /** Every active database has a registered worker after a beat in which spawning
      raises nothing. */
  lemma {:induction false} ActiveDatabasesServed(f: Fleet, probes: seq<Probe>, launches: seq<Launch>, k: nat)
    requires |launches| == |probes| && k < |probes| && probes[k].active
    requires forall j :: 0 <= j < |launches| ==> !launches[j].Raises?
    ensures probes[k].dbname in SpawnAll(f, probes, launches).workers
    decreases |probes|
  {
    var last := |probes| - 1;
    if k < last {
      assert probes[..last][k] == probes[k];
      assert forall j :: 0 <= j < last ==> launches[..last][j] == launches[j];
      ActiveDatabasesServed(f, probes[..last], launches[..last], k);
    }
  }

  // ---- the stuck timer ---------------------------------------------------------------

  datatype Beat = Beat(time: int, stuck: bool)

  datatype Tick = Tick(fires: bool, since: Option<int>)

  /** One _check_stuck: a timeout of 0 disables it. */
  function CheckStuck(timeout: nat, since: Option<int>, beat: Beat): Tick {
    if timeout == 0 then Tick(false, since)
    else if !beat.stuck then Tick(false, None)
    else match since
      case None => Tick(false, Some(beat.time))
      case Some(start) => if beat.time - start >= timeout then Tick(true, None) else Tick(false, since)
  }

  /** The timer after the first k beats. */
  function Since(timeout: nat, beats: seq<Beat>, k: nat): Option<int>
    requires k <= |beats|
  {
    if k == 0 then None else CheckStuck(timeout, Since(timeout, beats, k - 1), beats[k - 1]).since
  }

  predicate Fires(timeout: nat, beats: seq<Beat>, k: nat)
    requires k < |beats|
  {
    CheckStuck(timeout, Since(timeout, beats, k), beats[k]).fires
  }

  /** The countdown in force at beat k began at beat j: stuck ever since, nothing
      fired since, and just before it the service was not stuck or had just fired. */
  ghost predicate Countdown(timeout: nat, beats: seq<Beat>, j: nat, k: nat)
    requires j <= k < |beats|
  {
    && (forall i :: j <= i <= k ==> beats[i].stuck)
    && (forall i :: j <= i < k ==> !Fires(timeout, beats, i))
    && (j == 0 || !beats[j - 1].stuck || Fires(timeout, beats, j - 1))
  }

  lemma {:induction false} CountdownHolds(timeout: nat, beats: seq<Beat>, j: nat, k: nat)
    requires timeout > 0 && j <= k < |beats| && Countdown(timeout, beats, j, k)
    ensures Since(timeout, beats, k) == if j == k then None else Some(beats[j].time)
    decreases k
  {
    if j < k {
      assert !Fires(timeout, beats, k - 1);
      CountdownHolds(timeout, beats, j, k - 1);
    } else if k > 0 {
      assert !beats[k - 1].stuck || Fires(timeout, beats, k - 1);
    }
  }

  lemma {:induction false} CountdownExists(timeout: nat, beats: seq<Beat>, k: nat) returns (j: nat)
    requires timeout > 0 && k < |beats| && beats[k].stuck
    ensures j <= k && Countdown(timeout, beats, j, k)
  {
    if k == 0 || !beats[k - 1].stuck || Fires(timeout, beats, k - 1) {
      j := k;
    } else {
      j := CountdownExists(timeout, beats, k - 1);
    }
  }

  ghost predicate LongStuck(timeout: nat, beats: seq<Beat>, j: nat, k: nat)
    requires k < |beats|
  {
    j <= k && Countdown(timeout, beats, j, k) && beats[k].time - beats[j].time >= timeout
  }

  /** The timer fires at a beat exactly when every beat since the later of the last
      non-stuck beat and the last firing is stuck, and the first of them is at
      least the timeout earlier. */
  lemma FiresIff(timeout: nat, beats: seq<Beat>, k: nat)
    requires k < |beats|
    ensures Fires(timeout, beats, k) <==> timeout > 0 && exists j: nat :: LongStuck(timeout, beats, j, k)
  {
    if timeout > 0 && beats[k].stuck {
      var j := CountdownExists(timeout, beats, k);
      CountdownHolds(timeout, beats, j, k);
      if Fires(timeout, beats, k) { assert LongStuck(timeout, beats, j, k); }
      forall i: nat | LongStuck(timeout, beats, i, k) ensures Fires(timeout, beats, k) {
        CountdownHolds(timeout, beats, i, k);
      }
    }
  }

  /** With a clock that does not run backwards, firings are at least the timeout apart. */
  lemma FiringsApart(timeout: nat, beats: seq<Beat>, i: nat, k: nat)
    requires i < k < |beats| && Fires(timeout, beats, i) && Fires(timeout, beats, k)
    requires forall a, b :: 0 <= a < b < |beats| ==> beats[a].time <= beats[b].time
    ensures beats[k].time - beats[i].time >= timeout
  {
    FiresIff(timeout, beats, k);
    var j: nat :| LongStuck(timeout, beats, j, k);
    assert i < j;
  }

  // ---- the service object ---------------------------------------------------------------

  class BackgroundService {
    const dieOnStuckTimeout: nat
    const workerMode: bool
    var workers: map<string, WorkerThreadId>
    /** Every worker thread ever created; liveness changes under the service's feet. */
    var threads: seq<Thread>
    var stuckSince: Option<int>
    var hardReload: bool

    function State(): Fleet reads this {
      Fleet(workers, threads)
    }

    constructor (dieOnStuckTimeout: nat, workerMode: bool)
      ensures State() == Fleet(map[], []) && stuckSince == None && !hardReload
      ensures this.dieOnStuckTimeout == dieOnStuckTimeout && this.workerMode == workerMode
    {
      this.dieOnStuckTimeout, this.workerMode := dieOnStuckTimeout, workerMode;
      workers, threads, stuckSince, hardReload := map[], [], None, false;
    }

    method SpawnWorker(db: string, launch: Launch)
      modifies this`workers, this`threads
      ensures State() == Spawned(old(State()), db, launch)
    {
      if launch.Raises? {
        return;
      }
      var worker := |threads|;
      threads := threads + [Thread(db, false, false)];
      workers := workers[db := worker];
      if launch.Starts? {
        threads := threads[worker := threads[worker].(alive := true)];
      }
      assert threads == old(threads) + [Thread(db, launch.Starts?, false)];
    }

    method SpawnWorkers(probes: seq<Probe>, launches: seq<Launch>)
      requires |launches| == |probes|
      modifies this`workers, this`threads
      ensures State() == SpawnAll(old(State()), probes, launches)
    {
      var k := 0;
      while k < |probes|
        invariant 0 <= k <= |probes|
        invariant State() == SpawnAll(old(State()), probes[..k], launches[..k])
      {
        assert probes[..k + 1][..k] == probes[..k] && launches[..k + 1][..k] == launches[..k];
        if probes[k].active && probes[k].dbname !in workers {
          SpawnWorker(probes[k].dbname, launches[k]);
        }
        k := k + 1;
      }
      assert probes[..k] == probes && launches[..k] == launches;
    }

    /** Signals a live worker that is not already stopping. */
    method StopWorker(db: string)
      requires Supervised(State())
      modifies this`threads
      ensures threads == if db in workers && old(threads)[workers[db]].alive
                         then old(threads)[workers[db] := old(threads)[workers[db]].(stopped := true)] else old(threads)
    {
      if db !in workers {
        return;
      }
      var w := workers[db];
      if threads[w].alive && !threads[w].stopped {
        threads := threads[w := threads[w].(stopped := true)];
      } else if threads[w].alive {
        assert threads[w] == threads[w].(stopped := true);
      }
    }

    method StopWorkers(probes: seq<Probe>)
      requires Supervised(State())
      modifies this`threads
      ensures State() == StopUnwanted(old(State()), probes)
      ensures Supervised(State())
    {
      var todo := workers.Keys;
      while todo != {}
        invariant todo <= workers.Keys && Supervised(State()) && |threads| == |old(threads)|
        invariant forall w :: 0 <= w < |threads| ==>
                    var t := old(threads)[w];
                    threads[w] == if t.dbname in workers && t.dbname !in todo && workers[t.dbname] == w
                                     && !Wanted(probes, t.dbname) && t.alive
                                  then t.(stopped := true) else t
        decreases |todo|
      {
        var db :| db in todo;
        if !Wanted(probes, db) {
          StopWorker(db);
        }
        todo := todo - {db};
      }
    }

    method CleanWorkers()
      requires Supervised(State())
      modifies this`workers
      ensures State() == Cleaned(old(State()))
      ensures Supervised(State())
    {
      var stopped := set db | db in workers && !threads[workers[db]].alive;
      workers := workers - stopped;
      assert workers == Cleaned(old(State())).workers;
    }

    method IsStuck(stuckWorkers: set<WorkerThreadId>) returns (stuck: bool)
      requires Supervised(State())
      ensures stuck <==> exists w :: 0 <= w < |threads| && threads[w].alive && w in stuckWorkers
    {
      stuck := exists db :: db in workers && threads[workers[db]].alive && workers[db] in stuckWorkers;
    }

    /** Only a service in worker mode can ask for a process restart. */
    method OnServiceStuck()
      modifies this`hardReload
      ensures hardReload == (old(hardReload) || workerMode)
    {
      if workerMode {
        hardReload := true;
      }
    }

    method CheckServiceStuck(now: int, stuckWorkers: set<WorkerThreadId>) returns (fired: bool)
      requires Supervised(State())
      modifies this`stuckSince, this`hardReload
      ensures var stuck := exists w :: 0 <= w < |threads| && threads[w].alive && w in stuckWorkers;
              Tick(fired, stuckSince) == CheckStuck(dieOnStuckTimeout, old(stuckSince), Beat(now, stuck))
      ensures hardReload == (old(hardReload) || (fired && workerMode))
    {
      if dieOnStuckTimeout == 0 {
        return false;
      }
      var stuck := IsStuck(stuckWorkers);
      if stuck {
        if stuckSince.None? {
          stuckSince := Some(now);
          return false;
        }
        if now - stuckSince.value >= dieOnStuckTimeout {
          OnServiceStuck();
          stuckSince := None;
          return true;
        }
        fired := false;
      } else {
        stuckSince := None;
        fired := false;
      }
    }
  }
}
