/** Worker records: registration with reuse, heartbeats, and stale detection. */
module WorkerRecords {
  import opened TaskModel
  import opened Recovery

  datatype Health = Active | Stuck | Dead

  datatype Record = Record(service: string, dbname: string, hostname: string, uuid: nat, health: Health, beat: int)

  /** A record's id is its position. */
  type Records = seq<Record>

  predicate SameHome(r: Record, service: string, dbname: string, hostname: string) {
    r.service == service && r.dbname == dbname && r.hostname == hostname
  }

  /** One record per service, database and host. */
  ghost predicate OnePerHome(rs: Records) {
    forall i, j :: 0 <= i < j < |rs| ==> !SameHome(rs[i], rs[j].service, rs[j].dbname, rs[j].hostname)
  }

  /** Position of the record of this home, or the number of records. */
  function Home(rs: Records, service: string, dbname: string, hostname: string): (i: nat)
    ensures i <= |rs|
    ensures i < |rs| ==> SameHome(rs[i], service, dbname, hostname)
    ensures forall j :: 0 <= j < i ==> !SameHome(rs[j], service, dbname, hostname)
  {
    if rs == [] then 0
    else if SameHome(rs[0], service, dbname, hostname) then 0
    else
      var i := Home(rs[1..], service, dbname, hostname);
      assert forall j :: 0 < j < i + 1 ==> rs[j] == rs[1..][j - 1];
      i + 1
  }

  /** Writes that keep the homes keep every lookup. */
  lemma SameHomes(rs: Records, rs': Records, service: string, dbname: string, hostname: string)
    requires |rs| == |rs'|
    requires forall i :: 0 <= i < |rs| ==> rs'[i] == rs[i].(health := rs'[i].health)
    ensures Home(rs', service, dbname, hostname) == Home(rs, service, dbname, hostname)
  {
    var i, j := Home(rs, service, dbname, hostname), Home(rs', service, dbname, hostname);
    assert forall k :: 0 <= k < |rs| ==>
      (SameHome(rs'[k], service, dbname, hostname) <==> SameHome(rs[k], service, dbname, hostname));
    assert i == j;
  }

  /** Silent since before the threshold, not yet declared dead, not locked. */
  predicate Stale(r: Record, threshold: int) {
    !r.health.Dead? && r.beat < threshold
  }

  function MarkStale(rs: Records, locked: set<nat>, threshold: int): (r: Records)
    ensures |r| == |rs|
  {
    seq(|rs|, i requires 0 <= i < |rs| =>
      if i !in locked && Stale(rs[i], threshold) then rs[i].(health := Dead) else rs[i])
  }

  /** The workers whose in-flight tasks a sweep recovers. */
  function DeadWorkers(rs: Records): set<WorkerId> {
    set i: WorkerId | 0 <= i < |rs| && rs[i].health.Dead?
  }

  /** After a stale check the dead workers are the ones dead before plus exactly the
      unlocked ones whose last heartbeat is older than the threshold; sweeping then
      leaves none of the first ten of their in-flight tasks, and touches no task of
      a worker that has beaten since. */
  lemma StaleCheckAndSweep(rs: Records, locked: set<nat>, threshold: int, rows: Table, terms: Terms, i: TaskId)
    requires i < |rows| && rows[i].state.InFlight() && rows[i].worker.Some? && rows[i].worker.value < |rs|
    ensures var w := rows[i].worker.value;
            var dead := DeadWorkers(MarkStale(rs, locked, threshold));
            && (w in dead <==> rs[w].health.Dead? || (w !in locked && rs[w].beat < threshold))
            && (w !in dead ==> Sweep(rows, dead, {}, terms)[i] == rows[i])
            && (w in dead && i in Window(rows, dead) ==> !Sweep(rows, dead, {}, terms)[i].state.InFlight())
  {
    var dead := DeadWorkers(MarkStale(rs, locked, threshold));
    if rows[i].worker.value in dead { RecoveredSettles(rows[i], terms); } else { SweepFrame(rows, dead, {}, terms, i); }
  }

  class WorkerTable {
    var records: Records
    /** Records other transactions hold locked at this moment. */
    var locked: set<nat>

    constructor ()
      ensures records == [] && locked == {}
    {
      records, locked := [], {};
    }

    /** Reuses the record of this home under a new uuid, or creates one. */
    method FindOrCreate(service: string, dbname: string, hostname: string, uuid: nat, now: int) returns (id: WorkerId)
      modifies this`records
      ensures OnePerHome(old(records)) ==> OnePerHome(records)
      ensures id == Home(old(records), service, dbname, hostname) && id < |records|
      ensures records[id] == Record(service, dbname, hostname, uuid, Active, now)
      ensures id < |old(records)| <==> exists i :: 0 <= i < |old(records)| && old(records)[i].service == service
                                                   && old(records)[i].dbname == dbname
                                                   && old(records)[i].hostname == hostname
      ensures |records| == if id < |old(records)| then |old(records)| else |old(records)| + 1
      ensures forall i :: 0 <= i < |old(records)| && i != id ==> records[i] == old(records)[i]
    {
      id := Home(records, service, dbname, hostname);
      if id < |records| {
        records := records[id := records[id].(uuid := uuid, health := Active, beat := now)];
      } else {
        records := records + [Record(service, dbname, hostname, uuid, Active, now)];
      }
    }

    /** A heartbeat also revives a record a peer declared dead. */
    method Heartbeat(id: WorkerId, stuck: bool, now: int)
      requires id < |records|
      modifies this`records
      ensures records
              == old(records)[id := old(records)[id].(beat := now, health := if stuck then Health.Stuck else Active)]
      ensures id !in DeadWorkers(records)
    {
      records := records[id := records[id].(beat := now, health := if stuck then Health.Stuck else Active)];
    }

    /** Exactly these workers join the dead ones; a record keeps its home, uuid and
        last heartbeat, so the restarted worker finds it again. */
    method MarkDead(ids: set<nat>)
      requires forall i :: i in ids ==> i < |records|
      modifies this`records
      ensures DeadWorkers(records) == DeadWorkers(old(records)) + ids
      ensures |records| == |old(records)|
      ensures forall i :: 0 <= i < |records| && i !in ids ==> records[i] == old(records)[i]
      ensures forall i :: 0 <= i < |records| ==> records[i] == old(records)[i].(health := records[i].health)
      ensures forall service, dbname, hostname ::
                Home(records, service, dbname, hostname) == Home(old(records), service, dbname, hostname)
    {
      var was := records;
      records := seq(|records|, i requires 0 <= i < |records| reads this`records =>
        if i in ids then records[i].(health := Dead) else records[i]);
      forall service, dbname, hostname
        ensures Home(records, service, dbname, hostname) == Home(was, service, dbname, hostname)
      {
        SameHomes(was, records, service, dbname, hostname);
      }
    }

    method CheckStaleWorkers(now: int, timeout: int) returns (stale: set<nat>)
      modifies this`records
      ensures stale == set i: nat | 0 <= i < |old(records)| && i !in locked && Stale(old(records)[i], now - timeout)
      ensures records == MarkStale(old(records), locked, now - timeout)
      ensures DeadWorkers(records) == DeadWorkers(old(records)) + stale
    {
      stale := set i: nat | 0 <= i < |records| && i !in locked && Stale(records[i], now - timeout);
      if stale != {} {
        MarkDead(stale);
      }
      forall i: nat | i < |records| ensures records[i] == MarkStale(old(records), locked, now - timeout)[i] {
        assert i in stale <==> i !in locked && Stale(old(records)[i], now - timeout);
      }
    }
  }
}
