/** claim_task: which pending rows one claim takes, and what it makes of them. */
module Claiming {
  import opened Optional
  import opened TaskModel
  import opened TaskOrder

  /** One claim request; `now` is the database clock. An empty `types` means
      every type, an empty `singles` switches the singleton clauses off. */
  datatype Query = Query(
    worker: WorkerId,
    channels: set<string>,
    types: set<string>,
    singles: set<string>,
    now: int,
    limit: nat)

  /** First pending row of its type, whatever its channel, eta or lock. */
  predicate Canonical(rows: Table, i: TaskId)
    requires i < |rows|
  {
    forall j :: 0 <= j < |rows| && rows[j].state.Pending? && rows[j].typeCode == rows[i].typeCode && j != i
      ==> Before(rows, i, j)
  }

  predicate TypeIdle(rows: Table, typeCode: string) {
    forall j :: 0 <= j < |rows| && rows[j].typeCode == typeCode ==> !rows[j].state.InFlight()
  }

  predicate Eligible(rows: Table, q: Query, i: TaskId)
    requires i < |rows|
  {
    var t := rows[i];
    && t.state.Pending?
    && t.channel in q.channels
    && (q.types == {} || t.typeCode in q.types)
    && (t.eta.None? || t.eta.value <= q.now)
    && (t.typeCode in q.singles ==> TypeIdle(rows, t.typeCode) && Canonical(rows, i))
  }

  /** Eligible rows no other transaction holds (SKIP LOCKED). */
  function Candidates(rows: Table, q: Query, locked: set<TaskId>): set<TaskId> {
    set i: TaskId | 0 <= i < |rows| && Eligible(rows, q, i) && i !in locked
  }

  /** The ids the claim query returns. LIMIT counts rows after locked ones are skipped. */
  function Picked(rows: Table, q: Query, locked: set<TaskId>): (r: seq<TaskId>)
    ensures Ids(rows, r)
    ensures |r| <= q.limit
    ensures forall i :: i in r ==> i in Candidates(rows, q, locked)
  {
    var r := Take(Queue(rows, Candidates(rows, q, locked)), q.limit);
    assert forall k :: 0 <= k < |r| ==> r[k] in Queue(rows, Candidates(rows, q, locked));
    r
  }

  // ---- what a claim depends on -----------------------------------------------------

  /** A row with an eta may be claimed from that moment on and not before; one without
      at every moment or at none. */
  lemma DueFromEtaOn(rows: Table, q: Query, locked: set<TaskId>, i: TaskId)
    requires i < |rows|
    ensures rows[i].eta.Some? ==>
              var eta := rows[i].eta.value;
              i in Candidates(rows, q, locked) <==> q.now >= eta && i in Candidates(rows, q.(now := eta), locked)
    ensures rows[i].eta.None? ==>
              forall now :: i in Candidates(rows, q, locked) <==> i in Candidates(rows, q.(now := now), locked)
  {
    assert rows[i].eta.None? ==> forall now :: Eligible(rows, q.(now := now), i) <==> Eligible(rows, q, i);
  }

  /** Of the channels served only the row's own matters, and it has to be among them. */
  lemma OwnChannelOnly(rows: Table, q: Query, locked: set<TaskId>, i: TaskId)
    requires i < |rows|
    ensures i in Candidates(rows, q, locked)
            <==> rows[i].channel in q.channels && i in Candidates(rows, q.(channels := {rows[i].channel}), locked)
  {
  }

  /** No row of this type is assigned, running or stuck, and row i is its first pending
      one: by priority, then creation date, then id. */
  ghost predicate Head(rows: Table, i: TaskId)
    requires i < |rows|
  {
    forall j :: 0 <= j < |rows| && rows[j].typeCode == rows[i].typeCode ==>
      && rows[j].state != Assigned && rows[j].state != Running && rows[j].state != Stuck
      && (rows[j].state == Pending ==> !MoreUrgent(rows[j], j, rows[i], i))
  }

  /** Lower priority value, then older, then smaller id. */
  predicate MoreUrgent(a: Task, i: TaskId, b: Task, j: TaskId) {
    if a.priority != b.priority then a.priority < b.priority
    else if a.created != b.created then a.created < b.created
    else i < j
  }

  /** The singleton clauses add one condition, for singleton types only. */
  lemma SingletonWaitsForHead(rows: Table, q: Query, locked: set<TaskId>, i: TaskId)
    requires i < |rows|
    ensures i in Candidates(rows, q, locked)
            <==> i in Candidates(rows, q.(singles := {}), locked) && (rows[i].typeCode in q.singles ==> Head(rows, i))
  {
    if rows[i].typeCode in q.singles && i in Candidates(rows, q.(singles := {}), locked) {
      assert Head(rows, i) ==> TypeIdle(rows, rows[i].typeCode) && Canonical(rows, i);
    }
  }

  /** A due row of an unrestricted type on a served channel can be claimed exactly when
      it is pending and nobody holds it. */
  lemma PendingIsEnough(rows: Table, q: Query, locked: set<TaskId>, i: TaskId)
    requires i < |rows| && q.channels == {rows[i].channel} && q.types == {} && q.singles == {}
    requires rows[i].eta == None || rows[i].eta == Some(q.now)
    ensures i in Candidates(rows, q, locked) <==> rows[i].state == Pending && i !in locked
  {
  }

  function Assign(t: Task, worker: WorkerId, runner: RunnerId): Task {
    t.(state := Assigned, worker := Some(worker), runner := Some(runner))
  }

  /** Every picked row assigned to the worker, each under its own runner id. */
  function AssignAll(rows: Table, ids: seq<TaskId>, worker: WorkerId, uuids: seq<RunnerId>): (r: Table)
    requires Ids(rows, ids) && |ids| <= |uuids|
    ensures |r| == |rows|
    decreases |ids|
  {
    if ids == [] then rows
    else
      var rows' := rows[ids[0] := Assign(rows[ids[0]], worker, uuids[0])];
      assert forall k :: 0 <= k < |ids[1..]| ==> ids[1..][k] == ids[k + 1];
      AssignAll(rows', ids[1..], worker, uuids[1..])
  }

  function Claim(rows: Table, q: Query, locked: set<TaskId>, uuids: seq<RunnerId>): (r: Table)
    requires |Picked(rows, q, locked)| <= |uuids|
    ensures |r| == |rows|
  {
    AssignAll(rows, Picked(rows, q, locked), q.worker, uuids)
  }

  lemma PickedDistinct(rows: Table, q: Query, locked: set<TaskId>)
    ensures Sorted(rows, Picked(rows, q, locked))
    ensures forall k, l :: 0 <= k < l < |Picked(rows, q, locked)| ==>
              Picked(rows, q, locked)[k] != Picked(rows, q, locked)[l]
  {
    var c := Candidates(rows, q, locked);
    QueueSorted(rows, c);
    SortedDistinct(rows, Queue(rows, c));
  }

  /** The claim takes a row exactly when it is an unlocked eligible row with
      fewer than `limit` unlocked eligible rows served before it. */
  lemma ClaimByRank(rows: Table, q: Query, locked: set<TaskId>, i: TaskId)
    requires i < |rows|
    ensures i in Picked(rows, q, locked)
            <==> Eligible(rows, q, i) && i !in locked && |Ahead(rows, Candidates(rows, q, locked), i)| < q.limit
  {
    TakeByRank(rows, Candidates(rows, q, locked), q.limit, i);
  }

  /** The number claimed is min(limit, number of unlocked eligible rows). */
  lemma ClaimCount(rows: Table, q: Query, locked: set<TaskId>)
    ensures var n := |Candidates(rows, q, locked)|;
            |Picked(rows, q, locked)| == if q.limit < n then q.limit else n
  {
    var c := Candidates(rows, q, locked);
    QueueSorted(rows, c);
    SortedDistinct(rows, Queue(rows, c));
    DistinctCount(Queue(rows, c));
    assert Elems(Queue(rows, c)) == c;
  }

  /** No eligible unlocked row that is left behind precedes a claimed one. */
  lemma NoOvertaking(rows: Table, q: Query, locked: set<TaskId>, i: TaskId, j: TaskId)
    requires i < |rows| && j < |rows|
    requires i in Picked(rows, q, locked)
    requires Eligible(rows, q, j) && j !in locked && j !in Picked(rows, q, locked)
    ensures MoreUrgent(rows[i], i, rows[j], j)
  {
    var p, c := Picked(rows, q, locked), Candidates(rows, q, locked);
    var all := Queue(rows, c);
    QueueSorted(rows, c);
    var k :| 0 <= k < |p| && p[k] == i;
    assert j in c && j in all;
    var l :| 0 <= l < |all| && all[l] == j;
    assert l >= |p| by {
      assert forall m :: 0 <= m < |p| ==> p[m] != j;
    }
    assert all[k] == i;
  }

  /** A singleton row is claimed only while its type is idle and only if it is
      the first pending row of the type. */
  lemma SinglePick(rows: Table, q: Query, locked: set<TaskId>, i: TaskId, j: TaskId)
    requires i < |rows| && j < |rows| && i != j
    requires i in Picked(rows, q, locked)
    requires rows[i].typeCode == rows[j].typeCode && rows[i].typeCode in q.singles
    ensures !rows[j].state.InFlight()
    ensures rows[j].state.Pending? ==> Before(rows, i, j)
  {
    assert Eligible(rows, q, i);
  }

  /** So a canonical row that is not due, on a channel nobody serves, or locked
      holds back every other row of its type. */
  lemma HeadOfLine(rows: Table, q: Query, locked: set<TaskId>, head: TaskId)
    requires head < |rows| && rows[head].state.Pending? && Canonical(rows, head)
    requires rows[head].typeCode in q.singles
    requires !Eligible(rows, q, head) || head in locked
    ensures forall i :: i in Picked(rows, q, locked) ==> rows[i].typeCode != rows[head].typeCode
  {
    forall i | i in Picked(rows, q, locked) ensures rows[i].typeCode != rows[head].typeCode {
      if rows[i].typeCode == rows[head].typeCode {
        SinglePick(rows, q, locked, i, head);
        assert false;
      }
    }
  }

  /** Row by row: a picked row is assigned with its own fresh runner id, every
      other row is as it was. */
  lemma {:induction false} AssignAllAt(rows: Table, ids: seq<TaskId>, worker: WorkerId, uuids: seq<RunnerId>)
    requires Ids(rows, ids) && |ids| <= |uuids|
    requires forall k, l :: 0 <= k < l < |ids| ==> ids[k] != ids[l]
    ensures forall k :: 0 <= k < |ids| ==>
              AssignAll(rows, ids, worker, uuids)[ids[k]] == Assign(rows[ids[k]], worker, uuids[k])
    ensures forall i :: 0 <= i < |rows| && i !in ids ==> AssignAll(rows, ids, worker, uuids)[i] == rows[i]
    decreases |ids|
  {
    if ids != [] {
      var rows' := rows[ids[0] := Assign(rows[ids[0]], worker, uuids[0])];
      var rest := ids[1..];
      assert forall k :: 0 <= k < |rest| ==> rest[k] == ids[k + 1];
      AssignAllAt(rows', rest, worker, uuids[1..]);
      assert ids[0] !in rest;
      forall k | 0 < k < |ids|
        ensures AssignAll(rows, ids, worker, uuids)[ids[k]] == Assign(rows[ids[k]], worker, uuids[k])
      {
        assert ids[k] == rest[k - 1] && uuids[1..][k - 1] == uuids[k];
      }
    }
  }

  /** The claim seen from one row. */
  lemma ClaimRow(rows: Table, q: Query, locked: set<TaskId>, uuids: seq<RunnerId>, i: TaskId)
    requires |Picked(rows, q, locked)| <= |uuids| && i < |rows|
    ensures var t' := Claim(rows, q, locked, uuids)[i];
            if i in Picked(rows, q, locked) then
              && rows[i].state.Pending?
              && exists k :: 0 <= k < |Picked(rows, q, locked)| && Picked(rows, q, locked)[k] == i
                             && t' == Assign(rows[i], q.worker, uuids[k])
            else t' == rows[i]
  {
    var p := Picked(rows, q, locked);
    PickedDistinct(rows, q, locked);
    AssignAllAt(rows, p, q.worker, uuids);
    if i in p {
      assert i in Candidates(rows, q, locked);
      var k :| 0 <= k < |p| && p[k] == i;
      assert Claim(rows, q, locked, uuids)[p[k]] == Assign(rows[i], q.worker, uuids[k]);
    }
  }

  /** At most one row of a type in flight. */
  ghost predicate AtMostOne(rows: Table, typeCode: string) {
    forall i, j :: 0 <= i < j < |rows| && rows[i].typeCode == typeCode && rows[j].typeCode == typeCode
      ==> !(rows[i].state.InFlight() && rows[j].state.InFlight())
  }

  /** One claim, whatever its limit, never puts a second row of a singleton
      type in flight. */
  lemma ClaimKeepsSingleton(rows: Table, q: Query, locked: set<TaskId>, uuids: seq<RunnerId>, typeCode: string)
    requires |Picked(rows, q, locked)| <= |uuids|
    requires typeCode in q.singles && AtMostOne(rows, typeCode)
    ensures AtMostOne(Claim(rows, q, locked, uuids), typeCode)
  {
    var p := Picked(rows, q, locked);
    var rows' := Claim(rows, q, locked, uuids);
    forall i, j | 0 <= i < j < |rows| && rows'[i].typeCode == typeCode && rows'[j].typeCode == typeCode
      ensures !(rows'[i].state.InFlight() && rows'[j].state.InFlight())
    {
      ClaimRow(rows, q, locked, uuids, i);
      ClaimRow(rows, q, locked, uuids, j);
      if i in p { SinglePick(rows, q, locked, i, j); }
      if j in p { SinglePick(rows, q, locked, j, i); }
    }
  }

  // ---- claims with overlapping snapshots -----------------------------------------

  /** What a second claim sees while the first has picked and locked row i and not
      committed: the row is still pending, and nothing of its type is in flight. */
  ghost predicate Overlapped(rows: Table, q: Query, locked: set<TaskId>, i: TaskId) {
    && i < |rows| && rows[i].state.Pending? && i in locked
    && rows[i].typeCode in q.singles && TypeIdle(rows, rows[i].typeCode)
  }

  /** Another row of the type is free to be claimed and is served before i. */
  ghost predicate Overtakes(rows: Table, q: Query, locked: set<TaskId>, i: TaskId, j: TaskId)
    requires i < |rows|
  {
    && j < |rows| && j != i && rows[j].typeCode == rows[i].typeCode
    && Eligible(rows, q, j) && j !in locked && |Ahead(rows, Candidates(rows, q, locked), j)| < q.limit
    && Before(rows, j, i)
  }

  /** The second claim takes a row of the type exactly when some row overtakes i. */
  lemma SecondPickIff(rows: Table, q: Query, locked: set<TaskId>, i: TaskId)
    requires Overlapped(rows, q, locked, i)
    ensures (exists j :: j in Picked(rows, q, locked) && rows[j].typeCode == rows[i].typeCode)
            <==> exists j: TaskId :: Overtakes(rows, q, locked, i, j)
  {
    if j :| j in Picked(rows, q, locked) && rows[j].typeCode == rows[i].typeCode {
      ClaimByRank(rows, q, locked, j);
      assert Overtakes(rows, q, locked, i, j);
    }
    if j: TaskId :| Overtakes(rows, q, locked, i, j) { ClaimByRank(rows, q, locked, j); }
  }

  /** The table once both claims have committed. */
  function BothClaimed(rows: Table, q: Query, locked: set<TaskId>, uuids: seq<RunnerId>,
                       i: TaskId, worker: WorkerId, runner: RunnerId): (r: Table)
    requires |Picked(rows, q, locked)| <= |uuids| && i < |rows|
    ensures |r| == |rows|
  {
    Claim(rows, q, locked, uuids)[i := Assign(rows[i], worker, runner)]
  }

  /** Exclusion survives two overlapping claims exactly when no row overtakes i. */
  lemma OverlapSafeIff(rows: Table, q: Query, locked: set<TaskId>, uuids: seq<RunnerId>,
                       i: TaskId, worker: WorkerId, runner: RunnerId)
    requires Overlapped(rows, q, locked, i) && |Picked(rows, q, locked)| <= |uuids|
    ensures AtMostOne(BothClaimed(rows, q, locked, uuids, i, worker, runner), rows[i].typeCode)
            <==> !exists j: TaskId :: Overtakes(rows, q, locked, i, j)
  {
    var code, p := rows[i].typeCode, Picked(rows, q, locked);
    var both := BothClaimed(rows, q, locked, uuids, i, worker, runner);
    forall j: TaskId | j < |rows|
      ensures both[j].typeCode == rows[j].typeCode
      ensures both[j].state.InFlight() && rows[j].typeCode == code <==> j == i || (j in p && rows[j].typeCode == code)
    {
      ClaimRow(rows, q, locked, uuids, j);
    }
    SecondPickIff(rows, q, locked, i);
    if j :| j in p && rows[j].typeCode == code {
      assert j !in locked && both[j].state.InFlight() && both[i].state.InFlight();
      if j < i { assert both[j].typeCode == code && both[i].typeCode == code; }
    }
  }

  /** Every pending row of i's type now served before i was already so before. */
  ghost predicate NoneCameAhead(rows0: Table, rows: Table, i: TaskId)
    requires i < |rows0| && i < |rows|
  {
    forall j: TaskId :: j < |rows| && j != i && rows[j].state.Pending? && rows[j].typeCode == rows[i].typeCode
                        && Before(rows, j, i)
      ==> j < |rows0| && rows0[j].state.Pending? && rows0[j].typeCode == rows0[i].typeCode && Before(rows0, j, i)
  }

  /** So exclusion survives when, between the two snapshots, no pending row of the
      type has come to precede the row the first claim picked. */
  lemma OverlapSafe(rows0: Table, q0: Query, locked0: set<TaskId>, rows: Table, q: Query, locked: set<TaskId>,
                    uuids: seq<RunnerId>, i: TaskId, worker: WorkerId, runner: RunnerId)
    requires i in Picked(rows0, q0, locked0) && rows0[i].typeCode in q0.singles
    requires Overlapped(rows, q, locked, i) && |Picked(rows, q, locked)| <= |uuids|
    requires NoneCameAhead(rows0, rows, i)
    ensures AtMostOne(BothClaimed(rows, q, locked, uuids, i, worker, runner), rows[i].typeCode)
  {
    assert i in Candidates(rows0, q0, locked0) && Canonical(rows0, i);
    OverlapSafeIff(rows, q, locked, uuids, i, worker, runner);
  }
}
