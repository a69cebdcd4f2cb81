/** The claim and sweep order: ORDER BY priority, date_created (then id), as a
    sorted listing of all ids, and selection of a subset in that order. */
module TaskOrder {
  import opened TaskModel

  /** Row i is served before row j. */
  predicate Before(rows: Table, i: TaskId, j: TaskId)
    requires i < |rows| && j < |rows|
  {
    || rows[i].priority < rows[j].priority
    || (rows[i].priority == rows[j].priority && rows[i].created < rows[j].created)
    || (rows[i].priority == rows[j].priority && rows[i].created == rows[j].created && i < j)
  }

  predicate Ids(rows: Table, ids: seq<TaskId>) {
    forall k :: 0 <= k < |ids| ==> ids[k] < |rows|
  }

  ghost predicate Sorted(rows: Table, ids: seq<TaskId>)
    requires Ids(rows, ids)
  {
    forall k, l :: 0 <= k < l < |ids| ==> Before(rows, ids[k], ids[l])
  }

  function Insert(rows: Table, ids: seq<TaskId>, x: TaskId): (r: seq<TaskId>)
    requires Ids(rows, ids) && x < |rows|
    ensures Ids(rows, r)
    ensures forall i :: i in r <==> i == x || i in ids
  {
    if ids == [] then [x]
    else if Before(rows, x, ids[0]) then [x] + ids
    else [ids[0]] + Insert(rows, ids[1..], x)
  }

  lemma {:induction false} InsertSorted(rows: Table, ids: seq<TaskId>, x: TaskId)
    requires Ids(rows, ids) && x < |rows| && Sorted(rows, ids) && x !in ids
    ensures Sorted(rows, Insert(rows, ids, x))
  {
    if ids != [] && !Before(rows, x, ids[0]) {
      InsertSorted(rows, ids[1..], x);
      var tail := Insert(rows, ids[1..], x);
      forall l | 0 <= l < |tail| ensures Before(rows, ids[0], tail[l]) {
        assert tail[l] in tail;
        if tail[l] != x {
          var m :| 0 <= m < |ids[1..]| && ids[1..][m] == tail[l];
        } else {
          assert ids[0] in ids;
        }
      }
    } else if ids != [] {
      forall l | 0 <= l < |ids| ensures Before(rows, x, ids[l]) {
      }
    }
  }

  /** The first n ids in serving order. */
  function Order(rows: Table, n: nat): (r: seq<TaskId>)
    requires n <= |rows|
    ensures Ids(rows, r)
    ensures forall i :: i in r <==> 0 <= i < n
  {
    if n == 0 then [] else Insert(rows, Order(rows, n - 1), n - 1)
  }

  lemma {:induction false} OrderSorted(rows: Table, n: nat)
    requires n <= |rows|
    ensures Sorted(rows, Order(rows, n))
  {
    if n > 0 {
      OrderSorted(rows, n - 1);
      InsertSorted(rows, Order(rows, n - 1), n - 1);
    }
  }

  ghost predicate SameKeys(rows: Table, rows': Table) {
    |rows| == |rows'| &&
    forall i :: 0 <= i < |rows| ==>
      rows[i].priority == rows'[i].priority && rows[i].created == rows'[i].created
  }

  lemma {:induction false} InsertCongruent(rows: Table, rows': Table, ids: seq<TaskId>, x: TaskId)
    requires SameKeys(rows, rows') && Ids(rows, ids) && x < |rows|
    ensures Insert(rows, ids, x) == Insert(rows', ids, x)
  {
    if ids != [] {
      InsertCongruent(rows, rows', ids[1..], x);
    }
  }

  /** Writes that leave priority and creation date alone keep the order. */
  lemma {:induction false} OrderCongruent(rows: Table, rows': Table, n: nat)
    requires SameKeys(rows, rows') && n <= |rows|
    ensures Order(rows, n) == Order(rows', n)
  {
    if n > 0 {
      OrderCongruent(rows, rows', n - 1);
      InsertCongruent(rows, rows', Order(rows, n - 1), n - 1);
    }
  }

  // ---- selection in order ----------------------------------------------

  function Keep(ids: seq<TaskId>, chosen: set<TaskId>): (r: seq<TaskId>)
    ensures forall i :: i in r <==> i in ids && i in chosen
    ensures |r| <= |ids|
  {
    if ids == [] then []
    else (if ids[0] in chosen then [ids[0]] else []) + Keep(ids[1..], chosen)
  }

  lemma {:induction false} KeepSorted(rows: Table, ids: seq<TaskId>, chosen: set<TaskId>)
    requires Ids(rows, ids) && Sorted(rows, ids)
    ensures Ids(rows, Keep(ids, chosen)) && Sorted(rows, Keep(ids, chosen))
  {
    if ids != [] {
      KeepSorted(rows, ids[1..], chosen);
      var tail := Keep(ids[1..], chosen);
      forall l | 0 <= l < |tail| ensures tail[l] < |rows| && Before(rows, ids[0], tail[l]) {
        assert tail[l] in tail;
        var m :| 0 <= m < |ids[1..]| && ids[1..][m] == tail[l];
      }
    }
  }

  /** The rows of a set, in serving order. */
  function Queue(rows: Table, chosen: set<TaskId>): (r: seq<TaskId>)
    ensures Ids(rows, r)
    ensures forall i :: i in r <==> i < |rows| && i in chosen
  {
    var r := Keep(Order(rows, |rows|), chosen);
    assert forall k :: 0 <= k < |r| ==> r[k] in r;
    r
  }

  lemma QueueSorted(rows: Table, chosen: set<TaskId>)
    ensures Sorted(rows, Queue(rows, chosen))
  {
    OrderSorted(rows, |rows|);
    KeepSorted(rows, Order(rows, |rows|), chosen);
  }

  function Take(ids: seq<TaskId>, limit: nat): (r: seq<TaskId>)
    ensures |r| == if limit < |ids| then limit else |ids|
    ensures forall k :: 0 <= k < |r| ==> r[k] == ids[k]
  {
    if limit < |ids| then ids[..limit] else ids
  }

  lemma SortedDistinct(rows: Table, ids: seq<TaskId>)
    requires Ids(rows, ids) && Sorted(rows, ids)
    ensures forall k, l :: 0 <= k < l < |ids| ==> ids[k] != ids[l]
  {
    forall k, l | 0 <= k < l < |ids| ensures ids[k] != ids[l] {
      assert Before(rows, ids[k], ids[l]);
    }
  }

  ghost function Elems(ids: seq<TaskId>): set<TaskId> {
    set i | i in ids
  }

  lemma {:induction false} DistinctCount(ids: seq<TaskId>)
    requires forall k, l :: 0 <= k < l < |ids| ==> ids[k] != ids[l]
    ensures |Elems(ids)| == |ids|
  {
    if ids != [] {
      DistinctCount(ids[1..]);
      assert Elems(ids) == {ids[0]} + Elems(ids[1..]);
      assert ids[0] !in Elems(ids[1..]);
    }
  }

  /** The members of a set that are served before row i. */
  ghost function Ahead(rows: Table, chosen: set<TaskId>, i: TaskId): set<TaskId>
    requires i < |rows|
  {
    set x | x in chosen && x < |rows| && Before(rows, x, i)
  }

  /** Position in the queue counts the members ahead. */
  lemma QueuePosition(rows: Table, chosen: set<TaskId>, k: nat)
    requires k < |Queue(rows, chosen)|
    ensures |Ahead(rows, chosen, Queue(rows, chosen)[k])| == k
  {
    var q := Queue(rows, chosen);
    QueueSorted(rows, chosen);
    SortedDistinct(rows, q);
    DistinctCount(q[..k]);
    assert Ahead(rows, chosen, q[k]) == Elems(q[..k]) by {
      forall x | x in Ahead(rows, chosen, q[k]) ensures x in q[..k] {
        var m :| 0 <= m < |q| && q[m] == x;
        assert m < k;
        assert q[..k][m] == x;
      }
      forall x | x in q[..k] ensures x in Ahead(rows, chosen, q[k]) {
        var m :| 0 <= m < k && q[..k][m] == x;
        assert q[m] == x && q[m] in q;
        assert Before(rows, q[m], q[k]);
      }
    }
  }

  /** First-`limit` selection has a rank characterisation that does not mention
      any listing: a member is taken exactly when fewer than `limit` members
      are served before it. */
  lemma TakeByRank(rows: Table, chosen: set<TaskId>, limit: nat, i: TaskId)
    requires i < |rows|
    ensures i in Take(Queue(rows, chosen), limit)
            <==> i in chosen && |Ahead(rows, chosen, i)| < limit
  {
    var q := Queue(rows, chosen);
    QueueSorted(rows, chosen);
    SortedDistinct(rows, q);
    if i in chosen {
      var k :| 0 <= k < |q| && q[k] == i;
      QueuePosition(rows, chosen, k);
      assert k < limit ==> Take(q, limit)[k] == i;
    } else {
      assert i !in q;
    }
  }
}
