/** update_progress and its upward propagation. */
module Progress {
  import opened Optional
  import opened TaskModel

  function KidSum(rows: Table, p: TaskId, n: nat): int
    requires n <= |rows|
  {
    if n == 0 then 0
    else KidSum(rows, p, n - 1) + if rows[n - 1].parent == Some(p) then rows[n - 1].progress else 0
  }

  function KidCount(rows: Table, p: TaskId, n: nat): (r: nat)
    requires n <= |rows|
    ensures r == 0 <==> forall i :: 0 <= i < n ==> rows[i].parent != Some(p)
  {
    if n == 0 then 0
    else KidCount(rows, p, n - 1) + if rows[n - 1].parent == Some(p) then 1 else 0
  }

  /** AVG(...)::int: the exact mean, rounded half away from zero. */
  function RoundedMean(sum: int, n: nat): int
    requires n > 0
  {
    if sum >= 0 then (2 * sum + n) / (2 * n) else -((-2 * sum + n) / (2 * n))
  }

  /** What SELECT COALESCE(AVG(progress), 0)::int yields over p's children. */
  function Mean(rows: Table, p: TaskId): int {
    var n := KidCount(rows, p, |rows|);
    if n == 0 then 0 else RoundedMean(KidSum(rows, p, |rows|), n)
  }

  function Clamp(value: int): int {
    if value > 100 then 100 else if value < 0 then 0 else value
  }

  /** The climb as the code performs it, one ancestor at a time; `types` are the
      type codes that propagate, `locked` the rows held by other transactions. */
  function Propagate(rows: Table, locked: set<TaskId>, types: set<string>, p: TaskId): (r: Table)
    requires p < |rows|
    ensures |r| == |rows|
    decreases p
  {
    if KidCount(rows, p, |rows|) == 0 || p in locked then rows
    else
      var rows' := rows[p := rows[p].(progress := Mean(rows, p))];
      if rows[p].typeCode in types && rows[p].parent.Some? && rows[p].parent.value < p
      then Propagate(rows', locked, types, rows[p].parent.value)
      else rows'
  }

  function Update(rows: Table, locked: set<TaskId>, types: set<string>, x: TaskId, value: int): (r: Table)
    requires x < |rows|
    ensures |r| == |rows|
  {
    var rows' := if x in locked then rows else rows[x := rows[x].(progress := Clamp(value))];
    if rows[x].parent.Some? && rows[x].parent.value < |rows| && rows[x].typeCode in types
    then Propagate(rows', locked, types, rows[x].parent.value)
    else rows'
  }

  /** The ancestors a climb starting at p writes: up to the first locked row,
      the first type that does not propagate, or the root. */
  ghost function Climb(rows: Table, locked: set<TaskId>, types: set<string>, p: TaskId): (r: set<TaskId>)
    requires p < |rows|
    ensures forall a :: a in r ==> a <= p
    decreases p
  {
    if p in locked then {}
    else {p} + if rows[p].typeCode in types && rows[p].parent.Some? && rows[p].parent.value < p
               then Climb(rows, locked, types, rows[p].parent.value) else {}
  }

  lemma {:induction false} SameKids(rows: Table, rows': Table, p: TaskId, n: nat)
    requires n <= |rows| == |rows'|
    requires forall i :: 0 <= i < n ==> rows'[i].parent == rows[i].parent
    requires forall i :: 0 <= i < n && rows[i].parent == Some(p) ==> rows'[i].progress == rows[i].progress
    ensures KidSum(rows', p, n) == KidSum(rows, p, n) && KidCount(rows', p, n) == KidCount(rows, p, n)
  {
    if n > 0 { SameKids(rows, rows', p, n - 1); }
  }

  /** Climbing reads only typeCode and parent, which no progress write changes. */
  lemma {:induction false} SameClimb(rows: Table, rows': Table, locked: set<TaskId>, types: set<string>, p: TaskId)
    requires p < |rows| == |rows'|
    requires forall i :: 0 <= i < |rows| ==> rows'[i].parent == rows[i].parent && rows'[i].typeCode == rows[i].typeCode
    ensures Climb(rows, locked, types, p) == Climb(rows', locked, types, p)
    decreases p
  {
    if p !in locked && rows[p].typeCode in types && rows[p].parent.Some? && rows[p].parent.value < p {
      SameClimb(rows, rows', locked, types, rows[p].parent.value);
    }
  }

  // ---- the mean of the children ------------------------------------------------

  ghost function KidsBelow(rows: Table, p: TaskId, n: nat): set<int>
    requires n <= |rows|
  {
    set i | 0 <= i < n && ChildOf(rows, i, p)
  }

  lemma {:induction false} KidCountIsSize(rows: Table, p: TaskId, n: nat)
    requires n <= |rows|
    ensures KidCount(rows, p, n) == |KidsBelow(rows, p, n)|
  {
    if n > 0 {
      KidCountIsSize(rows, p, n - 1);
      var before := KidsBelow(rows, p, n - 1);
      assert KidsBelow(rows, p, n) == if ChildOf(rows, n - 1, p) then before + {n - 1} else before;
    } else {
      assert KidsBelow(rows, p, n) == {};
    }
  }

  /** Writing one row's progress moves its parent's sum by the difference, and no other. */
  lemma {:induction false} KidSumMoves(rows: Table, p: TaskId, n: nat, c: TaskId, value: int)
    requires n <= |rows| && c < |rows|
    ensures KidSum(rows[c := rows[c].(progress := value)], p, n)
            == KidSum(rows, p, n) + if c < n && ChildOf(rows, c, p) then value - rows[c].progress else 0
  {
    if n > 0 { KidSumMoves(rows, p, n - 1, c, value); }
  }

  /** Children that all stand at v sum to v times their number. */
  lemma {:induction false} EvenKids(rows: Table, p: TaskId, n: nat, v: int)
    requires n <= |rows| && forall c :: 0 <= c < n && ChildOf(rows, c, p) ==> rows[c].progress == v
    ensures KidSum(rows, p, n) == v * |KidsBelow(rows, p, n)|
  {
    KidCountIsSize(rows, p, n);
    if n > 0 {
      EvenKids(rows, p, n - 1, v);
      KidCountIsSize(rows, p, n - 1);
      assert ChildOf(rows, n - 1, p) ==> v * KidCount(rows, p, n) == v * KidCount(rows, p, n - 1) + v;
    }
  }

  /** m is the integer nearest to sum / n, halves rounded away from zero. */
  predicate Nearest(sum: int, n: nat, m: int) {
    if sum >= 0 then 2 * sum - n < 2 * n * m <= 2 * sum + n else 2 * sum - n <= 2 * n * m < 2 * sum + n
  }

  lemma RoundedMeanIsNearest(sum: int, n: nat)
    requires n > 0
    ensures Nearest(sum, n, RoundedMean(sum, n))
  {
    var b := 2 * n;
    var a := if sum >= 0 then 2 * sum + n else -2 * sum + n;
    var d := a / b;
    assert a == b * d + a % b && 0 <= a % b < b;
    assert b * (-d) == -(b * d);
  }

  /** Row a has children, and its progress is the rounded mean of theirs. */
  ghost predicate HoldsMean(rows: Table, a: TaskId) {
    && a < |rows|
    && KidsBelow(rows, a, |rows|) != {}
    && Nearest(KidSum(rows, a, |rows|), |KidsBelow(rows, a, |rows|)|, rows[a].progress)
  }

  /** Every row of a climb that starts above a child is above a child. */
  lemma {:induction false} ClimbHasKids(rows: Table, locked: set<TaskId>, types: set<string>, p: TaskId, a: TaskId)
    requires p < |rows| && (exists c :: ChildOf(rows, c, p)) && a in Climb(rows, locked, types, p)
    ensures exists c :: ChildOf(rows, c, a)
    decreases p
  {
    if a != p {
      assert ChildOf(rows, p, rows[p].parent.value);
      ClimbHasKids(rows, locked, types, rows[p].parent.value, a);
    }
  }

  lemma WrittenHoldsMean(rows: Table, rows': Table, written: set<TaskId>, a: TaskId)
    requires MeansWritten(rows, rows', written) && a in written && a < |rows| && exists c :: ChildOf(rows, c, a)
    ensures HoldsMean(rows', a)
  {
    var c :| ChildOf(rows, c, a);
    assert ChildOf(rows', c, a) && c in KidsBelow(rows', a, |rows'|);
    KidCountIsSize(rows', a, |rows'|);
    RoundedMeanIsNearest(KidSum(rows', a, |rows'|), KidCount(rows', a, |rows'|));
  }

  /** The rows are those of the table before, except that every row in `written`
      now holds the mean of its children as they stand in the new table. */
  ghost predicate MeansWritten(rows: Table, rows': Table, written: set<TaskId>) {
    && |rows'| == |rows|
    && forall a :: 0 <= a < |rows| ==>
         rows'[a] == if a in written then rows[a].(progress := Mean(rows', a)) else rows[a]
  }

  lemma {:induction false} PropagateWrites(rows: Table, locked: set<TaskId>, types: set<string>, p: TaskId)
    requires Forest(rows) && p < |rows|
    requires exists c :: ChildOf(rows, c, p)
    ensures MeansWritten(rows, Propagate(rows, locked, types, p), Climb(rows, locked, types, p))
    decreases p
  {
    if p !in locked {
      var rows' := rows[p := rows[p].(progress := Mean(rows, p))];
      if rows[p].typeCode in types && rows[p].parent.Some? {
        var up := rows[p].parent.value;
        assert ChildOf(rows', p, up);
        PropagateWrites(rows', locked, types, up);
        SameClimb(rows, rows', locked, types, up);
        ClimbOneMore(rows, rows', Propagate(rows', locked, types, up), Climb(rows', locked, types, up), p);
      } else {
        SameKids(rows, rows', p, |rows|);
      }
    }
  }

  /** Propagation writes the rows of the climb and no other, and leaves each holding
      the rounded mean of its children as they finally stand. */
  lemma PropagateExact(rows: Table, locked: set<TaskId>, types: set<string>, p: TaskId)
    requires Forest(rows) && p < |rows|
    requires exists c :: ChildOf(rows, c, p)
    ensures var rows', written := Propagate(rows, locked, types, p), Climb(rows, locked, types, p);
            && MeansWritten(rows, rows', written)
            && forall a :: a in written ==> HoldsMean(rows', a)
  {
    PropagateWrites(rows, locked, types, p);
    forall a | a in Climb(rows, locked, types, p) ensures HoldsMean(Propagate(rows, locked, types, p), a) {
      ClimbHasKids(rows, locked, types, p, a);
      WrittenHoldsMean(rows, Propagate(rows, locked, types, p), Climb(rows, locked, types, p), a);
    }
  }

  /** Writing p and then the older rows `above`. */
  lemma ClimbOneMore(rows: Table, rows': Table, final: Table, above: set<TaskId>, p: TaskId)
    requires Forest(rows) && p < |rows| && rows' == rows[p := rows[p].(progress := Mean(rows, p))]
    requires MeansWritten(rows', final, above) && forall a :: a in above ==> a < p
    ensures MeansWritten(rows, final, {p} + above)
  {
    SameKids(rows, final, p, |rows|);
  }

  /** update_progress(v): the task holds the clamped value unless it is locked;
      every ancestor on the climb holds the rounded mean of its children; no
      other row, and no other field, changes. */
  lemma UpdateExact(rows: Table, locked: set<TaskId>, types: set<string>, x: TaskId, value: int)
    requires Forest(rows) && x < |rows|
    ensures var written := if rows[x].parent.Some? && rows[x].typeCode in types
                           then Climb(rows, locked, types, rows[x].parent.value) else {};
            var own := if x in locked then rows else rows[x := rows[x].(progress := Clamp(value))];
            && x !in written
            && MeansWritten(own, Update(rows, locked, types, x, value), written)
            && forall a :: a in written ==> HoldsMean(Update(rows, locked, types, x, value), a)
  {
    if rows[x].parent.Some? && rows[x].typeCode in types {
      var own := if x in locked then rows else rows[x := rows[x].(progress := Clamp(value))];
      assert ChildOf(own, x, rows[x].parent.value);
      PropagateExact(own, locked, types, rows[x].parent.value);
      SameClimb(rows, own, locked, types, rows[x].parent.value);
    }
  }

  /** An update writes nothing but progress. */
  lemma UpdateFrame(rows: Table, locked: set<TaskId>, types: set<string>, x: TaskId, value: int)
    requires Forest(rows) && x < |rows|
    ensures var rows' := Update(rows, locked, types, x, value);
            forall i :: 0 <= i < |rows| ==> rows'[i] == rows[i].(progress := rows'[i].progress)
  {
    UpdateExact(rows, locked, types, x, value);
  }

  ghost predicate InRange(rows: Table) {
    forall i :: 0 <= i < |rows| ==> 0 <= rows[i].progress <= 100
  }

  lemma {:induction false} SumInRange(rows: Table, p: TaskId, n: nat)
    requires n <= |rows| && InRange(rows)
    ensures 0 <= KidSum(rows, p, n) <= 100 * KidCount(rows, p, n)
  {
    if n > 0 { SumInRange(rows, p, n - 1); }
  }

  lemma MeanInRange(rows: Table, p: TaskId)
    requires InRange(rows)
    ensures 0 <= Mean(rows, p) <= 100
  {
    SumInRange(rows, p, |rows|);
    var n, sum := KidCount(rows, p, |rows|), KidSum(rows, p, |rows|);
    if n > 0 {
      assert 2 * sum + n <= 200 * n + n;
      Quotient(2 * sum + n, 2 * n, 101);
    }
  }

  lemma Quotient(a: int, b: int, k: int)
    requires b > 0 && 0 <= a < k * b
    ensures 0 <= a / b < k
  {
    assert a == b * (a / b) + a % b;
    if a / b >= k {
      assert b * (a / b) >= b * k by { MulMono(b, k, a / b); }
      assert false;
    }
  }

  lemma MulMono(b: int, k: int, q: int)
    requires b > 0 && k <= q
    ensures b * k <= b * q
  {
  }

  lemma {:induction false} PropagateInRange(rows: Table, locked: set<TaskId>, types: set<string>, p: TaskId)
    requires p < |rows| && InRange(rows)
    ensures InRange(Propagate(rows, locked, types, p))
    decreases p
  {
    if KidCount(rows, p, |rows|) != 0 && p !in locked {
      MeanInRange(rows, p);
      var rows' := rows[p := rows[p].(progress := Mean(rows, p))];
      if rows[p].typeCode in types && rows[p].parent.Some? && rows[p].parent.value < p {
        PropagateInRange(rows', locked, types, rows[p].parent.value);
      }
    }
  }

  /** Every progress value stays a percentage. */
  lemma UpdateInRange(rows: Table, locked: set<TaskId>, types: set<string>, x: TaskId, value: int)
    requires x < |rows| && InRange(rows)
    ensures InRange(Update(rows, locked, types, x, value))
  {
    if rows[x].parent.Some? && rows[x].parent.value < |rows| && rows[x].typeCode in types {
      PropagateInRange(if x in locked then rows else rows[x := rows[x].(progress := Clamp(value))],
                       locked, types, rows[x].parent.value);
    }
  }

  /** b is x or one of its ancestors. */
  ghost predicate AtOrAbove(rows: Table, x: TaskId, b: TaskId)
    decreases x
  {
    x < |rows| &&
    (b == x || (rows[x].parent.Some? && rows[x].parent.value < x && AtOrAbove(rows, rows[x].parent.value, b)))
  }

  lemma {:induction false} AboveLocked(rows: Table, locked: set<TaskId>, types: set<string>,
                                       p: TaskId, a: TaskId, b: TaskId)
    requires p < |rows| && a in locked && AtOrAbove(rows, p, a) && AtOrAbove(rows, a, b)
    ensures b !in Climb(rows, locked, types, p)
    decreases p
  {
    AboveIsOlder(rows, a, b);
    if p != a {
      AboveIsOlder(rows, rows[p].parent.value, a);
      AboveLocked(rows, locked, types, rows[p].parent.value, a, b);
    }
  }

  lemma {:induction false} AboveIsOlder(rows: Table, x: TaskId, b: TaskId)
    requires AtOrAbove(rows, x, b)
    ensures b <= x && b < |rows|
    decreases x
  {
    if b != x { AboveIsOlder(rows, rows[x].parent.value, b); }
  }

  /** A locked ancestor stops the climb: nothing at or above it changes. */
  lemma LockedStops(rows: Table, locked: set<TaskId>, types: set<string>, x: TaskId, value: int, a: TaskId)
    requires Forest(rows) && x < |rows|
    requires a in locked && a != x && AtOrAbove(rows, x, a)
    ensures forall b: TaskId :: AtOrAbove(rows, a, b) ==>
              b < |rows| && Update(rows, locked, types, x, value)[b] == rows[b]
  {
    UpdateExact(rows, locked, types, x, value);
    var p := rows[x].parent.value;
    forall b: TaskId | AtOrAbove(rows, a, b)
      ensures b < |rows| && Update(rows, locked, types, x, value)[b] == rows[b]
    {
      AboveIsOlder(rows, a, b);
      AboveIsOlder(rows, p, a);
      AboveLocked(rows, locked, types, p, a, b);
    }
  }
}
