/** action_cancel: what a cancellation reaches. */
module Cascade {
  import opened TaskModel

  /** x is a root, or an active child of something reached. */
  predicate Reached(rows: Table, roots: set<TaskId>, x: TaskId)
    decreases x
  {
    x < |rows| &&
    (x in roots
     || (rows[x].parent.Some? && rows[x].parent.value < x
         && rows[x].state.Active() && Reached(rows, roots, rows[x].parent.value)))
  }

  /** Exactly the reached rows are cancelled. */
  function Cancel(rows: Table, roots: set<TaskId>): (r: Table)
    ensures |r| == |rows|
  {
    seq(|rows|, i requires 0 <= i < |rows| =>
      if Reached(rows, roots, i) then ToCancelled(rows[i]) else rows[i])
  }

  predicate Cancellable(rows: Table, roots: set<TaskId>) {
    forall i :: i in roots ==> i < |rows| && Allowed(rows[i].state, Cancelled)
  }

  /** A chain of active children below a root. */
  ghost predicate ActiveChain(rows: Table, path: seq<TaskId>) {
    && |path| > 0
    && (forall k :: 0 <= k < |path| ==> path[k] < |rows|)
    && (forall k :: 0 < k < |path| ==> ChildOf(rows, path[k], path[k - 1]) && rows[path[k]].state.Active())
  }

  ghost predicate Joins(rows: Table, roots: set<TaskId>, path: seq<TaskId>, x: TaskId) {
    ActiveChain(rows, path) && path[0] in roots && path[|path| - 1] == x
  }

  /** Reached means joined to a root by a chain of active children. */
  lemma {:induction false} ReachedByChain(rows: Table, roots: set<TaskId>, x: TaskId)
    requires Forest(rows)
    ensures Reached(rows, roots, x) <==> exists path :: Joins(rows, roots, path, x)
    decreases x
  {
    if x < |rows| && x in roots {
      assert Joins(rows, roots, [x], x);
    } else if x < |rows| && rows[x].parent.Some? {
      var p := rows[x].parent.value;
      ReachedByChain(rows, roots, p);
      if Reached(rows, roots, x) {
        var path :| Joins(rows, roots, path, p);
        assert Joins(rows, roots, path + [x], x);
      }
      if path :| Joins(rows, roots, path, x) {
        assert |path| > 1;
        assert Joins(rows, roots, path[..|path| - 1], p);
      }
    } else {
      forall path ensures !Joins(rows, roots, path, x) {
        if |path| > 1 && ActiveChain(rows, path) {
          assert ChildOf(rows, path[|path| - 1], path[|path| - 2]);
        }
      }
    }
  }

  /** The rows as they stand once the first level has been written. */
  function Level(rows: Table, roots: set<TaskId>): (r: Table)
    ensures |r| == |rows|
  {
    seq(|rows|, i requires 0 <= i < |rows| => if i in roots then ToCancelled(rows[i]) else rows[i])
  }

  /** The next level: active children of the rows just cancelled. */
  function NextLevel(rows: Table, roots: set<TaskId>): set<TaskId> {
    set i: TaskId | 0 <= i < |rows| && rows[i].parent.Some? && rows[i].parent.value in roots && rows[i].state.Active()
  }

  /** Cancelling level by level reaches the same rows. */
  lemma {:induction false} LevelByLevel(rows: Table, roots: set<TaskId>, x: TaskId)
    requires Forest(rows) && x < |rows|
    ensures Reached(rows, roots, x)
            <==> x in roots || Reached(Level(rows, roots), NextLevel(Level(rows, roots), roots), x)
    decreases x
  {
    if x !in roots && rows[x].parent.Some? {
      LevelByLevel(rows, roots, rows[x].parent.value);
    }
  }

  lemma CancelStep(rows: Table, roots: set<TaskId>)
    requires Forest(rows)
    ensures var rows' := Level(rows, roots);
            Cancel(rows, roots) == Cancel(rows', NextLevel(rows', roots))
  {
    var rows' := Level(rows, roots);
    var next := NextLevel(rows', roots);
    forall x | 0 <= x < |rows| ensures Cancel(rows, roots)[x] == Cancel(rows', next)[x] {
      LevelByLevel(rows, roots, x);
    }
  }

  /** Nothing below the root can fail the transition check: an active row may
      always be cancelled. */
  lemma NextLevelCancellable(rows: Table, roots: set<TaskId>)
    ensures Cancellable(rows, NextLevel(rows, roots))
  {
  }

  /** After a cancellation no active row is left below a root along active rows,
      and no row outside the reached ones changed. */
  lemma CancelExact(rows: Table, root: TaskId, x: TaskId)
    requires Forest(rows) && root < |rows| && x < |rows|
    ensures Cancel(rows, {root})[x] == rows[x]
            || exists path :: Joins(rows, {root}, path, x)
    ensures (exists path :: Joins(rows, {root}, path, x)) ==> Cancel(rows, {root})[x] == ToCancelled(rows[x])
    ensures Cancel(rows, {root})[x].parent == rows[x].parent
    ensures (exists p: TaskId :: ChildOf(rows, x, p) && Reached(rows, {root}, p)) ==>
              !Cancel(rows, {root})[x].state.Active()
  {
    ReachedByChain(rows, {root}, x);
  }
}
