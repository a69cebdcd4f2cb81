/** Transactions that write many rows, as runs of protocol steps: whatever every step
    keeps, they keep. */
module Batches {
  import opened Optional
  import opened TaskModel
  import opened TaskOrder
  import opened Protocol
  import opened Recovery
  import T = TaskTable

  lemma RunAppend(s: Sys, steps: seq<Step>, step: Step)
    requires Shaped(s)
    ensures Run(s, steps + [step]) == Apply(Run(s, steps), step)
  {
    assert (steps + [step])[..|steps|] == steps;
  }

  /** Step k takes any system with table k to one with table k + 1. */
  ghost predicate Link(steps: seq<Step>, tables: seq<Table>, k: nat)
    requires k < |steps| && |tables| == |steps| + 1
  {
    forall s :: Shaped(s) && s.rows == tables[k] ==> Apply(s, steps[k]).rows == tables[k + 1]
  }

  lemma {:induction false} Chain(s: Sys, steps: seq<Step>, tables: seq<Table>)
    requires Shaped(s) && |tables| == |steps| + 1 && tables[0] == s.rows
    requires forall k :: 0 <= k < |steps| ==> Link(steps, tables, k)
    ensures Run(s, steps).rows == tables[|steps|]
    ensures Inv(s) ==> Inv(Run(s, steps))
    decreases |steps|
  {
    if steps != [] {
      var last := |steps| - 1;
      var init, heads := steps[..last], tables[..|steps|];
      forall k | 0 <= k < |init| ensures Link(init, heads, k) { assert Link(steps, tables, k); }
      Chain(s, init, heads);
      assert Link(steps, tables, last) && Run(s, init).rows == tables[last];
    }
    if Inv(s) { RunInv(s, steps); }
  }

  // ---- one operation per row --------------------------------------------------------

  /** The operations on the first n rows, in order; None leaves a row alone. */
  function OpSteps(ops: seq<Option<RowOp>>, n: nat): seq<Step>
    requires n <= |ops|
  {
    if n == 0 then []
    else OpSteps(ops, n - 1) + if ops[n - 1].Some? then [Row(ops[n - 1].value, n - 1)] else []
  }

  predicate OpsApply(rows: Table, ops: seq<Option<RowOp>>) {
    |ops| == |rows| && forall i :: 0 <= i < |rows| && ops[i].Some? ==> Effect(ops[i].value, rows[i]).Some?
  }

  function AfterOps(rows: Table, ops: seq<Option<RowOp>>, n: nat): (r: Table)
    requires OpsApply(rows, ops)
    ensures |r| == |rows|
  {
    seq(|rows|, i requires 0 <= i < |rows| =>
      if i < n && ops[i].Some? then Effect(ops[i].value, rows[i]).value else rows[i])
  }

  lemma {:induction false} OpsRun(s: Sys, ops: seq<Option<RowOp>>, n: nat)
    requires Shaped(s) && OpsApply(s.rows, ops) && n <= |ops|
    ensures Run(s, OpSteps(ops, n)).rows == AfterOps(s.rows, ops, n)
  {
    if n == 0 {
      assert AfterOps(s.rows, ops, 0) == s.rows;
    } else {
      OpsRun(s, ops, n - 1);
      NextOp(s, Run(s, OpSteps(ops, n - 1)), ops, n);
      if ops[n - 1].Some? {
        RunAppend(s, OpSteps(ops, n - 1), Row(ops[n - 1].value, n - 1));
      } else {
        assert OpSteps(ops, n - 1) + [] == OpSteps(ops, n - 1);
      }
    }
  }

  lemma NextOp(s: Sys, s': Sys, ops: seq<Option<RowOp>>, n: nat)
    requires OpsApply(s.rows, ops) && 0 < n <= |ops| && Shaped(s') && s'.rows == AfterOps(s.rows, ops, n - 1)
    ensures AfterOps(s.rows, ops, n)
            == if ops[n - 1].Some? then Apply(s', Row(ops[n - 1].value, n - 1)).rows else s'.rows
  {
    assert s'.rows[n - 1] == s.rows[n - 1];
    if ops[n - 1].Some? {
      assert AfterOps(s.rows, ops, n) == s'.rows[n - 1 := Effect(ops[n - 1].value, s.rows[n - 1]).value];
    } else {
      assert AfterOps(s.rows, ops, n) == s'.rows;
    }
  }

  lemma OpsAreRun(s: Sys, ops: seq<Option<RowOp>>)
    requires Shaped(s) && OpsApply(s.rows, ops)
    ensures Run(s, OpSteps(ops, |ops|)).rows == AfterOps(s.rows, ops, |ops|)
    ensures Inv(s) ==> Inv(Run(s, OpSteps(ops, |ops|)))
  {
    OpsRun(s, ops, |ops|);
    if Inv(s) { RunInv(s, OpSteps(ops, |ops|)); }
  }

  // ---- recovery -----------------------------------------------------------------------

  function Recovering(t: Task, terms: Terms): RowOp {
    Lost(t.runner, t.worker, terms.retryAt(t), terms.reason)
  }

  function CleanupOp(t: Task, i: TaskId, worker: WorkerId, blocked: set<TaskId>, terms: Terms): Option<RowOp> {
    if t.worker != Some(worker) then None
    else if t.state.Waiting? then Some(Disown)
    else if t.state.InFlight() && i !in blocked then Some(Recovering(t, terms))
    else None
  }

  function CleanupOps(rows: Table, worker: WorkerId, blocked: set<TaskId>, terms: Terms): (r: seq<Option<RowOp>>)
    ensures |r| == |rows|
  {
    seq(|rows|, i requires 0 <= i < |rows| => CleanupOp(rows[i], i, worker, blocked, terms))
  }

  lemma CleanupByOps(rows: Table, worker: WorkerId, blocked: set<TaskId>, terms: Terms)
    ensures OpsApply(rows, CleanupOps(rows, worker, blocked, terms))
    ensures AfterOps(rows, CleanupOps(rows, worker, blocked, terms), |rows|) == Cleanup(rows, worker, blocked, terms)
  {
  }

  /** The startup cleanup of a worker is a run of un-owning and recovery steps. */
  lemma CleanupIsRun(s: Sys, worker: WorkerId, blocked: set<TaskId>, terms: Terms)
    requires Shaped(s)
    ensures var s' := Run(s, OpSteps(CleanupOps(s.rows, worker, blocked, terms), |s.rows|));
            s'.rows == Cleanup(s.rows, worker, blocked, terms) && (Inv(s) ==> Inv(s'))
  {
    CleanupByOps(s.rows, worker, blocked, terms);
    OpsAreRun(s, CleanupOps(s.rows, worker, blocked, terms));
  }

  function SweepOps(rows: Table, ids: seq<TaskId>, blocked: set<TaskId>, terms: Terms): (r: seq<Option<RowOp>>)
    ensures |r| == |rows|
  {
    seq(|rows|, i requires 0 <= i < |rows| =>
      if i in ids && i !in blocked && rows[i].state.InFlight() then Some(Recovering(rows[i], terms)) else None)
  }

  lemma RecoverByOps(rows: Table, ids: seq<TaskId>, blocked: set<TaskId>, terms: Terms)
    ensures OpsApply(rows, SweepOps(rows, ids, blocked, terms))
    ensures AfterOps(rows, SweepOps(rows, ids, blocked, terms), |rows|) == RecoverAll(rows, ids, blocked, terms)
  {
  }

  /** A sweep with any rows locked or raising is a run of recovery steps. */
  lemma SweepIsRun(s: Sys, dead: set<WorkerId>, blocked: set<TaskId>, terms: Terms)
    requires Shaped(s)
    ensures var s' := Run(s, OpSteps(SweepOps(s.rows, Window(s.rows, dead), blocked, terms), |s.rows|));
            s'.rows == Sweep(s.rows, dead, blocked, terms) && (Inv(s) ==> Inv(s'))
  {
    RecoverByOps(s.rows, Window(s.rows, dead), blocked, terms);
    OpsAreRun(s, SweepOps(s.rows, Window(s.rows, dead), blocked, terms));
  }

  // ---- retries ------------------------------------------------------------------------

  /** rows' is on the way from rows to final: where it differs from rows it is final,
      and final makes rows active but never inactive. */
  ghost predicate OnTheWay(rows: Table, rows': Table, final: Table) {
    && |rows| == |rows'| == |final|
    && forall i :: 0 <= i < |rows| ==> RowOnTheWay(rows[i], rows'[i], final[i])
  }

  predicate RowOnTheWay(t: Task, t': Task, final: Task) {
    && (t' == t || t' == final)
    && final.uniqueKey == t.uniqueKey && (t.state.Active() ==> final.state.Active())
  }

  /** A key that the final table admits is free on the way there. */
  lemma KeyStillFree(rows: Table, rows': Table, final: Table, id: TaskId)
    requires OnTheWay(rows, rows', final) && KeysUnique(final) && id < |rows|
    requires final[id].state.Active() && !rows'[id].state.Active()
    ensures KeyFree(rows', rows'[id].uniqueKey)
  {
    if rows'[id].uniqueKey.Some? {
      forall i | 0 <= i < |rows'| && rows'[i].state.Active() ensures rows'[i].uniqueKey != rows'[id].uniqueKey {
        assert RowOnTheWay(rows[i], rows'[i], final[i]) && RowOnTheWay(rows[id], rows'[id], final[id]);
        assert i != id && final[i].state.Active();
      }
    }
  }

  lemma TakeOneMore(ids: seq<TaskId>, k: nat)
    requires k < |ids| && forall i, j :: 0 <= i < j < |ids| ==> ids[i] != ids[j]
    ensures ids[..k + 1] == ids[..k] + [ids[k]] && ids[k] !in ids[..k]
    ensures forall i :: i in ids[..k] ==> i in ids
  {
  }

  function ChargeSteps(rows: Table, ids: seq<TaskId>, etaOf: Task -> Option<int>): (r: seq<Step>)
    requires Ids(rows, ids)
    ensures |r| == |ids| && forall k :: 0 <= k < |ids| ==> r[k] == RetryFailed(ids[k], etaOf(rows[ids[k]]))
  {
    seq(|ids|, k requires 0 <= k < |ids| => RetryFailed(ids[k], etaOf(rows[ids[k]])))
  }

  /** Charging one more row of a list. */
  lemma ChargedOneMore(rows: Table, ids: seq<TaskId>, etaOf: Task -> Option<int>, k: nat)
    requires T.AutoRetryable(rows, ids) && k < |ids|
    ensures var now, id := T.ChargeAll(rows, ids[..k], etaOf), ids[k];
            && id < |rows| && now[id] == rows[id]
            && T.ChargeAll(rows, ids[..k + 1], etaOf) == now[id := Charged(rows[id], etaOf(rows[id]))]
            && OnTheWay(rows, now, T.ChargeAll(rows, ids, etaOf))
  {
    TakeOneMore(ids, k);
  }

  lemma ChargeNext(rows: Table, s': Sys, ids: seq<TaskId>, etaOf: Task -> Option<int>, k: nat)
    requires Shaped(s') && T.AutoRetryable(rows, ids) && k < |ids|
    requires KeysUnique(T.ChargeAll(rows, ids, etaOf)) && s'.rows == T.ChargeAll(rows, ids[..k], etaOf)
    ensures Apply(s', RetryFailed(ids[k], etaOf(rows[ids[k]]))).rows == T.ChargeAll(rows, ids[..k + 1], etaOf)
  {
    ChargedOneMore(rows, ids, etaOf, k);
    assert ids[k] in ids;
    KeyStillFree(rows, s'.rows, T.ChargeAll(rows, ids, etaOf), ids[k]);
  }

  /** A committed sweep over failed tasks is a run of automatic retries. */
  lemma ChargeIsRun(s: Sys, ids: seq<TaskId>, etaOf: Task -> Option<int>)
    requires Shaped(s) && T.AutoRetryable(s.rows, ids) && KeysUnique(T.ChargeAll(s.rows, ids, etaOf))
    ensures var s' := Run(s, ChargeSteps(s.rows, ids, etaOf));
            s'.rows == T.ChargeAll(s.rows, ids, etaOf) && (Inv(s) ==> Inv(s'))
  {
    var rows, steps := s.rows, ChargeSteps(s.rows, ids, etaOf);
    var tables := seq(|ids| + 1, k requires 0 <= k <= |ids| => T.ChargeAll(rows, ids[..k], etaOf));
    forall k | 0 <= k < |steps| ensures Link(steps, tables, k) {
      forall s': Sys | Shaped(s') && s'.rows == tables[k] ensures Apply(s', steps[k]).rows == tables[k + 1] {
        ChargeNext(rows, s', ids, etaOf, k);
      }
    }
    assert ids[..0] == [] && T.ChargeAll(rows, [], etaOf) == rows && ids[..|ids|] == ids;
    Chain(s, steps, tables);
  }

  function ResetSteps(ids: seq<TaskId>, eta: Option<int>): (r: seq<Step>)
    ensures |r| == |ids| && forall k :: 0 <= k < |ids| ==> r[k] == ManualRetry(ids[k], eta)
  {
    seq(|ids|, k requires 0 <= k < |ids| => ManualRetry(ids[k], eta))
  }

  lemma ResetOneMore(rows: Table, ids: seq<TaskId>, eta: Option<int>, k: nat)
    requires T.AllFailed(rows, ids) && k < |ids|
    ensures var now, id := T.ResetAll(rows, ids[..k], eta), ids[k];
            && id < |rows| && now[id] == rows[id]
            && T.ResetAll(rows, ids[..k + 1], eta) == now[id := Reset(rows[id], eta)]
            && OnTheWay(rows, now, T.ResetAll(rows, ids, eta))
  {
    TakeOneMore(ids, k);
  }

  lemma RetryStep(s: Sys, id: TaskId, eta: Option<int>)
    requires Shaped(s) && id < |s.rows| && s.rows[id].state.Failed? && KeyFree(s.rows, s.rows[id].uniqueKey)
    ensures Apply(s, ManualRetry(id, eta)).rows == s.rows[id := Reset(s.rows[id], eta)]
  {
  }

  lemma ResetNext(rows: Table, s': Sys, ids: seq<TaskId>, eta: Option<int>, k: nat)
    requires Shaped(s') && T.AllFailed(rows, ids) && k < |ids|
    requires KeysUnique(T.ResetAll(rows, ids, eta)) && s'.rows == T.ResetAll(rows, ids[..k], eta)
    ensures Apply(s', ManualRetry(ids[k], eta)).rows == T.ResetAll(rows, ids[..k + 1], eta)
  {
    ResetOneMore(rows, ids, eta, k);
    assert rows[ids[k]].state.Failed?;
    KeyStillFree(rows, s'.rows, T.ResetAll(rows, ids, eta), ids[k]);
    RetryStep(s', ids[k], eta);
  }

  /** A committed manual retry of a recordset is a run of single ones. */
  lemma ResetIsRun(s: Sys, ids: seq<TaskId>, eta: Option<int>)
    requires Shaped(s) && T.AllFailed(s.rows, ids) && KeysUnique(T.ResetAll(s.rows, ids, eta))
    ensures var s' := Run(s, ResetSteps(ids, eta));
            s'.rows == T.ResetAll(s.rows, ids, eta) && (Inv(s) ==> Inv(s'))
  {
    var rows, steps := s.rows, ResetSteps(ids, eta);
    var tables := seq(|ids| + 1, k requires 0 <= k <= |ids| => T.ResetAll(rows, ids[..k], eta));
    forall k | 0 <= k < |steps| ensures Link(steps, tables, k) {
      forall s': Sys | Shaped(s') && s'.rows == tables[k] ensures Apply(s', steps[k]).rows == tables[k + 1] {
        ResetNext(rows, s', ids, eta, k);
      }
    }
    assert ids[..0] == [] && T.ResetAll(rows, [], eta) == rows && ids[..|ids|] == ids;
    Chain(s, steps, tables);
  }
}
