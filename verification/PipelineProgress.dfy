/** The percentage a pipeline root shows, in exact arithmetic: every phase is an
    equal slice, filled by the terminal share of its wave. */
module PipelineProgress {
  import opened TaskModel
  import opened TaskOrder
  import opened Claiming
  import opened Progress
  import opened WaitingParent
  import opened Protocol
  import opened Pipeline

  /** int(100 * (phase + done / total) / phases), with an empty wave counting as
      no progress and an empty pipeline as one phase. */
  function Percent(phase: nat, done: nat, total: nat, phases: nat): nat {
    var n := if phases == 0 then 1 else phases;
    if total == 0 then 100 * phase / n else 100 * (phase * total + done) / (n * total)
  }

  lemma TimesMono(x: nat, y: nat, k: nat)
    requires x <= y
    ensures x * k <= y * k
  {
  }

  lemma DivideOut(x: nat, y: nat, k: nat)
    requires k > 0 && x * k <= y * k
    ensures x <= y
  {
    if y < x {
      TimesMono(y + 1, x, k);
      assert false;
    }
  }

  lemma Reorder(x: nat, y: nat, z: nat)
    ensures (x * y) * z == (x * z) * y
  {
  }

  /** Floor division, characterised. */
  lemma AtLeast(q: nat, a: nat, b: nat)
    requires b > 0
    ensures q <= a / b <==> q * b <= a
  {
    var d, r := a / b, a % b;
    assert a == d * b + r && r < b;
    if q <= d { TimesMono(q, d, b); } else { TimesMono(d + 1, q, b); }
  }

  lemma ScaledDiv(a: nat, b: nat, c: nat, d: nat)
    requires b > 0 && d > 0 && a * d <= c * b
    ensures a / b <= c / d
  {
    var q := a / b;
    AtLeast(q, a, b);
    TimesMono(q * b, a, d);
    Reorder(q, b, d);
    DivideOut(q * d, c, b);
    AtLeast(q, c, d);
  }

  lemma Positive(n: nat, total: nat)
    requires n > 0 && total > 0
    ensures n * total > 0
  {
  }

  /** The filled slices against all slices. */
  lemma Slices(phase: nat, done: nat, total: nat, n: nat)
    requires phase < n && done <= total && total > 0
    ensures phase * total + done <= n * total
    ensures phase * total + done == n * total <==> phase == n - 1 && done == total
  {
    var rest := n - 1 - phase;
    assert n * total == phase * total + total + rest * total by {
      assert n == phase + 1 + rest;
    }
    if rest > 0 { Positive(rest, total); }
  }

  /** The percentage is the filled share of the slices, rounded down. */
  lemma PercentExact(phase: nat, done: nat, total: nat, phases: nat)
    requires total > 0 && phases > 0
    ensures var share, p := 100 * (phase * total + done), Percent(phase, done, total, phases);
            p * (phases * total) <= share < (p + 1) * (phases * total)
  {
    var share, all := 100 * (phase * total + done), phases * total;
    Positive(phases, total);
    AtLeast(share / all, share, all);
    AtLeast(share / all + 1, share, all);
  }

  /** A running pipeline shows a percentage, and exactly 100 when its last wave
      is fully terminal. */
  lemma PercentRange(phase: nat, done: nat, total: nat, phases: nat)
    requires phase < phases && done <= total && total > 0
    ensures Percent(phase, done, total, phases) <= 100
    ensures Percent(phase, done, total, phases) == 100 <==> phase == phases - 1 && done == total
  {
    var filled, all := phase * total + done, phases * total;
    Positive(phases, total);
    Slices(phase, done, total, phases);
    AtLeast(101, 100 * filled, all);
    AtLeast(100, 100 * filled, all);
  }

  /** Within a wave the percentage follows the number of terminal children. */
  lemma PercentInWave(phase: nat, done: nat, done': nat, total: nat, phases: nat)
    requires done <= done' && total > 0 && phases > 0
    ensures Percent(phase, done, total, phases) <= Percent(phase, done', total, phases)
  {
    var a, a', b := 100 * (phase * total + done), 100 * (phase * total + done'), phases * total;
    Positive(phases, total);
    TimesMono(a, a', b);
    ScaledDiv(a, b, a', b);
  }

  /** A wave of an earlier phase shows at most where a later phase begins. */
  lemma BelowPhase(phase: nat, done: nat, total: nat, phase': nat, phases: nat)
    requires phase < phase' && done <= total && total > 0 && phases > 0
    ensures Percent(phase, done, total, phases) <= 100 * phase' / phases
  {
    var filled := phase * total + done;
    Positive(phases, total);
    TimesMono(phase + 1, phase', total);
    TimesMono(100 * filled, 100 * phase' * total, phases);
    Reorder(100 * phase', total, phases);
    Commute(100 * phase', phases, total);
    ScaledDiv(100 * filled, phases * total, 100 * phase', phases);
  }

  lemma Commute(x: nat, y: nat, z: nat)
    ensures (x * y) * z == x * (y * z)
  {
  }

  /** A later phase shows at least where it begins. */
  lemma AbovePhase(phase: nat, done: nat, total: nat, phases: nat)
    requires total > 0 && phases > 0
    ensures 100 * phase / phases <= Percent(phase, done, total, phases)
  {
    var filled := phase * total + done;
    Positive(phases, total);
    TimesMono(100 * (phase * total), 100 * filled, phases);
    Commute(100, phase, total);
    Reorder(100 * phase, total, phases);
    Commute(100 * phase, phases, total);
    ScaledDiv(100 * phase, phases, 100 * filled, phases * total);
  }

  /** Across phases it never steps back, whatever the wave sizes and however many
      phases are skipped. */
  lemma PercentAcross(phase: nat, done: nat, total: nat, phase': nat, done': nat, total': nat, phases: nat)
    requires phase < phase' && done <= total && total > 0 && phases > 0
    ensures Percent(phase, done, total, phases) <= Percent(phase', done', total', phases)
  {
    BelowPhase(phase, done, total, phase', phases);
    if total' > 0 { AbovePhase(phase', done', total', phases); }
  }

  // ---- along an execution --------------------------------------------------------

  function Finished(rows: Table, wave: seq<TaskId>): (r: nat)
    requires forall k :: 0 <= k < |wave| ==> wave[k] < |rows|
    ensures r <= |wave|
  {
    if wave == [] then 0
    else (if rows[wave[0]].state.Terminal() then 1 else 0) + Finished(rows, wave[1..])
  }

  /** The count is the number of members that are done, failed or cancelled. */
  lemma {:induction false} FinishedIsSize(rows: Table, wave: seq<TaskId>)
    requires forall k :: 0 <= k < |wave| ==> wave[k] < |rows|
    requires forall k, l :: 0 <= k < l < |wave| ==> wave[k] != wave[l]
    ensures Finished(rows, wave) == |Ended(rows, wave)|
  {
    if wave != [] {
      var first, tail := wave[0], wave[1..];
      assert forall k :: 0 <= k < |tail| ==> tail[k] == wave[k + 1];
      FinishedIsSize(rows, tail);
      assert first !in tail;
      EndedOneMore(rows, first, tail);
      assert [first] + tail == wave;
    } else {
      assert Ended(rows, wave) == {};
    }
  }

  lemma EndedOneMore(rows: Table, first: TaskId, tail: seq<TaskId>)
    requires first < |rows| && forall k :: 0 <= k < |tail| ==> tail[k] < |rows|
    ensures Ended(rows, [first] + tail)
            == if rows[first].state.Terminal() then Ended(rows, tail) + {first} else Ended(rows, tail) - {first}
    ensures first !in tail ==> first !in Ended(rows, tail)
  {
    assert forall c :: c in [first] + tail <==> c == first || c in tail;
  }

  ghost function Ended(rows: Table, wave: seq<TaskId>): set<TaskId>
    requires forall k :: 0 <= k < |wave| ==> wave[k] < |rows|
  {
    set c | c in wave && (rows[c].state == Done || rows[c].state == Failed || rows[c].state == Cancelled)
  }

  /** A waiting root shows 100 exactly when it stands in its last phase and no member
      of that phase's wave is unfinished. */
  lemma ShowsAllOfIt(x: Exec, p: TaskId, n: nat)
    requires ExecInv(x, p, n) && x.sys.rows[p].state.Waiting?
    ensures WaveStored(x.sys.rows, p) && Shown(x.sys.rows, p, n) <= 100
    ensures var rows := x.sys.rows;
            Shown(rows, p, n) == 100
            <==> rows[p].phase == n - 1 && Ended(rows, rows[p].wave) == Elems(rows[p].wave)
  {
    StoredWave(x, p, n);
    var rows, wave := x.sys.rows, x.sys.rows[p].wave;
    WaveDistinct(x, p, n);
    FinishedIsSize(rows, wave);
    DistinctCount(wave);
    if |Ended(rows, wave)| == |wave| { SameSize(Ended(rows, wave), Elems(wave)); }
    PercentRange(rows[p].phase, Finished(rows, wave), |wave|, n);
  }

  lemma WaveDistinct(x: Exec, p: TaskId, n: nat)
    requires ExecInv(x, p, n) && x.sys.rows[p].state.Waiting?
    ensures forall k, l :: 0 <= k < l < |x.sys.rows[p].wave| ==> x.sys.rows[p].wave[k] != x.sys.rows[p].wave[l]
  {
    assert WaveOk(x.waves[|x.waves| - 1], |x.sys.rows|);
  }

  lemma SameSize(a: set<TaskId>, b: set<TaskId>)
    requires a <= b && |a| == |b|
    ensures a == b
  {
    assert b == a + (b - a) && |b| == |a| + |b - a|;
  }

  lemma {:induction false} FinishedGrows(rows: Table, rows': Table, wave: seq<TaskId>)
    requires forall k :: 0 <= k < |wave| ==> wave[k] < |rows| && wave[k] < |rows'|
    requires forall k :: 0 <= k < |wave| && rows[wave[k]].state.Terminal() ==> rows'[wave[k]].state.Terminal()
    ensures Finished(rows, wave) <= Finished(rows', wave)
  {
    if wave != [] {
      assert wave[0] == wave[0] && rows[wave[0]].state.Terminal() ==> rows'[wave[0]].state.Terminal();
      forall k | 0 <= k < |wave[1..]|
        ensures wave[1..][k] < |rows| && wave[1..][k] < |rows'|
        ensures rows[wave[1..][k]].state.Terminal() ==> rows'[wave[1..][k]].state.Terminal()
      {
        assert wave[1..][k] == wave[k + 1];
      }
      FinishedGrows(rows, rows', wave[1..]);
    }
  }

  ghost predicate WaveStored(rows: Table, p: TaskId) {
    p < |rows| && forall k :: 0 <= k < |rows[p].wave| ==> rows[p].wave[k] < |rows|
  }

  /** What on_child_done would show for root p. */
  function Shown(rows: Table, p: TaskId, n: nat): nat
    requires p < |rows| && forall k :: 0 <= k < |rows[p].wave| ==> rows[p].wave[k] < |rows|
  {
    Percent(rows[p].phase, Finished(rows, rows[p].wave), |rows[p].wave|, n)
  }

  /** The step puts a failed child of the root's current wave back in the queue. */
  ghost predicate RetriesChild(s: Sys, step: Step, p: TaskId)
    requires p < |s.rows|
  {
    Enabled(s, step) && (step.ManualRetry? || step.RetryFailed?) && step.id in s.rows[p].wave
  }

  lemma TerminalStays(s: Sys, step: Step, c: TaskId)
    requires Shaped(s) && c < |s.rows| && s.rows[c].state.Terminal()
    requires Enabled(s, step) && (step.ManualRetry? || step.RetryFailed?) ==> step.id != c
    ensures c < |Apply(s, step).rows| && Apply(s, step).rows[c].state.Terminal()
  {
    StepShape(s, step);
    if Enabled(s, step) { TerminalRow(s, step, c); }
  }

  lemma TerminalRow(s: Sys, step: Step, c: TaskId)
    requires Shaped(s) && Enabled(s, step) && c < |s.rows| && s.rows[c].state.Terminal()
    requires (step.ManualRetry? || step.RetryFailed?) ==> step.id != c
    ensures c < |Rows(s, step)| && Rows(s, step)[c].state.Terminal()
  {
    match step
    case ClaimTasks(q, locked, uuids) => ClaimRow(s.rows, q, locked, uuids, c);
    case CheckParent(id, busy, hook, reason) => CheckFrame(s.rows, busy, id, hook, reason);
    case ForkWave(id, kids, mark) => ForkFrame(s.rows, id, kids, mark);
    case Report(id, value, busy, types) => UpdateFrame(s.rows, busy, types, id, value);
    case _ =>
  }

  lemma StoredWave(x: Exec, p: TaskId, n: nat)
    requires ExecInv(x, p, n) && x.sys.rows[p].state.Waiting?
    ensures WaveStored(x.sys.rows, p)
    ensures |x.sys.rows[p].wave| > 0 && x.sys.rows[p].phase < n
  {
    WavesCovered(x, p);
    assert WaveOk(x.waves[|x.waves| - 1], |x.sys.rows|);
  }

  lemma SameWave(x: Exec, p: TaskId, n: nat, e: Event)
    requires ExecInv(x, p, n) && x.sys.rows[p].state.Waiting? && WaveStored(x.sys.rows, p)
    requires Typed(e, p, n) && !e.Execute? && (e.Foreign? ==> !RetriesChild(x.sys, e.step, p))
    requires e.Advance? ==> |Next(x, p, e).waves| <= |x.waves|
    requires p < |Next(x, p, e).sys.rows| && Next(x, p, e).sys.rows[p].state.Waiting?
    ensures var rows, rows' := x.sys.rows, Next(x, p, e).sys.rows;
            && rows'[p].phase == rows[p].phase && rows'[p].wave == rows[p].wave && WaveStored(rows', p)
            && Finished(rows, rows[p].wave) <= Finished(rows', rows[p].wave)
  {
    match e
    case Foreign(step) =>
      ForeignFrame(x.sys, step, p);
      WaveGrows(x.sys, step, p);
    case Advance(plans, agg, busy, reason) => SameRows(x, p, n, e);
  }

  lemma WaveGrows(s: Sys, step: Step, p: TaskId)
    requires Shaped(s) && WaveStored(s.rows, p) && !RetriesChild(s, step, p)
    ensures |s.rows| <= |Apply(s, step).rows|
    ensures Finished(s.rows, s.rows[p].wave) <= Finished(Apply(s, step).rows, s.rows[p].wave)
  {
    var wave := s.rows[p].wave;
    StepShape(s, step);
    forall k | 0 <= k < |wave| && s.rows[wave[k]].state.Terminal()
      ensures Apply(s, step).rows[wave[k]].state.Terminal()
    {
      TerminalStays(s, step, wave[k]);
    }
    FinishedGrows(s.rows, Apply(s, step).rows, wave);
  }

  /** A check after which the root still waits for the same wave changed nothing. */
  lemma SameRows(x: Exec, p: TaskId, n: nat, e: Event)
    requires ExecInv(x, p, n) && x.sys.rows[p].state.Waiting?
    requires e.Advance? && PlansFit(e.plans, n, p) && |Advanced(x, p, e).waves| <= |x.waves|
    requires p < |Advanced(x, p, e).sys.rows| && Advanced(x, p, e).sys.rows[p].state.Waiting?
    ensures Advanced(x, p, e).sys.rows == x.sys.rows
  {
    if Idle(x, p, e) {
      IdleRows(x, p, n, e);
    } else if FirstWave(e.plans, x.sys.rows[p].phase + 1).NoMore? {
      AdvanceEnd(x, p, n, e);
    }
  }

  lemma {:induction false} NoneFinished(rows: Table, wave: seq<TaskId>)
    requires forall k :: 0 <= k < |wave| ==> wave[k] < |rows| && !rows[wave[k]].state.Terminal()
    ensures Finished(rows, wave) == 0
  {
    if wave != [] {
      forall k | 0 <= k < |wave[1..]| ensures wave[1..][k] < |rows| && !rows[wave[1..][k]].state.Terminal() {
        assert wave[1..][k] == wave[k + 1];
      }
      NoneFinished(rows, wave[1..]);
    }
  }

  /** A late execute() that spawns a wave sends the percentage to the start of that
      wave's phase, which is 0 for phase 0, wherever it stood. */
  lemma LateWaveShows(x: Exec, p: TaskId, n: nat, plans: seq<Plan>, runner: RunnerId)
    requires ExecInv(x, p, n) && x.sys.rows[p].state.Waiting? && PlansFit(plans, n, p) && FirstWave(plans, 0).WaveAt?
    ensures var rows' := Executed(x, p, plans, runner).sys.rows;
            WaveStored(rows', p) && Shown(rows', p, n) == 100 * FirstWave(plans, 0).phase / n
  {
    var rows, k := x.sys.rows, FirstWave(plans, 0).phase;
    var kids := plans[k].kids;
    var rows' := Fork(rows, p, kids, WaveOf(k));
    ForkFrame(rows, p, kids, WaveOf(k));
    assert Executed(x, p, plans, runner).sys.rows == rows';
    NoneFinished(rows', Span(|rows|, |kids|));
    Positive(n, |kids|);
    Commute(100, k, |kids|);
    Whole(100 * k, n, |kids|);
  }

  /** Scaling both sides leaves a quotient. */
  lemma Whole(a: nat, b: nat, m: nat)
    requires b > 0 && m > 0
    ensures b * m > 0 && a * m / (b * m) == a / b
  {
    Positive(b, m);
    Reorder(a, m, b);
    Commute(a, b, m);
    ScaledDiv(a, b, a * m, b * m);
    ScaledDiv(a * m, b * m, a, b);
  }
  /** An execute() with nothing to spawn moves the waiting root past its last phase,
      and the percentage with it. */
  lemma LateEmptyShows(x: Exec, p: TaskId, n: nat, plans: seq<Plan>, runner: RunnerId)
    requires ExecInv(x, p, n) && x.sys.rows[p].state.Waiting? && PlansFit(plans, n, p) && FirstWave(plans, 0).NoMore?
    ensures WaveStored(x.sys.rows, p) && WaveStored(Executed(x, p, plans, runner).sys.rows, p)
    ensures Shown(x.sys.rows, p, n) <= Shown(Executed(x, p, plans, runner).sys.rows, p, n)
  {
    var rows, rows' := x.sys.rows, Executed(x, p, plans, runner).sys.rows;
    StoredWave(x, p, n);
    EmptyExecute(x.sys, p, plans, runner);
    assert rows' == rows[p := rows[p].(phase := n)];
    PercentAcross(rows[p].phase, Finished(rows, rows[p].wave), |rows[p].wave|,
                  n, Finished(rows', rows[p].wave), |rows[p].wave|, n);
  }

  /** An execute() of the waiting root makes the percentage fall exactly when it spawns
      a wave whose phase begins below the percentage shown. */
  lemma ExecuteFallsIff(x: Exec, p: TaskId, n: nat, plans: seq<Plan>, runner: RunnerId)
    requires ExecInv(x, p, n) && x.sys.rows[p].state.Waiting? && PlansFit(plans, n, p)
    ensures WaveStored(x.sys.rows, p) && WaveStored(Executed(x, p, plans, runner).sys.rows, p)
    ensures var before, after := Shown(x.sys.rows, p, n), Shown(Executed(x, p, plans, runner).sys.rows, p, n);
            after < before <==> FirstWave(plans, 0).WaveAt? && 100 * FirstWave(plans, 0).phase / n < before
  {
    StoredWave(x, p, n);
    match FirstWave(plans, 0)
    case WaveAt(k) => LateWaveShows(x, p, n, plans, runner);
    case RaisedAt(k) =>
    case NoMore => LateEmptyShows(x, p, n, plans, runner);
  }

  /** While the root waits its percentage never falls, whatever anybody does, unless a
      failed child of the current wave is sent back to the queue or a late execute() of
      the root spawns a wave. */
  lemma ProgressNeverFalls(x: Exec, p: TaskId, n: nat, e: Event)
    requires ExecInv(x, p, n) && x.sys.rows[p].state.Waiting? && Typed(e, p, n)
    requires e.Foreign? ==> !RetriesChild(x.sys, e.step, p)
    requires e.Execute? ==> !FirstWave(e.plans, 0).WaveAt?
    requires p < |Next(x, p, e).sys.rows| && Next(x, p, e).sys.rows[p].state.Waiting?
    ensures WaveStored(x.sys.rows, p) && WaveStored(Next(x, p, e).sys.rows, p)
    ensures Shown(x.sys.rows, p, n) <= Shown(Next(x, p, e).sys.rows, p, n)
  {
    if e.Execute? {
      ExecuteFallsIff(x, p, n, e.plans, e.runner);
    } else if e.Advance? && |Next(x, p, e).waves| > |x.waves| {
      AdvanceRises(x, p, n, e);
    } else {
      StoredWave(x, p, n);
      SameWave(x, p, n, e);
      var rows, rows' := x.sys.rows, Next(x, p, e).sys.rows;
      PercentInWave(rows[p].phase, Finished(rows, rows[p].wave), Finished(rows', rows[p].wave), |rows[p].wave|, n);
    }
  }

  lemma AdvanceRises(x: Exec, p: TaskId, n: nat, e: Event)
    requires ExecInv(x, p, n) && x.sys.rows[p].state.Waiting? && e.Advance? && PlansFit(e.plans, n, p)
    requires |Next(x, p, e).waves| > |x.waves|
    requires p < |Next(x, p, e).sys.rows| && Next(x, p, e).sys.rows[p].state.Waiting?
    ensures WaveStored(x.sys.rows, p) && WaveStored(Next(x, p, e).sys.rows, p)
    ensures Shown(x.sys.rows, p, n) <= Shown(Next(x, p, e).sys.rows, p, n)
  {
    var x' := Next(x, p, e);
    NextInv(x, p, n, e);
    StoredWave(x, p, n);
    StoredWave(x', p, n);
    AdvanceDecreases(x, p, n, e);
    var rows, rows' := x.sys.rows, x'.sys.rows;
    PercentAcross(rows[p].phase, Finished(rows, rows[p].wave), |rows[p].wave|,
                  rows'[p].phase, Finished(rows', rows'[p].wave), |rows'[p].wave|, n);
  }
}
