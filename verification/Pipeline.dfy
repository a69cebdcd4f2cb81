/** Multi-phase pipelines: one root task that fans out one wave of children per
    phase, driven by its execute() and by on_all_children_done, while every other
    transaction of the queue goes on around it. */
module Pipeline {
  import opened Optional
  import opened TaskModel
  import opened Claiming
  import opened Progress
  import opened WaitingParent
  import opened Protocol

  /** What plan_phase answers for one phase. */
  datatype Plan = Kids(kids: seq<Task>) | Raise(how: Raised)

  /** How user code raised. */
  datatype Raised = Retry | Database | Other

  /** How aggregate_result ends once no phase is left. */
  datatype Aggregate = Value(value: Option<Payload>) | AggregateRaises(how: Raised)

  datatype Found = WaveAt(phase: nat) | RaisedAt(phase: nat) | NoMore

  function AsHook(how: Raised): Hook {
    match how
    case Retry => AsksRetry
    case Database => Transient
    case Other => Broken
  }

  /** The first phase at or after k that yields children or raises. */
  function FirstWave(plans: seq<Plan>, k: nat): (r: Found)
    ensures r.WaveAt? ==> k <= r.phase < |plans| && plans[r.phase].Kids? && plans[r.phase].kids != []
    ensures r.RaisedAt? ==> k <= r.phase < |plans| && plans[r.phase].Raise?
    ensures forall i :: k <= i < (if r.NoMore? then |plans| else r.phase) ==> plans[i] == Kids([])
    decreases |plans| - k
  {
    if k >= |plans| then NoMore
    else if plans[k].Raise? then RaisedAt(k)
    else if plans[k].kids != [] then WaveAt(k)
    else FirstWave(plans, k + 1)
  }

  predicate PlansFit(plans: seq<Plan>, n: nat, p: TaskId) {
    && |plans| == n
    && forall k :: 0 <= k < n && plans[k].Kids? ==> FreshKids(plans[k].kids, p)
  }

  /** on_all_children_done of a pipeline standing at `phase`. */
  function PipelineHook(plans: seq<Plan>, phase: nat, agg: Aggregate): Hook {
    match FirstWave(plans, phase + 1)
    case WaveAt(k) => Returned(plans[k].kids, WaveOf(k), None)
    case RaisedAt(k) => AsHook(plans[k].how)
    case NoMore =>
      match agg
      case Value(value) => Returned([], Exhausted(if phase + 1 < |plans| then |plans| else phase + 1), value)
      case AggregateRaises(how) => AsHook(how)
  }

  datatype ChildResult = ChildResult(task: TaskId, state: State, result: Option<Payload>, error: Option<Payload>)

  /** A result is reported for done children only, an error for failed ones only. */
  function ResultOf(rows: Table, c: TaskId): ChildResult
    requires c < |rows|
  {
    ChildResult(c, rows[c].state,
      if rows[c].state.Done? then rows[c].result else None,
      if rows[c].state.Failed? then rows[c].error else None)
  }

  /** What a report says, state by state. */
  lemma ReportSays(rows: Table, c: TaskId)
    requires c < |rows|
    ensures var t, r := rows[c], ResultOf(rows, c);
            && r.task == c && r.state == t.state
            && match t.state
               case Done => r.result == t.result && r.error == None
               case Failed => r.result == None && r.error == t.error
               case _ => r.result == None && r.error == None
  {
  }

  function Results(rows: Table, wave: seq<TaskId>): seq<ChildResult>
    requires forall k :: 0 <= k < |wave| ==> wave[k] < |rows|
  {
    seq(|wave|, k requires 0 <= k < |wave| => ResultOf(rows, wave[k]))
  }

  /** iter_wave_results: what the stored child ids report. */
  function Read(rows: Table, ids: seq<TaskId>): seq<ChildResult> {
    if forall k :: 0 <= k < |ids| ==> ids[k] < |rows| then Results(rows, ids) else []
  }

  // ---- one execution of a pipeline --------------------------------------------

  datatype Wave = Wave(phase: nat, ids: seq<TaskId>)

  /** One committed plan_phase call: the phase, and the results it was given. */
  datatype Call = Call(phase: nat, prev: Option<seq<ChildResult>>)

  /** Where the root stands. `open`: an execution has begun and the root has not been
      requeued since. `base` is the size of the table when that changed last: rows from
      there on are newer, and children before it belong to earlier executions.
      `adopted` are the children created since by hand. */
  datatype Exec = Exec(sys: Sys, open: bool, waves: seq<Wave>, log: seq<Call>, base: nat, adopted: set<int>)

  /** The root's own code commits as Execute (one thread's execute(), with the runner id
      the thread captured) and Advance (a parent check); everything else is Foreign. */
  datatype Event =
    | Foreign(step: Step)
    | Execute(plans: seq<Plan>, runner: RunnerId)
    | Advance(plans: seq<Plan>, agg: Aggregate, busy: set<TaskId>, reason: Payload)

  /** The steps that only the root's own code takes: parking, forking, checking with
      its hook, and finishing the thread that ran execute(). */
  predicate OwnCode(step: Step, p: TaskId) {
    match step
    case Row(op, id) => id == p && (op.Park? || op.ThreadDone?)
    case CheckParent(id, busy, hook, reason) => id == p
    case ForkWave(id, kids, mark) => id == p
    case _ => false
  }

  /** An event of a root whose type has n phases. */
  predicate Typed(e: Event, p: TaskId, n: nat) {
    match e
    case Foreign(step) => !OwnCode(step, p)
    case Execute(plans, runner) => PlansFit(plans, n, p)
    case Advance(plans, agg, busy, reason) => PlansFit(plans, n, p)
  }

  /** The calls for phases from..end-1, in order, all given the same results. */
  function Planned(from: nat, end: nat, prev: Option<seq<ChildResult>>): (r: seq<Call>)
    requires from <= end
    ensures |r| == end - from && forall i :: 0 <= i < |r| ==> r[i] == Call(from + i, prev)
  {
    seq(end - from, i requires 0 <= i < end - from => Call(from + i, prev))
  }

  /** The check gets as far as running the hook. */
  ghost predicate HookRuns(rows: Table, busy: set<TaskId>, p: TaskId)
    requires p < |rows|
  {
    p !in busy && rows[p].state.Waiting? && SomeKid(rows, p) && KidsSettled(rows, p)
  }

  /** No execution in progress, and no child of one. */
  function Vacant(s: Sys): Exec {
    Exec(s, false, [], [], |s.rows|, {})
  }

  // ---- execute() -------------------------------------------------------------------

  /** The wave an execute() spawns in a table of `first` rows. */
  function NewWaves(plans: seq<Plan>, first: nat): seq<Wave> {
    match FirstWave(plans, 0)
    case WaveAt(k) => [Wave(k, Span(first, |plans[k].kids|))]
    case RaisedAt(_) => []
    case NoMore => []
  }

  /** The plan_phase calls an execute() makes before it returns. */
  function NewCalls(plans: seq<Plan>): seq<Call> {
    match FirstWave(plans, 0)
    case WaveAt(k) => Planned(0, k + 1, None)
    case RaisedAt(_) => []
    case NoMore => Planned(0, |plans|, None)
  }

  /** Whether the transaction of an execute() commits: a plan that raises, or parking a
      task that is neither running nor waiting, rolls it back. */
  predicate Commits(t: Task, plans: seq<Plan>) {
    match FirstWave(plans, 0)
    case WaveAt(_) => t.state.Running? || t.state.Waiting?
    case RaisedAt(_) => false
    case NoMore => true
  }

  /** Whether it begins an execution: the task is still being executed. */
  predicate Opens(t: Task, plans: seq<Plan>) {
    match FirstWave(plans, 0)
    case WaveAt(_) => t.state.Running?
    case RaisedAt(_) => false
    case NoMore => t.state.Running? || t.state.Stuck?
  }

  /** The steps of the transaction: the fork, and with nothing to fork also the end of
      the thread. */
  ghost function ExecuteSteps(s: Sys, p: TaskId, plans: seq<Plan>, runner: RunnerId): (s': Sys)
    requires Shaped(s)
    ensures Shaped(s') && |s'.rows| >= |s.rows|
  {
    match FirstWave(plans, 0)
    case WaveAt(k) =>
      StepShape(s, ForkWave(p, plans[k].kids, WaveOf(k)));
      Apply(s, ForkWave(p, plans[k].kids, WaveOf(k)))
    case RaisedAt(_) => s
    case NoMore =>
      var s1 := Apply(s, ForkWave(p, [], Exhausted(|plans|)));
      StepShape(s, ForkWave(p, [], Exhausted(|plans|)));
      StepShape(s1, Row(ThreadDone(runner, None), p));
      Apply(s1, Row(ThreadDone(runner, None), p))
  }

  ghost function Executed(x: Exec, p: TaskId, plans: seq<Plan>, runner: RunnerId): Exec
    requires Shaped(x.sys) && p < |x.sys.rows|
  {
    var t, s' := x.sys.rows[p], ExecuteSteps(x.sys, p, plans, runner);
    if !Commits(t, plans) then x
    else if Opens(t, plans) then Exec(s', true, NewWaves(plans, |x.sys.rows|), NewCalls(plans), |x.sys.rows|, {})
    else if x.open then x.(sys := s', waves := x.waves + NewWaves(plans, |x.sys.rows|), log := x.log + NewCalls(plans))
    else x.(sys := s')
  }

  /** An execute() does not come late: if it commits while an execution is open, it
      begins one of its own. In terms of the row its transaction reads: running, or
      stuck with nothing to spawn. */
  predicate Timely(x: Exec, p: TaskId, e: Event)
    requires p < |x.sys.rows|
  {
    e.Execute? && x.open && e.plans != [] && Commits(x.sys.rows[p], e.plans) ==> Opens(x.sys.rows[p], e.plans)
  }

  // ---- everything else ---------------------------------------------------------------

  ghost function AdvanceStep(x: Exec, p: TaskId, e: Event): Step
    requires p < |x.sys.rows| && e.Advance?
  {
    CheckParent(p, e.busy, PipelineHook(e.plans, x.sys.rows[p].phase, e.agg), e.reason)
  }

  /** A check of the root. Its hook plans from the phase stored on the row, and hands on
      what the child ids stored there report. */
  ghost function Advanced(x: Exec, p: TaskId, e: Event): Exec
    requires Shaped(x.sys) && p < |x.sys.rows| && e.Advance?
  {
    var rows := x.sys.rows;
    var phase, prev := rows[p].phase, Some(Read(rows, rows[p].wave));
    var s' := Apply(x.sys, AdvanceStep(x, p, e));
    if !HookRuns(rows, e.busy, p) then x.(sys := s')
    else
      match FirstWave(e.plans, phase + 1)
      case WaveAt(k) =>
        x.(sys := s',
           waves := x.waves + [Wave(k, Span(|rows|, |e.plans[k].kids|))],
           log := x.log + Planned(phase + 1, k + 1, prev))
      case RaisedAt(k) => x.(sys := s')
      case NoMore =>
        if e.agg.Value? && phase < |e.plans| then x.(sys := s', log := x.log + Planned(phase + 1, |e.plans|, prev))
        else x.(sys := s')
  }

  ghost predicate Requeued(s: Sys, s': Sys, p: TaskId) {
    p < |s.rows| && p < |s'.rows| && !s.rows[p].state.Pending? && s'.rows[p].state.Pending?
  }

  /** The child a step creates under the root by hand, if it does. */
  ghost function NewlyAdopted(s: Sys, step: Step, p: TaskId): set<int> {
    if Enabled(s, step) && Adopts(step, p) then {|s.rows|} else {}
  }

  /** A step of somebody else. Requeueing the root closes its execution. */
  ghost function Bystood(x: Exec, p: TaskId, step: Step): Exec
    requires Shaped(x.sys)
  {
    var s' := Apply(x.sys, step);
    if Requeued(x.sys, s', p) then Vacant(s')
    else x.(sys := s', adopted := x.adopted + NewlyAdopted(x.sys, step, p))
  }

  ghost function Next(x: Exec, p: TaskId, e: Event): Exec
    requires Shaped(x.sys) && p < |x.sys.rows|
  {
    match e
    case Foreign(step) => Bystood(x, p, step)
    case Execute(plans, runner) => Executed(x, p, plans, runner)
    case Advance(plans, agg, busy, reason) => Advanced(x, p, e)
  }

  // ---- invariant -----------------------------------------------------------------

  /** Waves are non-empty runs of consecutive ids, later waves newer, and the
      children the root got since `base` are their members and the adopted ones. */
  ghost predicate Partitioned(x: Exec, p: TaskId) {
    && (forall w :: 0 <= w < |x.waves| ==> WaveOk(x.waves[w], |x.sys.rows|))
    && (forall v, w :: 0 <= v < w < |x.waves| ==> Older(x.waves[v], x.waves[w]))
    && x.base <= |x.sys.rows|
    && (forall c :: ChildOf(x.sys.rows, c, p) && c >= x.base <==> InWaves(x.waves, c) || c in x.adopted)
    && (forall c :: c in x.adopted ==> !InWaves(x.waves, c))
  }

  ghost predicate WaveOk(wave: Wave, size: nat) {
    && wave.ids != []
    && wave.ids == Span(wave.ids[0], |wave.ids|)
    && wave.ids[0] + |wave.ids| <= size
  }

  ghost predicate Older(v: Wave, w: Wave) {
    v.ids != [] && w.ids != [] && v.ids[0] + |v.ids| <= w.ids[0]
  }

  /** The phases of the waves rise, and all of them have been planned. */
  ghost predicate PhasesRise(x: Exec) {
    && (forall w :: 0 <= w < |x.waves| ==> x.waves[w].phase < |x.log|)
    && (forall v, w :: 0 <= v < w < |x.waves| ==> x.waves[v].phase < x.waves[w].phase)
  }

  ghost predicate RowsCover(x: Exec) {
    forall w :: 0 <= w < |x.waves| ==> forall k :: 0 <= k < |x.waves[w].ids| ==> x.waves[w].ids[k] < |x.sys.rows|
  }

  ghost predicate InWaves(waves: seq<Wave>, c: int) {
    exists w :: 0 <= w < |waves| && c in waves[w].ids
  }

  /** Call i was given the results of the last wave of an earlier phase, all of
      them done or cancelled, and they are still those results. */
  ghost predicate CallOk(x: Exec, i: nat)
    requires i < |x.log|
  {
    && x.log[i].phase == i
    && match x.log[i].prev
       case None => forall w :: 0 <= w < |x.waves| ==> i <= x.waves[w].phase
       case Some(results) => exists w :: GivenBy(x, i, results, w)
  }

  ghost predicate GivenBy(x: Exec, i: nat, results: seq<ChildResult>, w: int) {
    && 0 <= w < |x.waves| && x.waves[w].phase < i
    && (forall v :: w < v < |x.waves| ==> i <= x.waves[v].phase)
    && (forall k :: 0 <= k < |x.waves[w].ids| ==> x.waves[w].ids[k] < |x.sys.rows|)
    && results == Results(x.sys.rows, x.waves[w].ids)
    && (forall k :: 0 <= k < |results| ==> results[k].state.Done? || results[k].state.Cancelled?)
  }

  ghost predicate RootOk(x: Exec, p: TaskId, n: nat) {
    && p < |x.sys.rows|
    && |x.log| <= n
    && var t := x.sys.rows[p];
       if x.open then OpenRoot(x, t, n)
       else x.waves == [] && x.log == [] && !t.state.Waiting? && !t.state.Done?
  }

  ghost predicate OpenRoot(x: Exec, t: Task, n: nat) {
    && (t.state.Waiting? ==>
          && |x.waves| > 0
          && t.phase == x.waves[|x.waves| - 1].phase && t.wave == x.waves[|x.waves| - 1].ids
          && t.phase < n && |x.log| == t.phase + 1)
    && (t.state.Done? ==> t.phase == n && |x.log| == n)
    && (|x.waves| > 0 ==> t.state.Waiting? || t.state.Terminal())
    && (|x.waves| == 0 ==> t.phase == n && |x.log| == n)
  }

  ghost predicate ExecInv(x: Exec, p: TaskId, n: nat) {
    && Shaped(x.sys)
    && Partitioned(x, p)
    && PhasesRise(x)
    && RootOk(x, p, n)
    && (forall i :: 0 <= i < |x.log| ==> CallOk(x, i))
  }

  lemma WavesCovered(x: Exec, p: TaskId)
    requires Partitioned(x, p)
    ensures RowsCover(x)
  {
    forall w | 0 <= w < |x.waves| ensures forall k :: 0 <= k < |x.waves[w].ids| ==> x.waves[w].ids[k] < |x.sys.rows| {
      assert WaveOk(x.waves[w], |x.sys.rows|);
    }
  }

  lemma VacantOk(s: Sys, p: TaskId, n: nat)
    requires Shaped(s) && p < |s.rows| && !s.rows[p].state.Waiting? && !s.rows[p].state.Done?
    ensures ExecInv(Vacant(s), p, n)
  {
  }

  lemma EmptyFork(s: Sys, p: TaskId, n: nat)
    requires Shaped(s) && p < |s.rows|
    ensures Apply(s, ForkWave(p, [], Exhausted(n))).rows == s.rows[p := s.rows[p].(phase := n)]
  {
    assert Enabled(s, ForkWave(p, [], Exhausted(n)));
    assert s.rows + [] == s.rows;
  }

  lemma DoneStep(s: Sys, p: TaskId, runner: RunnerId)
    requires Shaped(s) && p < |s.rows|
    ensures Apply(s, Row(ThreadDone(runner, None), p)).rows
            == if Owns(s.rows[p], Some(runner), None, false) then s.rows[p := ToDone(s.rows[p], None)] else s.rows
  {
  }

  lemma EmptySteps(s: Sys, p: TaskId, plans: seq<Plan>, runner: RunnerId)
    requires Shaped(s) && p < |s.rows| && FirstWave(plans, 0).NoMore?
    ensures var s1 := Apply(s, ForkWave(p, [], Exhausted(|plans|)));
            && Shaped(s1) && p < |s1.rows|
            && ExecuteSteps(s, p, plans, runner) == Apply(s1, Row(ThreadDone(runner, None), p))
  {
    StepShape(s, ForkWave(p, [], Exhausted(|plans|)));
  }

  /** What an execute() with nothing to spawn leaves of its row. */
  lemma EmptyExecute(s: Sys, p: TaskId, plans: seq<Plan>, runner: RunnerId)
    requires Shaped(s) && p < |s.rows| && FirstWave(plans, 0).NoMore?
    ensures var s', marked := ExecuteSteps(s, p, plans, runner), s.rows[p].(phase := |plans|);
            s'.rows == s.rows[p := if Owns(marked, Some(runner), None, false) then ToDone(marked, None) else marked]
  {
    EmptySteps(s, p, plans, runner);
    EmptyFork(s, p, |plans|);
    DoneStep(Apply(s, ForkWave(p, [], Exhausted(|plans|))), p, runner);
  }

  /** execute() of a task being executed begins an execution: the first wave is
      spawned, or the phases are exhausted. */
  lemma StartOk(x: Exec, p: TaskId, n: nat, plans: seq<Plan>, runner: RunnerId)
    requires Shaped(x.sys) && p < |x.sys.rows| && PlansFit(plans, n, p) && Opens(x.sys.rows[p], plans)
    ensures ExecInv(Executed(x, p, plans, runner), p, n)
  {
    if FirstWave(plans, 0).NoMore? {
      EmptyExecute(x.sys, p, plans, runner);
    } else {
      StartWave(x, p, n, plans, runner);
    }
  }

  lemma StartWave(x: Exec, p: TaskId, n: nat, plans: seq<Plan>, runner: RunnerId)
    requires Shaped(x.sys) && p < |x.sys.rows| && x.sys.rows[p].state.Running?
    requires PlansFit(plans, n, p) && FirstWave(plans, 0).WaveAt?
    ensures ExecInv(Executed(x, p, plans, runner), p, n)
  {
    var s, x' := x.sys, Executed(x, p, plans, runner);
    var k := FirstWave(plans, 0).phase;
    StepShape(s, ForkWave(p, plans[k].kids, WaveOf(k)));
    FirstWaveOk(s.rows, x', p, n, k, plans[k].kids);
  }

  lemma FirstWaveOk(rows: Table, x': Exec, p: TaskId, n: nat, k: nat, kids: seq<Task>)
    requires p < |rows| && kids != [] && FreshKids(kids, p) && k < n
    requires Shaped(x'.sys) && x'.sys.rows == Fork(rows, p, kids, WaveOf(k))
    requires x' == Exec(x'.sys, true, [Wave(k, Span(|rows|, |kids|))], Planned(0, k + 1, None), |rows|, {})
    ensures ExecInv(x', p, n)
  {
    ForkFrame(rows, p, kids, WaveOf(k));
    WavesBegun(rows, x', p, k, |kids|);
  }

  lemma SpanHas(first: nat, n: nat, c: int)
    ensures c in Span(first, n) <==> first <= c < first + n
  {
    if first <= c < first + n { assert Span(first, n)[c - first] == c; }
  }

  /** A step of somebody else leaves the root's place in the pipeline alone, attaches
      to it only a child created by hand, and moves it out of waiting only by
      cancellation, out of a terminal state only by requeueing it, and never to done. */
  lemma ForeignFrame(s: Sys, step: Step, p: TaskId)
    requires Shaped(s) && p < |s.rows| && !OwnCode(step, p)
    ensures Shaped(Apply(s, step)) && |s.rows| <= |Apply(s, step).rows|
    ensures forall c :: ChildOf(Apply(s, step).rows, c, p)
                        <==> ChildOf(s.rows, c, p) || c in NewlyAdopted(s, step, p)
    ensures RootKept(s.rows[p], Apply(s, step).rows[p])
  {
    StepShape(s, step);
    forall c
      ensures ChildOf(Apply(s, step).rows, c, p) <==> ChildOf(s.rows, c, p) || c in NewlyAdopted(s, step, p)
    {
      ForeignChild(s, step, p, c);
    }
    if Enabled(s, step) { RootFrame(s, step, p); }
  }

  lemma ForeignChild(s: Sys, step: Step, p: TaskId, c: int)
    requires Shaped(s) && p < |s.rows| && !OwnCode(step, p)
    ensures ChildOf(Apply(s, step).rows, c, p) <==> ChildOf(s.rows, c, p) || c in NewlyAdopted(s, step, p)
  {
    StepShape(s, step);
    if c >= |s.rows| && ChildOf(Apply(s, step).rows, c, p) { NewChild(s, step, p, c); }
    if c in NewlyAdopted(s, step, p) { CreatedChild(s, step, p); }
  }

  lemma NewChild(s: Sys, step: Step, p: TaskId, c: int)
    requires Shaped(s) && p < |s.rows| && !OwnCode(step, p) && c >= |s.rows|
    requires ChildOf(Apply(s, step).rows, c, p)
    ensures Enabled(s, step) && Adopts(step, p) && c == |s.rows|
  {
    NewParent(s, step, c);
  }

  lemma CreatedChild(s: Sys, step: Step, p: TaskId)
    requires Shaped(s) && Enabled(s, step) && Adopts(step, p)
    ensures ChildOf(Apply(s, step).rows, |s.rows|, p)
  {
  }

  predicate RootKept(t: Task, t': Task) {
    && t'.phase == t.phase && t'.wave == t.wave
    && (t'.state.Waiting? ==> t.state.Waiting?)
    && (t.state.Waiting? ==> t'.state.Waiting? || t'.state.Cancelled?)
    && (t.state.Terminal() ==> t'.state.Terminal() || t'.state.Pending?)
    && (t'.state.Done? ==> t.state.Done?)
  }

  lemma RootFrame(s: Sys, step: Step, p: TaskId)
    requires Shaped(s) && p < |s.rows| && !OwnCode(step, p) && Enabled(s, step)
    ensures p < |Rows(s, step)| && RootKept(s.rows[p], Rows(s, step)[p])
  {
    match step
    case ClaimTasks(q, locked, uuids) => ClaimRow(s.rows, q, locked, uuids, p);
    case CheckParent(id, busy, hook, reason) => CheckFrame(s.rows, busy, id, hook, reason);
    case ForkWave(id, kids, mark) => ForkFrame(s.rows, id, kids, mark);
    case Report(id, value, busy, types) => UpdateFrame(s.rows, busy, types, id, value);
    case _ =>
  }

  /** What a done or cancelled child reports never changes. */
  lemma ResultStays(s: Sys, step: Step, c: TaskId)
    requires Shaped(s) && c < |s.rows| && (s.rows[c].state.Done? || s.rows[c].state.Cancelled?)
    ensures c < |Apply(s, step).rows| && ResultOf(Apply(s, step).rows, c) == ResultOf(s.rows, c)
  {
    StepSettled(s, step, c);
  }

  /** Every done or cancelled row still reports what it reported. */
  ghost predicate ResultsKept(rows: Table, rows': Table) {
    && |rows| <= |rows'|
    && forall c: TaskId :: c < |rows| && (rows[c].state.Done? || rows[c].state.Cancelled?)
         ==> ResultOf(rows', c) == ResultOf(rows, c)
  }

  lemma StepKeepsResults(s: Sys, step: Step)
    requires Shaped(s)
    ensures ResultsKept(s.rows, Apply(s, step).rows)
  {
    StepShape(s, step);
    forall c: TaskId | c < |s.rows| && (s.rows[c].state.Done? || s.rows[c].state.Cancelled?)
      ensures ResultOf(Apply(s, step).rows, c) == ResultOf(s.rows, c)
    {
      ResultStays(s, step, c);
    }
  }

  /** Calls already logged keep their justification when rows move on and newer
      waves are appended. */
  lemma CallsKept(x: Exec, x': Exec, i: nat)
    requires ResultsKept(x.sys.rows, x'.sys.rows)
    requires x.waves <= x'.waves && x.log <= x'.log && i < |x.log| && CallOk(x, i)
    requires forall w :: |x.waves| <= w < |x'.waves| ==> |x.log| <= x'.waves[w].phase
    ensures CallOk(x', i)
  {
    if x.log[i].prev.Some? {
      var results := x.log[i].prev.value;
      var w :| GivenBy(x, i, results, w);
      var ids := x.waves[w].ids;
      forall k | 0 <= k < |ids| ensures ResultOf(x'.sys.rows, ids[k]) == ResultOf(x.sys.rows, ids[k]) {
        assert results[k].state == x.sys.rows[ids[k]].state;
      }
      assert Results(x'.sys.rows, ids) == Results(x.sys.rows, ids);
      assert GivenBy(x', i, results, w);
    }
  }

  /** A step that adds no wave keeps the partition as long as every new child is an
      adopted one. */
  lemma QuietPartition(x: Exec, x': Exec, p: TaskId, extra: set<int>)
    requires Partitioned(x, p) && x'.waves == x.waves && x'.base == x.base && x'.adopted == x.adopted + extra
    requires |x'.sys.rows| >= |x.sys.rows| && forall c :: c in extra ==> c >= |x.sys.rows|
    requires forall c :: ChildOf(x'.sys.rows, c, p) <==> ChildOf(x.sys.rows, c, p) || c in extra
    ensures Partitioned(x', p)
  {
    forall w | 0 <= w < |x.waves| ensures WaveOk(x'.waves[w], |x'.sys.rows|) {
      assert WaveOk(x.waves[w], |x.sys.rows|);
    }
    forall c
      ensures ChildOf(x'.sys.rows, c, p) && c >= x'.base <==> InWaves(x'.waves, c) || c in x'.adopted
      ensures c in x'.adopted ==> !InWaves(x'.waves, c)
    {
      assert ChildOf(x.sys.rows, c, p) && c >= x.base <==> InWaves(x.waves, c) || c in x.adopted;
    }
  }

  /** A step that adds no wave and no call keeps the invariant as soon as the root's
      own part holds and every new child is an adopted one. */
  lemma QuietInv(x: Exec, x': Exec, p: TaskId, n: nat, extra: set<int>)
    requires ExecInv(x, p, n) && Shaped(x'.sys) && x' == x.(sys := x'.sys, adopted := x.adopted + extra)
    requires ResultsKept(x.sys.rows, x'.sys.rows)
    requires forall c :: c in extra ==> c >= |x.sys.rows|
    requires forall c :: ChildOf(x'.sys.rows, c, p) <==> ChildOf(x.sys.rows, c, p) || c in extra
    requires RootOk(x', p, n)
    ensures ExecInv(x', p, n)
  {
    QuietPartition(x, x', p, extra);
    forall i | 0 <= i < |x.log| ensures CallOk(x', i) { CallsKept(x, x', i); }
  }

  lemma RootStays(x: Exec, x': Exec, p: TaskId, n: nat)
    requires ExecInv(x, p, n) && x' == x.(sys := x'.sys, adopted := x'.adopted)
    requires p < |x'.sys.rows| && RootKept(x.sys.rows[p], x'.sys.rows[p]) && !Requeued(x.sys, x'.sys, p)
    ensures RootOk(x', p, n)
  {
  }

  lemma ForeignInv(x: Exec, p: TaskId, n: nat, step: Step)
    requires ExecInv(x, p, n) && !OwnCode(step, p)
    ensures ExecInv(Bystood(x, p, step), p, n)
  {
    ForeignFrame(x.sys, step, p);
    StepKeepsResults(x.sys, step);
    MovedInv(x, Apply(x.sys, step), p, n, NewlyAdopted(x.sys, step, p));
  }

  lemma MovedInv(x: Exec, s': Sys, p: TaskId, n: nat, extra: set<int>)
    requires ExecInv(x, p, n) && Shaped(s') && |x.sys.rows| <= |s'.rows|
    requires RootKept(x.sys.rows[p], s'.rows[p]) && ResultsKept(x.sys.rows, s'.rows)
    requires forall c :: c in extra ==> c >= |x.sys.rows|
    requires forall c :: ChildOf(s'.rows, c, p) <==> ChildOf(x.sys.rows, c, p) || c in extra
    ensures ExecInv(if Requeued(x.sys, s', p) then Vacant(s') else x.(sys := s', adopted := x.adopted + extra), p, n)
  {
    if Requeued(x.sys, s', p) {
      VacantOk(s', p, n);
    } else {
      var x' := x.(sys := s', adopted := x.adopted + extra);
      RootStays(x, x', p, n);
      QuietInv(x, x', p, n, extra);
    }
  }

  /** A hook that raises leaves phase, wave marker and children as they were. */
  lemma RaisingHookInert(rows: Table, busy: set<TaskId>, p: TaskId, hook: Hook, reason: Payload)
    requires p < |rows| && (hook.AsksRetry? || hook.Transient? || hook.Broken?)
    ensures var rows' := Check(rows, busy, p, hook, reason);
            && |rows'| == |rows|
            && rows'[p].phase == rows[p].phase && rows'[p].wave == rows[p].wave
            && (forall i :: 0 <= i < |rows| && i != p ==> rows'[i] == rows[i])
            && (hook.Broken? && HookRuns(rows, busy, p) ==> rows'[p].state.Failed?)
            && (!hook.Broken? && HookRuns(rows, busy, p) ==> rows' == rows)
  {
    if HookRuns(rows, busy, p) { HookReached(rows, p); }
  }

  lemma HookReached(rows: Table, p: TaskId)
    requires p < |rows| && KidsSettled(rows, p)
    ensures !ActiveKid(rows, p) && !DeadKid(rows, p) && !FailedKid(rows, p)
  {
  }

  /** When the hook does not run the root's marker and children are as before, and
      the root does not become done while it has children. */
  lemma HookSkipped(rows: Table, busy: set<TaskId>, p: TaskId, hook: Hook, reason: Payload)
    requires p < |rows| && HookFits(hook, p) && !HookRuns(rows, busy, p) && SomeKid(rows, p)
    ensures var rows' := Check(rows, busy, p, hook, reason);
            rows' == rows || (rows[p].state.Waiting? && rows' == rows[p := ToFailed(rows[p], reason)])
  {
    if p !in busy && rows[p].state.Waiting? {
      var c :| ChildOf(rows, c, p) && !(rows[c].state.Done? || rows[c].state.Cancelled?);
      assert rows[c].state.Active() ==> ActiveKid(rows, p);
      assert rows[c].state.Failed? ==> FailedKid(rows, p);
    }
  }

  lemma WaveHasKid(x: Exec, p: TaskId)
    requires Partitioned(x, p) && |x.waves| > 0
    ensures SomeKid(x.sys.rows, p)
  {
    assert WaveOk(x.waves[0], |x.sys.rows|);
    assert x.waves[0].ids[0] in x.waves[0].ids;
    assert InWaves(x.waves, x.waves[0].ids[0]);
    assert ChildOf(x.sys.rows, x.waves[0].ids[0], p);
  }

  /** Rows appended below p, all others under the parents they had. */
  ghost predicate Spawned(rows: Table, rows': Table, p: TaskId, m: nat) {
    && |rows'| == |rows| + m
    && (forall c :: 0 <= c < |rows| ==> rows'[c].parent == rows[c].parent)
    && (forall c :: |rows| <= c < |rows'| ==> rows'[c].parent == Some(p))
  }

  /** Appending a wave of newly created children of the root keeps the partition. */
  lemma WavesExtended(x: Exec, x': Exec, p: TaskId, k: nat, m: nat)
    requires Partitioned(x, p) && m > 0 && Spawned(x.sys.rows, x'.sys.rows, p, m)
    requires x'.base == x.base && x'.adopted == x.adopted
    requires x'.waves == x.waves + [Wave(k, Span(|x.sys.rows|, m))]
    ensures Partitioned(x', p)
  {
    var rows, rows', last := x.sys.rows, x'.sys.rows, |x.waves|;
    assert x'.waves[last] == Wave(k, Span(|rows|, m));
    forall w | 0 <= w < |x'.waves| ensures WaveOk(x'.waves[w], |rows'|) {
      if w < last { assert WaveOk(x.waves[w], |rows|); }
    }
    forall v, w | 0 <= v < w < |x'.waves| ensures Older(x'.waves[v], x'.waves[w]) {
      if w < last { assert Older(x.waves[v], x.waves[w]); } else { assert WaveOk(x.waves[v], |rows|); }
    }
    forall c
      ensures ChildOf(rows', c, p) && c >= x.base <==> InWaves(x'.waves, c) || c in x.adopted
      ensures c in x.adopted ==> !InWaves(x'.waves, c)
    {
      SpanHas(|rows|, m, c);
      assert 0 <= c < |rows| ==> (ChildOf(rows', c, p) <==> ChildOf(rows, c, p));
      InOneMoreWave(x.waves, Wave(k, Span(|rows|, m)), c);
      if 0 <= c < |rows| {
        assert ChildOf(rows, c, p) && c >= x.base <==> InWaves(x.waves, c) || c in x.adopted;
      } else {
        assert !ChildOf(rows, c, p);
      }
    }
  }

  /** A first wave on its own. */
  lemma WavesBegun(rows: Table, x': Exec, p: TaskId, k: nat, m: nat)
    requires m > 0 && Spawned(rows, x'.sys.rows, p, m) && x'.base == |rows| && x'.adopted == {}
    requires x'.waves == [Wave(k, Span(|rows|, m))]
    ensures Partitioned(x', p)
  {
    assert x'.waves[0].ids == Span(|rows|, m);
    forall c ensures ChildOf(x'.sys.rows, c, p) && c >= x'.base <==> InWaves(x'.waves, c) {
      SpanHas(|rows|, m, c);
    }
  }

  lemma InOneMoreWave(waves: seq<Wave>, wave: Wave, c: int)
    ensures InWaves(waves + [wave], c) <==> InWaves(waves, c) || c in wave.ids
  {
    var all := waves + [wave];
    if w :| 0 <= w < |waves| && c in waves[w].ids { assert all[w] == waves[w]; }
    if c in wave.ids { assert all[|waves|] == wave; }
  }

  /** The hook's outcome through the parent check is the table _start_wave leaves,
      completed when no phase is left. */
  lemma HookIsStartWave(rows: Table, busy: set<TaskId>, p: TaskId, plans: seq<Plan>, n: nat,
                        agg: Aggregate, reason: Payload)
    requires p < |rows| && PlansFit(plans, n, p) && HookRuns(rows, busy, p)
    ensures var next := rows[p].phase + 1;
            var rows' := Check(rows, busy, p, PipelineHook(plans, rows[p].phase, agg), reason);
            var found := FirstWave(plans, next);
            && (found.WaveAt? ==>
                  rows' == Fork(rows, p, plans[found.phase].kids, WaveOf(found.phase)) && rows'[p].state.Waiting?)
            && (found.RaisedAt? ==>
                  rows' == if plans[found.phase].how.Other? then rows[p := ToFailed(rows[p], reason)] else rows)
            && (found.NoMore? && agg.Value? ==>
                  rows' == rows[p := ToDone(rows[p].(phase := if next < n then n else next), agg.value)])
            && (found.NoMore? && agg.AggregateRaises? ==>
                  rows' == if agg.how.Other? then rows[p := ToFailed(rows[p], reason)] else rows)
  {
    HookReached(rows, p);
  }

  /** An advance commits the check of the root. */
  lemma AdvanceChecks(x: Exec, p: TaskId, n: nat, e: Event)
    requires Shaped(x.sys) && p < |x.sys.rows| && e.Advance? && PlansFit(e.plans, n, p)
    ensures var s' := Apply(x.sys, AdvanceStep(x, p, e));
            && Shaped(s') && ResultsKept(x.sys.rows, s'.rows)
            && s'.rows == Check(x.sys.rows, e.busy, p, PipelineHook(e.plans, x.sys.rows[p].phase, e.agg), e.reason)
  {
    StepShape(x.sys, AdvanceStep(x, p, e));
    StepKeepsResults(x.sys, AdvanceStep(x, p, e));
  }

  /** The log grows by the calls for the phases up to end, all given what the root's
      stored wave reports. */
  ghost predicate CallsAdded(x: Exec, x': Exec, p: TaskId, end: nat)
    requires p < |x.sys.rows|
  {
    && x.sys.rows[p].phase < end
    && x'.log == x.log + Planned(x.sys.rows[p].phase + 1, end, Some(Read(x.sys.rows, x.sys.rows[p].wave)))
  }

  /** What an advance adds when it spawns the wave of phase k. */
  ghost predicate WaveAdded(x: Exec, x': Exec, p: TaskId, k: nat, kids: seq<Task>)
    requires p < |x.sys.rows|
  {
    && x'.sys.rows == Fork(x.sys.rows, p, kids, WaveOf(k))
    && x'.waves == x.waves + [Wave(k, Span(|x.sys.rows|, |kids|))]
    && x' == x.(sys := x'.sys, waves := x'.waves, log := x'.log)
    && CallsAdded(x, x', p, k + 1)
  }

  /** What an advance leaves when it completes the root. */
  ghost predicate Completed(x: Exec, x': Exec, p: TaskId, n: nat, value: Option<Payload>)
    requires p < |x.sys.rows|
  {
    && x'.sys.rows == x.sys.rows[p := ToDone(x.sys.rows[p].(phase := n), value)]
    && x'.waves == x.waves
    && x' == x.(sys := x'.sys, waves := x'.waves, log := x'.log)
    && CallsAdded(x, x', p, n)
  }

  /** The root waits for the last wave, and all of it has settled. */
  ghost predicate Ready(x: Exec, p: TaskId, n: nat) {
    ExecInv(x, p, n) && x.open && x.sys.rows[p].state.Waiting? && KidsSettled(x.sys.rows, p)
  }

  lemma WaveAddedInv(x: Exec, x': Exec, p: TaskId, n: nat, k: nat, kids: seq<Task>)
    requires Ready(x, p, n) && Shaped(x'.sys) && ResultsKept(x.sys.rows, x'.sys.rows)
    requires WaveAdded(x, x', p, k, kids) && kids != [] && FreshKids(kids, p) && |x.log| <= k < n
    ensures ExecInv(x', p, n)
  {
    ForkFrame(x.sys.rows, p, kids, WaveOf(k));
    WavesExtended(x, x', p, k, |kids|);
    AdvanceCalls(x, x', p, n, k + 1);
  }

  lemma CompletedInv(x: Exec, x': Exec, p: TaskId, n: nat, value: Option<Payload>)
    requires Ready(x, p, n) && Shaped(x'.sys) && ResultsKept(x.sys.rows, x'.sys.rows)
    requires Completed(x, x', p, n, value)
    ensures ExecInv(x', p, n)
  {
    assert x.adopted + {} == x.adopted;
    QuietPartition(x, x', p, {});
    AdvanceCalls(x, x', p, n, n);
  }

  /** The calls an advance adds were all given the last wave's settled results. */
  lemma AdvanceCalls(x: Exec, x': Exec, p: TaskId, n: nat, end: nat)
    requires Ready(x, p, n) && ResultsKept(x.sys.rows, x'.sys.rows) && CallsAdded(x, x', p, end)
    requires x.waves <= x'.waves
    requires forall w :: |x.waves| <= w < |x'.waves| ==> |x.log| <= x'.waves[w].phase && end <= x'.waves[w].phase + 1
    ensures forall i :: 0 <= i < |x'.log| ==> CallOk(x', i)
  {
    var rows := x.sys.rows;
    var m := |x.waves|;
    var ids := rows[p].wave;
    WavesCovered(x, p);
    assert ids == x.waves[m - 1].ids;
    var prev := Some(Results(rows, ids));
    assert prev == Some(Read(rows, ids));
    forall k | 0 <= k < |ids|
      ensures rows[ids[k]].state.Done? || rows[ids[k]].state.Cancelled?
      ensures ids[k] < |x'.sys.rows| && ResultOf(x'.sys.rows, ids[k]) == ResultOf(rows, ids[k])
    {
      assert ids[k] in x.waves[m - 1].ids;
      assert InWaves(x.waves, ids[k]) && ChildOf(rows, ids[k], p);
    }
    assert Results(x'.sys.rows, ids) == Results(rows, ids);
    forall i | 0 <= i < |x'.log| ensures CallOk(x', i) {
      if i < |x.log| {
        CallsKept(x, x', i);
      } else {
        assert x'.log[i] == Call(i, prev);
        assert GivenBy(x', i, prev.value, m - 1);
      }
    }
  }

  lemma AdvancedByWave(x: Exec, p: TaskId, e: Event)
    requires Shaped(x.sys) && p < |x.sys.rows| && e.Advance?
    requires HookRuns(x.sys.rows, e.busy, p)
    requires FirstWave(e.plans, x.sys.rows[p].phase + 1).WaveAt?
    ensures var x', k := Advanced(x, p, e), FirstWave(e.plans, x.sys.rows[p].phase + 1).phase;
            && x' == x.(sys := Apply(x.sys, AdvanceStep(x, p, e)), waves := x'.waves, log := x'.log)
            && x'.waves == x.waves + [Wave(k, Span(|x.sys.rows|, |e.plans[k].kids|))]
            && CallsAdded(x, x', p, k + 1)
  {
  }

  /** The advance spawns a wave. */
  lemma AdvanceWave(x: Exec, p: TaskId, n: nat, e: Event)
    requires ExecInv(x, p, n) && e.Advance? && PlansFit(e.plans, n, p)
    requires HookRuns(x.sys.rows, e.busy, p)
    requires FirstWave(e.plans, x.sys.rows[p].phase + 1).WaveAt?
    ensures var k := FirstWave(e.plans, x.sys.rows[p].phase + 1).phase;
            && Shaped(Advanced(x, p, e).sys)
            && WaveAdded(x, Advanced(x, p, e), p, k, e.plans[k].kids)
            && ResultsKept(x.sys.rows, Advanced(x, p, e).sys.rows)
  {
    AdvancedByWave(x, p, e);
    AdvanceChecks(x, p, n, e);
    HookIsStartWave(x.sys.rows, e.busy, p, e.plans, n, e.agg, e.reason);
  }

  lemma AdvancedByEnd(x: Exec, p: TaskId, e: Event)
    requires Shaped(x.sys) && p < |x.sys.rows| && e.Advance? && x.sys.rows[p].phase < |e.plans|
    requires HookRuns(x.sys.rows, e.busy, p)
    requires FirstWave(e.plans, x.sys.rows[p].phase + 1).NoMore? && e.agg.Value?
    ensures var x' := Advanced(x, p, e);
            && x' == x.(sys := Apply(x.sys, AdvanceStep(x, p, e)), log := x'.log)
            && CallsAdded(x, x', p, |e.plans|)
  {
  }

  /** No phase is left: the root completes at phase n. */
  lemma AdvanceEnd(x: Exec, p: TaskId, n: nat, e: Event)
    requires ExecInv(x, p, n) && e.Advance? && PlansFit(e.plans, n, p)
    requires HookRuns(x.sys.rows, e.busy, p)
    requires FirstWave(e.plans, x.sys.rows[p].phase + 1).NoMore? && e.agg.Value?
    ensures Shaped(Advanced(x, p, e).sys)
    ensures Completed(x, Advanced(x, p, e), p, n, e.agg.value)
    ensures ResultsKept(x.sys.rows, Advanced(x, p, e).sys.rows)
  {
    AdvancedByEnd(x, p, e);
    AdvanceChecks(x, p, n, e);
    HookIsStartWave(x.sys.rows, e.busy, p, e.plans, n, e.agg, e.reason);
  }

  lemma ReadyWhenHookRuns(x: Exec, p: TaskId, n: nat, busy: set<TaskId>)
    requires ExecInv(x, p, n) && HookRuns(x.sys.rows, busy, p)
    ensures Ready(x, p, n)
  {
  }

  ghost predicate Idle(x: Exec, p: TaskId, e: Event)
    requires p < |x.sys.rows| && e.Advance?
  {
    || !HookRuns(x.sys.rows, e.busy, p)
    || FirstWave(e.plans, x.sys.rows[p].phase + 1).RaisedAt?
    || (FirstWave(e.plans, x.sys.rows[p].phase + 1).NoMore? && e.agg.AggregateRaises?)
  }

  /** The check leaves the table alone or fails the root. */
  lemma IdleRows(x: Exec, p: TaskId, n: nat, e: Event)
    requires ExecInv(x, p, n) && e.Advance? && PlansFit(e.plans, n, p) && Idle(x, p, e) && |x.waves| > 0
    ensures var rows, step := x.sys.rows, AdvanceStep(x, p, e);
            var rows' := Check(rows, e.busy, p, step.hook, e.reason);
            rows' == rows || (rows[p].state.Waiting? && rows' == rows[p := ToFailed(rows[p], e.reason)])
  {
    var rows, step := x.sys.rows, AdvanceStep(x, p, e);
    WaveHasKid(x, p);
    if HookRuns(rows, e.busy, p) {
      RaisingHookInert(rows, e.busy, p, step.hook, e.reason);
      HookReached(rows, p);
    } else {
      HookSkipped(rows, e.busy, p, step.hook, e.reason);
    }
  }

  lemma AdvancedIdly(x: Exec, p: TaskId, e: Event)
    requires Shaped(x.sys) && p < |x.sys.rows| && e.Advance? && Idle(x, p, e)
    ensures Advanced(x, p, e) == x.(sys := Apply(x.sys, AdvanceStep(x, p, e)))
  {
  }

  /** The hook did not run, or raised. */
  lemma AdvanceInert(x: Exec, p: TaskId, n: nat, e: Event)
    requires ExecInv(x, p, n) && e.Advance? && PlansFit(e.plans, n, p) && Idle(x, p, e)
    ensures ExecInv(Advanced(x, p, e), p, n)
    ensures Advanced(x, p, e).waves == x.waves && Advanced(x, p, e).log == x.log
  {
    var rows, step := x.sys.rows, AdvanceStep(x, p, e);
    var x' := x.(sys := Apply(x.sys, step));
    AdvancedIdly(x, p, e);
    AdvanceChecks(x, p, n, e);
    if |x.waves| > 0 {
      IdleRows(x, p, n, e);
      assert forall c :: ChildOf(x'.sys.rows, c, p) <==> ChildOf(rows, c, p);
    } else {
      assert !rows[p].state.Waiting?;
      assert x'.sys.rows == rows;
    }
    assert x.adopted + {} == x.adopted;
    QuietInv(x, x', p, n, {});
  }

  /** The hook ran and its outcome counts. */
  lemma AdvanceMoves(x: Exec, p: TaskId, n: nat, e: Event)
    requires ExecInv(x, p, n) && e.Advance? && PlansFit(e.plans, n, p) && !Idle(x, p, e)
    ensures ExecInv(Advanced(x, p, e), p, n)
  {
    ReadyWhenHookRuns(x, p, n, e.busy);
    var found := FirstWave(e.plans, x.sys.rows[p].phase + 1);
    if found.WaveAt? {
      AdvanceWave(x, p, n, e);
      WaveAddedInv(x, Advanced(x, p, e), p, n, found.phase, e.plans[found.phase].kids);
    } else {
      AdvanceEnd(x, p, n, e);
      CompletedInv(x, Advanced(x, p, e), p, n, e.agg.value);
    }
  }

  // ---- late execute() -----------------------------------------------------------------

  /** The calls of a late execute() repeat phase 0. */
  lemma LateCallsRepeat(x: Exec, p: TaskId, n: nat, plans: seq<Plan>, runner: RunnerId)
    requires ExecInv(x, p, n) && PlansFit(plans, n, p) && !Timely(x, p, Execute(plans, runner))
    ensures var x' := Executed(x, p, plans, runner);
            && 0 < |x.log| < |x'.log|
            && x'.log[0].phase == 0 && x'.log[|x.log|] == Call(0, None)
  {
    assert CallOk(x, 0) by {
      if |x.waves| > 0 { WaveCalled(x, p); }
    }
  }

  lemma WaveCalled(x: Exec, p: TaskId)
    requires PhasesRise(x) && |x.waves| > 0
    ensures |x.log| > 0
  {
    assert x.waves[0].phase < |x.log|;
  }

  /** An execute() that commits without beginning an execution, when none is open or
      there are no phases, only writes the phase. */
  lemma PhaseOnlyInv(x: Exec, p: TaskId, n: nat, plans: seq<Plan>, runner: RunnerId)
    requires ExecInv(x, p, n) && PlansFit(plans, n, p) && Timely(x, p, Execute(plans, runner))
    requires Commits(x.sys.rows[p], plans) && !Opens(x.sys.rows[p], plans)
    ensures ExecInv(Executed(x, p, plans, runner), p, n)
  {
    var x' := Executed(x, p, plans, runner);
    EmptyExecute(x.sys, p, plans, runner);
    assert x'.sys.rows == x.sys.rows[p := x.sys.rows[p].(phase := n)];
    assert x.open ==> n == 0 && NewCalls(plans) == [] && x.log + [] == x.log && x.waves + [] == x.waves;
    if x.open && |x.waves| > 0 {
      WaveCalled(x, p);
      assert false;
    }
    assert x.adopted + {} == x.adopted;
    QuietInv(x, x', p, n, {});
  }

  /** The invariant survives an execute() exactly when it does not come late. */
  lemma ExecuteInvIff(x: Exec, p: TaskId, n: nat, plans: seq<Plan>, runner: RunnerId)
    requires ExecInv(x, p, n) && PlansFit(plans, n, p)
    ensures ExecInv(Executed(x, p, plans, runner), p, n) <==> Timely(x, p, Execute(plans, runner))
  {
    if !Timely(x, p, Execute(plans, runner)) {
      LateCallsRepeat(x, p, n, plans, runner);
      assert !CallOk(Executed(x, p, plans, runner), |x.log|);
    } else if Opens(x.sys.rows[p], plans) {
      StartOk(x, p, n, plans, runner);
    } else if Commits(x.sys.rows[p], plans) {
      PhaseOnlyInv(x, p, n, plans, runner);
    }
  }

  /** So it survives any event exactly when the event is no late execute(). */
  lemma NextInv(x: Exec, p: TaskId, n: nat, e: Event)
    requires ExecInv(x, p, n) && Typed(e, p, n)
    ensures ExecInv(Next(x, p, e), p, n) <==> Timely(x, p, e)
  {
    match e
    case Foreign(step) => ForeignInv(x, p, n, step);
    case Execute(plans, runner) => ExecuteInvIff(x, p, n, plans, runner);
    case Advance(plans, agg, busy, reason) =>
      if Idle(x, p, e) { AdvanceInert(x, p, n, e); } else { AdvanceMoves(x, p, n, e); }
  }

  /** Termination measure: an advance that spawns a wave brings the phase strictly
      closer to n; one that completes the root leaves it at n. */
  lemma AdvanceDecreases(x: Exec, p: TaskId, n: nat, e: Event)
    requires ExecInv(x, p, n) && e.Advance? && PlansFit(e.plans, n, p)
    ensures var x' := Next(x, p, e);
            && p < |x'.sys.rows|
            && (|x'.waves| > |x.waves| ==> 0 < n - x'.sys.rows[p].phase < n - x.sys.rows[p].phase)
            && (x.sys.rows[p].state.Waiting? && x'.sys.rows[p].state.Done? ==> x'.sys.rows[p].phase == n)
  {
    if Idle(x, p, e) {
      AdvanceInert(x, p, n, e);
      if |x.waves| > 0 { IdleRows(x, p, n, e); }
    } else {
      AdvanceMoves(x, p, n, e);
      if FirstWave(e.plans, x.sys.rows[p].phase + 1).WaveAt? {
        AdvanceWave(x, p, n, e);
      } else {
        AdvanceEnd(x, p, n, e);
      }
    }
  }
}
