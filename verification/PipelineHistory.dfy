/** The whole life of a pipeline root: any number of executions, while every other
    transaction of the queue, and late threads of the root itself, go on around it. */
module PipelineHistory {
  import opened Optional
  import opened TaskModel
  import opened WaitingParent
  import opened Protocol
  import opened Completion
  import opened Pipeline

  // ---- histories -------------------------------------------------------------------

  lemma NextShaped(x: Exec, p: TaskId, e: Event)
    requires Shaped(x.sys) && p < |x.sys.rows|
    ensures Shaped(Next(x, p, e).sys) && |x.sys.rows| <= |Next(x, p, e).sys.rows|
  {
    match e
    case Foreign(step) => StepShape(x.sys, step);
    case Execute(plans, runner) =>
    case Advance(plans, agg, busy, reason) => StepShape(x.sys, AdvanceStep(x, p, e));
  }

  /** A task of a type with n phases, not yet executed: freshly created, say. */
  ghost predicate Begins(s: Sys, p: TaskId) {
    Shaped(s) && p < |s.rows| && !s.rows[p].state.Waiting? && !s.rows[p].state.Done?
  }

  ghost predicate TypedAll(events: seq<Event>, p: TaskId, n: nat) {
    forall k :: 0 <= k < |events| ==> Typed(events[k], p, n)
  }

  /** Where root p stands after the events. */
  ghost function Lives(s: Sys, p: TaskId, n: nat, events: seq<Event>): (x: Exec)
    requires Begins(s, p) && TypedAll(events, p, n)
    ensures Shaped(x.sys) && p < |x.sys.rows|
    decreases |events|
  {
    if events == [] then Vacant(s)
    else
      var before := Lives(s, p, n, events[..|events| - 1]);
      NextShaped(before, p, events[|events| - 1]);
      Next(before, p, events[|events| - 1])
  }

  /** At no point of the history does an execute() of the root come late. */
  ghost predicate AllTimely(s: Sys, p: TaskId, n: nat, events: seq<Event>)
    requires Begins(s, p) && TypedAll(events, p, n)
    decreases |events|
  {
    events == []
    || (AllTimely(s, p, n, events[..|events| - 1])
        && Timely(Lives(s, p, n, events[..|events| - 1]), p, events[|events| - 1]))
  }

  lemma {:induction false} LivesInv(s: Sys, p: TaskId, n: nat, events: seq<Event>)
    requires Begins(s, p) && TypedAll(events, p, n) && AllTimely(s, p, n, events)
    ensures ExecInv(Lives(s, p, n, events), p, n)
    decreases |events|
  {
    if events == [] {
      VacantOk(s, p, n);
    } else {
      LivesInv(s, p, n, events[..|events| - 1]);
      NextInv(Lives(s, p, n, events[..|events| - 1]), p, n, events[|events| - 1]);
    }
  }

  // ---- what holds in every life ------------------------------------------------------

  /** The waves and the adopted ones partition the root's children, and it waits only
      with an execution open and for the wave spawned last. */
  ghost predicate Kept(x: Exec, p: TaskId) {
    && Shaped(x.sys) && p < |x.sys.rows|
    && Partitioned(x, p)
    && (x.sys.rows[p].state.Waiting? ==>
          x.open && |x.waves| > 0 && x.sys.rows[p].wave == x.waves[|x.waves| - 1].ids)
  }

  lemma BystoodKept(x: Exec, p: TaskId, step: Step)
    requires Kept(x, p) && !OwnCode(step, p)
    ensures Kept(Bystood(x, p, step), p)
  {
    ForeignFrame(x.sys, step, p);
    MovedKept(x, Apply(x.sys, step), p, NewlyAdopted(x.sys, step, p));
  }

  lemma MovedKept(x: Exec, s': Sys, p: TaskId, extra: set<int>)
    requires Kept(x, p) && Shaped(s') && |x.sys.rows| <= |s'.rows| && RootKept(x.sys.rows[p], s'.rows[p])
    requires forall c :: c in extra ==> c >= |x.sys.rows|
    requires forall c :: ChildOf(s'.rows, c, p) <==> ChildOf(x.sys.rows, c, p) || c in extra
    ensures Kept(if Requeued(x.sys, s', p) then Vacant(s') else x.(sys := s', adopted := x.adopted + extra), p)
  {
    if !Requeued(x.sys, s', p) {
      QuietPartition(x, x.(sys := s', adopted := x.adopted + extra), p, extra);
    }
  }

  lemma ForkedWave(rows: Table, p: TaskId, kids: seq<Task>, k: nat)
    requires p < |rows| && FreshKids(kids, p) && kids != []
    ensures var rows' := Fork(rows, p, kids, WaveOf(k));
            Spawned(rows, rows', p, |kids|) && rows'[p].wave == Span(|rows|, |kids|)
  {
    ForkFrame(rows, p, kids, WaveOf(k));
  }

  /** A wave forked from a running or waiting root. */
  lemma ForkSpawns(s: Sys, p: TaskId, n: nat, plans: seq<Plan>, runner: RunnerId)
    requires Shaped(s) && p < |s.rows| && PlansFit(plans, n, p)
    requires FirstWave(plans, 0).WaveAt? && Commits(s.rows[p], plans)
    ensures var rows', k := ExecuteSteps(s, p, plans, runner).rows, FirstWave(plans, 0).phase;
            && rows' == Fork(s.rows, p, plans[k].kids, WaveOf(k))
            && Spawned(s.rows, rows', p, |plans[k].kids|) && rows'[p].wave == Span(|s.rows|, |plans[k].kids|)
  {
    var k := FirstWave(plans, 0).phase;
    ForkedWave(s.rows, p, plans[k].kids, k);
  }

  /** A step that adds no row and starts no waiting. */
  lemma QuietKept(x: Exec, x': Exec, p: TaskId)
    requires Kept(x, p) && x' == x.(sys := x'.sys, log := x'.log) && Shaped(x'.sys)
    requires Spawned(x.sys.rows, x'.sys.rows, p, 0) && x'.sys.rows[p].wave == x.sys.rows[p].wave
    requires x'.sys.rows[p].state.Waiting? ==> x.sys.rows[p].state.Waiting?
    ensures Kept(x', p)
  {
    assert x.adopted + {} == x.adopted;
    QuietPartition(x, x', p, {});
  }

  lemma EmptyKept(x: Exec, p: TaskId, n: nat, plans: seq<Plan>, runner: RunnerId)
    requires Kept(x, p) && PlansFit(plans, n, p) && FirstWave(plans, 0).NoMore?
    ensures Kept(Executed(x, p, plans, runner), p)
  {
    EmptyExecute(x.sys, p, plans, runner);
    if !Opens(x.sys.rows[p], plans) {
      assert x.waves + [] == x.waves;
      QuietKept(x, Executed(x, p, plans, runner), p);
    }
  }

  lemma ExecutedKept(x: Exec, p: TaskId, n: nat, plans: seq<Plan>, runner: RunnerId)
    requires Kept(x, p) && PlansFit(plans, n, p)
    ensures Kept(Executed(x, p, plans, runner), p)
  {
    var t, x', found := x.sys.rows[p], Executed(x, p, plans, runner), FirstWave(plans, 0);
    if Commits(t, plans) {
      if found.WaveAt? {
        ForkSpawns(x.sys, p, n, plans, runner);
        if Opens(t, plans) {
          WavesBegun(x.sys.rows, x', p, found.phase, |plans[found.phase].kids|);
        } else {
          WavesExtended(x, x', p, found.phase, |plans[found.phase].kids|);
        }
      } else {
        EmptyKept(x, p, n, plans, runner);
      }
    }
  }

  /** A hook with no wave left to spawn writes the root's row only. */
  lemma HookEnds(rows: Table, busy: set<TaskId>, p: TaskId, plans: seq<Plan>, n: nat, agg: Aggregate, reason: Payload)
    requires p < |rows| && PlansFit(plans, n, p) && HookRuns(rows, busy, p)
    requires !FirstWave(plans, rows[p].phase + 1).WaveAt?
    ensures var rows' := Check(rows, busy, p, PipelineHook(plans, rows[p].phase, agg), reason);
            && |rows'| == |rows| && rows'[p].wave == rows[p].wave
            && forall c :: 0 <= c < |rows| ==> rows'[c].parent == rows[c].parent
  {
    var hook, found := PipelineHook(plans, rows[p].phase, agg), FirstWave(plans, rows[p].phase + 1);
    if found.NoMore? && agg.Value? {
      HookIsStartWave(rows, busy, p, plans, n, agg, reason);
    } else {
      RaisingHookInert(rows, busy, p, hook, reason);
      HookReached(rows, p);
    }
  }

  /** What a check does to the root's children: nothing, or a wave more. */
  ghost predicate CheckSpawned(rows: Table, rows': Table, busy: set<TaskId>, p: TaskId, plans: seq<Plan>) {
    && p < |rows| && p < |rows'|
    && (rows'[p].state.Waiting? ==> rows[p].state.Waiting?)
    && var found := FirstWave(plans, rows[p].phase + 1);
       var m := if HookRuns(rows, busy, p) && found.WaveAt? then |plans[found.phase].kids| else 0;
       Spawned(rows, rows', p, m) && rows'[p].wave == if m > 0 then Span(|rows|, m) else rows[p].wave
  }

  lemma HookSpawns(rows: Table, busy: set<TaskId>, p: TaskId, plans: seq<Plan>, n: nat, agg: Aggregate, reason: Payload)
    requires p < |rows| && PlansFit(plans, n, p) && (rows[p].state.Waiting? ==> SomeKid(rows, p))
    ensures CheckSpawned(rows, Check(rows, busy, p, PipelineHook(plans, rows[p].phase, agg), reason), busy, p, plans)
  {
    var hook, found := PipelineHook(plans, rows[p].phase, agg), FirstWave(plans, rows[p].phase + 1);
    if HookRuns(rows, busy, p) {
      if found.WaveAt? {
        HookIsStartWave(rows, busy, p, plans, n, agg, reason);
        ForkedWave(rows, p, plans[found.phase].kids, found.phase);
      } else {
        HookEnds(rows, busy, p, plans, n, agg, reason);
      }
    } else if rows[p].state.Waiting? {
      HookSkipped(rows, busy, p, hook, reason);
    }
  }

  lemma AdvanceSpawns(x: Exec, p: TaskId, n: nat, e: Event)
    requires Kept(x, p) && e.Advance? && PlansFit(e.plans, n, p)
    ensures CheckSpawned(x.sys.rows, Apply(x.sys, AdvanceStep(x, p, e)).rows, e.busy, p, e.plans)
  {
    if x.sys.rows[p].state.Waiting? { WaveHasKid(x, p); }
    AdvanceChecks(x, p, n, e);
    HookSpawns(x.sys.rows, e.busy, p, e.plans, n, e.agg, e.reason);
  }

  /** The wave an advance adds, if any. */
  lemma AdvancedWaves(x: Exec, p: TaskId, e: Event)
    requires Shaped(x.sys) && p < |x.sys.rows| && e.Advance?
    ensures var x', found := Advanced(x, p, e), FirstWave(e.plans, x.sys.rows[p].phase + 1);
            && x' == x.(sys := Apply(x.sys, AdvanceStep(x, p, e)), waves := x'.waves, log := x'.log)
            && x'.waves == if HookRuns(x.sys.rows, e.busy, p) && found.WaveAt?
                           then x.waves + [Wave(found.phase, Span(|x.sys.rows|, |e.plans[found.phase].kids|))]
                           else x.waves
  {
  }

  lemma AdvancedKept(x: Exec, p: TaskId, n: nat, e: Event)
    requires Kept(x, p) && e.Advance? && PlansFit(e.plans, n, p)
    ensures Kept(Advanced(x, p, e), p)
  {
    var x', found := Advanced(x, p, e), FirstWave(e.plans, x.sys.rows[p].phase + 1);
    NextShaped(x, p, e);
    AdvanceSpawns(x, p, n, e);
    AdvancedWaves(x, p, e);
    if HookRuns(x.sys.rows, e.busy, p) && found.WaveAt? {
      WavesExtended(x, x', p, found.phase, |e.plans[found.phase].kids|);
    } else {
      QuietKept(x, x', p);
    }
  }

  lemma NextKept(x: Exec, p: TaskId, n: nat, e: Event)
    requires Kept(x, p) && Typed(e, p, n)
    ensures Kept(Next(x, p, e), p)
  {
    match e
    case Foreign(step) => BystoodKept(x, p, step);
    case Execute(plans, runner) => ExecutedKept(x, p, n, plans, runner);
    case Advance(plans, agg, busy, reason) => AdvancedKept(x, p, n, e);
  }

  lemma {:induction false} LivesKept(s: Sys, p: TaskId, n: nat, events: seq<Event>)
    requires Begins(s, p) && TypedAll(events, p, n)
    ensures Kept(Lives(s, p, n, events), p)
    decreases |events|
  {
    if events != [] {
      LivesKept(s, p, n, events[..|events| - 1]);
      NextKept(Lives(s, p, n, events[..|events| - 1]), p, n, events[|events| - 1]);
    }
  }

  /** The call was given the results of the wave spawned last, all of them settled. */
  ghost predicate SawLast(x: Exec, call: Call) {
    && |x.waves| > 0 && RowsCover(x)
    && var ids := x.waves[|x.waves| - 1].ids;
       && call.prev == Some(Results(x.sys.rows, ids))
       && forall c :: c in ids ==> x.sys.rows[c].state.Done? || x.sys.rows[c].state.Cancelled?
  }

  /** The calls an advance adds were given what the row's child ids report. */
  lemma AdvancedCalls(x: Exec, p: TaskId, e: Event)
    requires Shaped(x.sys) && p < |x.sys.rows| && e.Advance?
    ensures var x' := Advanced(x, p, e);
            && x.log <= x'.log
            && (|x'.log| > |x.log| ==> HookRuns(x.sys.rows, e.busy, p))
            && forall i :: |x.log| <= i < |x'.log| ==> x'.log[i].prev == Some(Read(x.sys.rows, x.sys.rows[p].wave))
  {
  }

  lemma LastWaveSettled(x: Exec, p: TaskId, busy: set<TaskId>, call: Call)
    requires Kept(x, p) && HookRuns(x.sys.rows, busy, p)
    requires call.prev == Some(Read(x.sys.rows, x.sys.rows[p].wave))
    ensures SawLast(x, call)
  {
    var ids := x.sys.rows[p].wave;
    WavesCovered(x, p);
    assert ids == x.waves[|x.waves| - 1].ids;
    forall c | c in ids ensures x.sys.rows[c].state.Done? || x.sys.rows[c].state.Cancelled? {
      assert InWaves(x.waves, c) && ChildOf(x.sys.rows, c, p);
    }
  }

  /** The children the root got since its execution began are the members of the
      waves, each in one wave only, and those created under it by hand, late execute()
      or not. */
  lemma WavesPartition(s: Sys, p: TaskId, n: nat, events: seq<Event>)
    requires Begins(s, p) && TypedAll(events, p, n)
    ensures var x := Lives(s, p, n, events);
            && (forall c :: ChildOf(x.sys.rows, c, p) && c >= x.base <==> InWaves(x.waves, c) || c in x.adopted)
            && (forall c :: c in x.adopted ==> !InWaves(x.waves, c))
            && (forall v, w :: 0 <= v < w < |x.waves| ==> Apart(x.waves[v], x.waves[w]))
  {
    LivesKept(s, p, n, events);
    var x := Lives(s, p, n, events);
    forall v, w | 0 <= v < w < |x.waves| ensures Apart(x.waves[v], x.waves[w]) {
      var size := |x.sys.rows|;
      assert Older(x.waves[v], x.waves[w]) && WaveOk(x.waves[v], size) && WaveOk(x.waves[w], size);
      forall c | c in x.waves[v].ids ensures c !in x.waves[w].ids {
        SpanHas(x.waves[v].ids[0], |x.waves[v].ids|, c);
        SpanHas(x.waves[w].ids[0], |x.waves[w].ids|, c);
      }
    }
  }

  /** The two waves have no member in common. */
  ghost predicate Apart(v: Wave, w: Wave) {
    forall c :: c in v.ids ==> c !in w.ids
  }

  /** Event k is an accepted creation that names the root and appends row c. */
  ghost predicate AdoptedAt(s: Sys, p: TaskId, n: nat, events: seq<Event>, k: nat, c: int)
    requires Begins(s, p) && TypedAll(events, p, n) && k < |events|
  {
    var x, e := Lives(s, p, n, events[..k]), events[k];
    && e.Foreign? && e.step.Create? && e.step.task.parent == Some(p) && Enabled(x.sys, e.step)
    && c == |x.sys.rows| && Apply(x.sys, e.step).rows == x.sys.rows + [e.step.task]
  }

  /** The adopted children are exactly the rows that accepted creations naming the root
      appended since its execution began, late execute() or not. */
  lemma {:induction false} AdoptedMeans(s: Sys, p: TaskId, n: nat, events: seq<Event>, c: int)
    requires Begins(s, p) && TypedAll(events, p, n)
    ensures var x := Lives(s, p, n, events);
            c in x.adopted <==> c >= x.base && exists k :: 0 <= k < |events| && AdoptedAt(s, p, n, events, k, c)
    decreases |events|
  {
    if events != [] {
      var before := events[..|events| - 1];
      AdoptedMeans(s, p, n, before, c);
      LivesKept(s, p, n, before);
      NextAdopted(Lives(s, p, n, before), p, n, events[|events| - 1], c);
      OneMoreAdopted(s, p, n, events, c);
    }
  }

  ghost predicate EverAdopted(s: Sys, p: TaskId, n: nat, events: seq<Event>, c: int)
    requires Begins(s, p) && TypedAll(events, p, n)
  {
    exists k :: 0 <= k < |events| && AdoptedAt(s, p, n, events, k, c)
  }

  /** The event creates row c under the root by hand. */
  ghost predicate Creates(x: Exec, p: TaskId, e: Event, c: int)
    requires Shaped(x.sys)
  {
    e.Foreign? && c in NewlyAdopted(x.sys, e.step, p)
  }

  lemma SameAdopted(s: Sys, p: TaskId, n: nat, events: seq<Event>, k: nat, c: int)
    requires Begins(s, p) && TypedAll(events, p, n) && k < |events| - 1
    ensures TypedAll(events[..|events| - 1], p, n)
    ensures AdoptedAt(s, p, n, events[..|events| - 1], k, c) == AdoptedAt(s, p, n, events, k, c)
  {
    assert events[..|events| - 1][..k] == events[..k];
  }

  lemma LastAdopted(s: Sys, p: TaskId, n: nat, events: seq<Event>, c: int)
    requires Begins(s, p) && TypedAll(events, p, n) && events != []
    ensures AdoptedAt(s, p, n, events, |events| - 1, c)
            <==> Creates(Lives(s, p, n, events[..|events| - 1]), p, events[|events| - 1], c)
  {
  }

  ghost function Flags(s: Sys, p: TaskId, n: nat, events: seq<Event>, c: int): (r: seq<bool>)
    requires Begins(s, p) && TypedAll(events, p, n)
    ensures |r| == |events| && forall k :: 0 <= k < |events| ==> r[k] == AdoptedAt(s, p, n, events, k, c)
  {
    seq(|events|, k requires 0 <= k < |events| => AdoptedAt(s, p, n, events, k, c))
  }

  predicate Any(flags: seq<bool>) {
    exists k :: 0 <= k < |flags| && flags[k]
  }

  lemma AnyMore(a: seq<bool>, b: seq<bool>)
    requires |b| == |a| + 1 && forall k :: 0 <= k < |a| ==> a[k] == b[k]
    ensures Any(b) <==> Any(a) || b[|a|]
  {
    if k :| 0 <= k < |a| && a[k] { assert b[k]; }
  }

  lemma EverIsAny(s: Sys, p: TaskId, n: nat, events: seq<Event>, c: int)
    requires Begins(s, p) && TypedAll(events, p, n)
    ensures EverAdopted(s, p, n, events, c) == Any(Flags(s, p, n, events, c))
  {
    var flags := Flags(s, p, n, events, c);
    if k :| 0 <= k < |events| && AdoptedAt(s, p, n, events, k, c) { assert flags[k]; }
    if k :| 0 <= k < |flags| && flags[k] { assert AdoptedAt(s, p, n, events, k, c); }
  }

  lemma OneMoreAdopted(s: Sys, p: TaskId, n: nat, events: seq<Event>, c: int)
    requires Begins(s, p) && TypedAll(events, p, n) && events != []
    ensures var before := events[..|events| - 1];
            EverAdopted(s, p, n, events, c)
            <==> EverAdopted(s, p, n, before, c) || Creates(Lives(s, p, n, before), p, events[|events| - 1], c)
  {
    var before := events[..|events| - 1];
    var a, b := Flags(s, p, n, before, c), Flags(s, p, n, events, c);
    forall k | 0 <= k < |a| ensures a[k] == b[k] { SameAdopted(s, p, n, events, k, c); }
    EverIsAny(s, p, n, events, c);
    EverIsAny(s, p, n, before, c);
    AnyMore(a, b);
    LastAdopted(s, p, n, events, c);
  }

  lemma AdoptedBounds(x: Exec, p: TaskId, c: int)
    requires Kept(x, p) && c in x.adopted
    ensures x.base <= c < |x.sys.rows|
  {
    assert ChildOf(x.sys.rows, c, p) && c >= x.base;
  }

  lemma CreateKeepsOpen(s: Sys, step: Step, p: TaskId)
    requires Shaped(s) && Enabled(s, step) && Adopts(step, p)
    ensures !Requeued(s, Apply(s, step), p)
  {
  }

  lemma NextAdopted(x: Exec, p: TaskId, n: nat, e: Event, c: int)
    requires Kept(x, p) && Typed(e, p, n)
    ensures var x' := Next(x, p, e);
            && x.base <= x'.base
            && (c in x'.adopted <==> c >= x'.base && (c in x.adopted || Creates(x, p, e, c)))
  {
    if c in x.adopted { AdoptedBounds(x, p, c); }
    match e
    case Foreign(step) =>
      StepShape(x.sys, step);
      if Enabled(x.sys, step) && Adopts(step, p) { CreateKeepsOpen(x.sys, step, p); }
    case Execute(plans, runner) =>
    case Advance(plans, agg, busy, reason) => AdvancedWaves(x, p, e);
  }

  // ---- what the results handed on are --------------------------------------------------

  /** The root's own code leaves every other stored row as it is. */
  lemma OwnCodeFrame(x: Exec, p: TaskId, n: nat, e: Event, c: TaskId)
    requires Kept(x, p) && Typed(e, p, n) && !e.Foreign? && c != p
    ensures var rows, rows' := x.sys.rows, Next(x, p, e).sys.rows;
            && |rows| <= |rows'|
            && (c < |rows| ==> rows'[c] == rows[c])
            && (|rows| <= c < |rows'| ==> FreshRow(rows'[c]))
  {
    match e
    case Execute(plans, runner) => ExecuteFrame(x, p, n, plans, runner, c);
    case Advance(plans, agg, busy, reason) =>
      AdvanceChecks(x, p, n, e);
      AdvancedWaves(x, p, e);
      CheckFrame(x.sys.rows, busy, p, PipelineHook(plans, x.sys.rows[p].phase, agg), reason);
  }

  lemma ExecuteFrame(x: Exec, p: TaskId, n: nat, plans: seq<Plan>, runner: RunnerId, c: TaskId)
    requires Kept(x, p) && PlansFit(plans, n, p) && c != p
    ensures var rows, rows' := x.sys.rows, Executed(x, p, plans, runner).sys.rows;
            && |rows| <= |rows'|
            && (c < |rows| ==> rows'[c] == rows[c])
            && (|rows| <= c < |rows'| ==> FreshRow(rows'[c]))
  {
    var found := FirstWave(plans, 0);
    if Commits(x.sys.rows[p], plans) {
      if found.WaveAt? {
        ForkSpawns(x.sys, p, n, plans, runner);
        ForkFrame(x.sys.rows, p, plans[found.phase].kids, WaveOf(found.phase));
      } else {
        EmptyExecute(x.sys, p, plans, runner);
      }
    }
  }

  /** Event k takes row c to done, handing in this value. */
  ghost predicate MadeDoneAt(s: Sys, p: TaskId, n: nat, events: seq<Event>, k: nat, c: TaskId, value: Option<Payload>)
    requires Begins(s, p) && TypedAll(events, p, n) && k < |events|
  {
    events[k].Foreign? && Completes(Lives(s, p, n, events[..k]).sys, events[k].step, c, value)
  }

  /** What an event does to a row other than the root that is done after it. */
  lemma NextDone(x: Exec, p: TaskId, n: nat, e: Event, c: TaskId)
    requires Kept(x, p) && Typed(e, p, n) && c != p
    requires c < |Next(x, p, e).sys.rows| && Next(x, p, e).sys.rows[c].state.Done?
    ensures c < |x.sys.rows|
    ensures var value := Next(x, p, e).sys.rows[c].result;
            if x.sys.rows[c].state.Done? then value == x.sys.rows[c].result
            else e.Foreign? && Completes(x.sys, e.step, c, value)
  {
    if e.Foreign? {
      DoneBefore(x.sys, e.step, c);
      if !x.sys.rows[c].state.Done? { DoneHoldsValue(x.sys, e.step, c); }
    } else {
      OwnCodeFrame(x, p, n, e, c);
    }
  }

  /** A child created in the root's life and done by now holds the value handed in by
      the step of somebody else that completed it. */
  lemma {:induction false} ChildHoldsValue(s: Sys, p: TaskId, n: nat, events: seq<Event>, c: TaskId)
    requires Begins(s, p) && TypedAll(events, p, n) && c >= |s.rows|
    requires c < |Lives(s, p, n, events).sys.rows| && Lives(s, p, n, events).sys.rows[c].state.Done?
    ensures var value := Lives(s, p, n, events).sys.rows[c].result;
            exists k :: 0 <= k < |events| && MadeDoneAt(s, p, n, events, k, c, value)
    decreases |events|
  {
    if events != [] {
      var last := |events| - 1;
      var x, value := Lives(s, p, n, events[..last]), Lives(s, p, n, events).sys.rows[c].result;
      LivesKept(s, p, n, events[..last]);
      NextDone(x, p, n, events[last], c);
      if x.sys.rows[c].state.Done? {
        ChildHoldsValue(s, p, n, events[..last], c);
        var k :| 0 <= k < last && MadeDoneAt(s, p, n, events[..last], k, c, value);
        SamePrefix(s, p, n, events, k, c, value);
      } else {
        assert MadeDoneAt(s, p, n, events, last, c, value);
      }
    }
  }

  lemma SamePrefix(s: Sys, p: TaskId, n: nat, events: seq<Event>, k: nat, c: TaskId, value: Option<Payload>)
    requires Begins(s, p) && TypedAll(events, p, n) && k < |events| - 1
    requires MadeDoneAt(s, p, n, events[..|events| - 1], k, c, value)
    ensures MadeDoneAt(s, p, n, events, k, c, value)
  {
    assert events[..|events| - 1][..k] == events[..k];
  }

  /** The entry tells the outcome of row c: for a done task the value handed in by the
      step that completed it, for a cancelled one nothing, for neither an error. */
  ghost predicate Tells(s: Sys, p: TaskId, n: nat, events: seq<Event>, entry: ChildResult, c: TaskId)
    requires Begins(s, p) && TypedAll(events, p, n)
  {
    var rows := Lives(s, p, n, events).sys.rows;
    && c < |rows| && entry.task == c && entry.state == rows[c].state && entry.error.None?
    && match entry.state
       case Done => exists k :: 0 <= k < |events| && MadeDoneAt(s, p, n, events, k, c, entry.result)
       case Cancelled => entry.result.None?
       case _ => false
  }

  /** One entry per child, in the wave's order. */
  ghost predicate TellsAll(s: Sys, p: TaskId, n: nat, events: seq<Event>, entries: seq<ChildResult>, ids: seq<TaskId>)
    requires Begins(s, p) && TypedAll(events, p, n)
  {
    |entries| == |ids| && forall j :: 0 <= j < |ids| ==> Tells(s, p, n, events, entries[j], ids[j])
  }

  lemma ReportTells(s: Sys, p: TaskId, n: nat, events: seq<Event>, c: TaskId)
    requires Begins(s, p) && TypedAll(events, p, n) && |s.rows| <= c < |Lives(s, p, n, events).sys.rows|
    requires var t := Lives(s, p, n, events).sys.rows[c]; t.state.Done? || t.state.Cancelled?
    ensures Tells(s, p, n, events, ResultOf(Lives(s, p, n, events).sys.rows, c), c)
  {
    ReportSays(Lives(s, p, n, events).sys.rows, c);
    if Lives(s, p, n, events).sys.rows[c].state.Done? { ChildHoldsValue(s, p, n, events, c); }
  }

  /** The rows counted as the execution's own were all created in the root's life. */
  lemma {:induction false} BaseInLife(s: Sys, p: TaskId, n: nat, events: seq<Event>)
    requires Begins(s, p) && TypedAll(events, p, n)
    ensures |s.rows| <= Lives(s, p, n, events).base
    decreases |events|
  {
    if events != [] {
      BaseInLife(s, p, n, events[..|events| - 1]);
      LivesKept(s, p, n, events[..|events| - 1]);
      NextAdopted(Lives(s, p, n, events[..|events| - 1]), p, n, events[|events| - 1], 0);
    }
  }

  /** The reports of a settled wave tell what became of its members. */
  lemma WaveTells(s: Sys, p: TaskId, n: nat, events: seq<Event>, w: nat)
    requires Begins(s, p) && TypedAll(events, p, n) && w < |Lives(s, p, n, events).waves|
    requires RowsCover(Lives(s, p, n, events))
    requires var x := Lives(s, p, n, events);
             forall c :: c in x.waves[w].ids ==> x.sys.rows[c].state.Done? || x.sys.rows[c].state.Cancelled?
    ensures var x := Lives(s, p, n, events);
            TellsAll(s, p, n, events, Results(x.sys.rows, x.waves[w].ids), x.waves[w].ids)
  {
    var x := Lives(s, p, n, events);
    var ids := x.waves[w].ids;
    LivesKept(s, p, n, events);
    BaseInLife(s, p, n, events);
    forall j | 0 <= j < |ids| ensures Tells(s, p, n, events, Results(x.sys.rows, ids)[j], ids[j]) {
      assert ids[j] in ids && InWaves(x.waves, ids[j]);
      ReportTells(s, p, n, events, ids[j]);
    }
  }

  /** The call was told what became of the wave spawned last. */
  ghost predicate ToldLast(s: Sys, p: TaskId, n: nat, events: seq<Event>, call: Call)
    requires Begins(s, p) && TypedAll(events, p, n)
  {
    var x := Lives(s, p, n, events);
    && |x.waves| > 0 && call.prev.Some?
    && TellsAll(s, p, n, events, call.prev.value, x.waves[|x.waves| - 1].ids)
  }

  lemma CallTold(s: Sys, p: TaskId, n: nat, events: seq<Event>, call: Call)
    requires Begins(s, p) && TypedAll(events, p, n) && SawLast(Lives(s, p, n, events), call)
    ensures ToldLast(s, p, n, events, call)
  {
    WaveTells(s, p, n, events, |Lives(s, p, n, events).waves| - 1);
  }

  /** Whenever a check of the root plans, it hands on the results of the wave spawned
      last, late execute() or not: entry by entry, in the wave's order, the value with
      which each child was completed, or nothing for a cancelled one. */
  lemma HookSeesLastWave(s: Sys, p: TaskId, n: nat, events: seq<Event>, e: Event)
    requires Begins(s, p) && TypedAll(events, p, n) && e.Advance?
    ensures var x := Lives(s, p, n, events);
            && x.log <= Next(x, p, e).log
            && forall i :: |x.log| <= i < |Next(x, p, e).log| ==>
                 SawLast(x, Next(x, p, e).log[i]) && ToldLast(s, p, n, events, Next(x, p, e).log[i])
  {
    var x := Lives(s, p, n, events);
    LivesKept(s, p, n, events);
    AdvancedCalls(x, p, e);
    forall i | |x.log| <= i < |Next(x, p, e).log|
      ensures SawLast(x, Next(x, p, e).log[i]) && ToldLast(s, p, n, events, Next(x, p, e).log[i])
    {
      LastWaveSettled(x, p, e.busy, Next(x, p, e).log[i]);
      CallTold(s, p, n, events, Next(x, p, e).log[i]);
    }
  }

  // ---- what holds as long as no execute() comes late ---------------------------------

  /** Exactly once and in order: within one execution the committed plan_phase
      calls are for phases 0, 1, 2, ... without gap or repetition, and when the
      root is done all n phases have been planned. */
  lemma PlannedOnceInOrder(s: Sys, p: TaskId, n: nat, events: seq<Event>)
    requires Begins(s, p) && TypedAll(events, p, n) && AllTimely(s, p, n, events)
    ensures var x := Lives(s, p, n, events);
            && |x.log| <= n
            && (forall i :: 0 <= i < |x.log| ==> x.log[i].phase == i)
            && (x.sys.rows[p].state.Done? ==> |x.log| == n && x.sys.rows[p].phase == n)
  {
    LivesInv(s, p, n, events);
    var x := Lives(s, p, n, events);
    forall i | 0 <= i < |x.log| ensures x.log[i].phase == i { assert CallOk(x, i); }
  }

  /** w is the last wave of a phase before i. */
  ghost predicate LastBefore(waves: seq<Wave>, i: nat, w: int) {
    0 <= w < |waves| && waves[w].phase < i && forall v :: w < v < |waves| ==> i <= waves[v].phase
  }

  /** The call for phase i saw the results of the last wave before i, every one of
      them done or cancelled; with no wave before i it saw nothing. */
  ghost predicate SawLastWave(x: Exec, i: nat)
    requires i < |x.log| && RowsCover(x)
  {
    && (forall w :: LastBefore(x.waves, i, w) ==>
          && x.log[i].prev == Some(Results(x.sys.rows, x.waves[w].ids))
          && forall c :: c in x.waves[w].ids ==> x.sys.rows[c].state.Done? || x.sys.rows[c].state.Cancelled?)
    && ((forall w :: 0 <= w < |x.waves| ==> i <= x.waves[w].phase) ==> x.log[i].prev.None?)
  }

  lemma CallSawLastWave(x: Exec, i: nat)
    requires i < |x.log| && RowsCover(x) && CallOk(x, i)
    ensures SawLastWave(x, i)
  {
    forall w | LastBefore(x.waves, i, w)
      ensures x.log[i].prev == Some(Results(x.sys.rows, x.waves[w].ids))
      ensures forall c :: c in x.waves[w].ids ==> x.sys.rows[c].state.Done? || x.sys.rows[c].state.Cancelled?
    {
      var results := x.log[i].prev.value;
      var v :| GivenBy(x, i, results, v);
      assert v == w;
      forall c | c in x.waves[w].ids ensures x.sys.rows[c].state.Done? || x.sys.rows[c].state.Cancelled? {
        var k :| 0 <= k < |x.waves[w].ids| && x.waves[w].ids[k] == c;
        assert results[k].state == x.sys.rows[c].state;
      }
    }
  }

  /** The call for phase i was told what became of the last wave before i. */
  ghost predicate ToldLastWave(s: Sys, p: TaskId, n: nat, events: seq<Event>, i: nat)
    requires Begins(s, p) && TypedAll(events, p, n) && i < |Lives(s, p, n, events).log|
  {
    var x := Lives(s, p, n, events);
    forall w :: LastBefore(x.waves, i, w) ==>
      x.log[i].prev.Some? && TellsAll(s, p, n, events, x.log[i].prev.value, x.waves[w].ids)
  }

  /** plan_phase receives exactly the results of the last non-empty wave: entry by
      entry the value with which each child was completed. */
  lemma PlanSeesLastWave(s: Sys, p: TaskId, n: nat, events: seq<Event>)
    requires Begins(s, p) && TypedAll(events, p, n) && AllTimely(s, p, n, events)
    ensures var x := Lives(s, p, n, events);
            RowsCover(x) && forall i :: 0 <= i < |x.log| ==> SawLastWave(x, i) && ToldLastWave(s, p, n, events, i)
  {
    LivesInv(s, p, n, events);
    var x := Lives(s, p, n, events);
    WavesCovered(x, p);
    forall i | 0 <= i < |x.log| ensures SawLastWave(x, i) && ToldLastWave(s, p, n, events, i) {
      assert CallOk(x, i);
      CallSawLastWave(x, i);
      forall w | LastBefore(x.waves, i, w)
        ensures x.log[i].prev.Some? && TellsAll(s, p, n, events, x.log[i].prev.value, x.waves[w].ids)
      {
        WaveTells(s, p, n, events, w);
      }
    }
  }

  // ---- what a late execute() does -----------------------------------------------------

  /** Plans are made once and in order up to the first late execute() and no further:
      that one's committed calls begin with phase 0 again. */
  lemma PlannedOnceIff(s: Sys, p: TaskId, n: nat, events: seq<Event>, e: Event)
    requires Begins(s, p) && TypedAll(events, p, n) && AllTimely(s, p, n, events) && Typed(e, p, n)
    ensures var x := Lives(s, p, n, events);
            (forall i :: 0 <= i < |Next(x, p, e).log| ==> Next(x, p, e).log[i].phase == i) <==> Timely(x, p, e)
  {
    LivesInv(s, p, n, events);
    var x := Lives(s, p, n, events);
    NextInv(x, p, n, e);
    if Timely(x, p, e) {
      forall i | 0 <= i < |Next(x, p, e).log| ensures Next(x, p, e).log[i].phase == i {
        assert CallOk(Next(x, p, e), i);
      }
    } else {
      LateCallsRepeat(x, p, n, e.plans, e.runner);
    }
  }

  /** A check of a root already past its last phase completes it. */
  lemma PastEndCompletes(x: Exec, p: TaskId, n: nat, e: Event)
    requires Shaped(x.sys) && p < |x.sys.rows| && x.sys.rows[p].phase >= n
    requires e.Advance? && PlansFit(e.plans, n, p) && e.agg.Value? && HookRuns(x.sys.rows, e.busy, p)
    ensures p < |Next(x, p, e).sys.rows| && Next(x, p, e).sys.rows[p].state.Done?
  {
    AdvanceChecks(x, p, n, e);
    HookIsStartWave(x.sys.rows, e.busy, p, e.plans, n, e.agg, e.reason);
  }

  /** A late execute() with nothing to spawn makes the next check of the settled root
      complete it, however many phases had still to be planned on the results of the
      last wave. */
  lemma LateEmptyCompletes(x: Exec, p: TaskId, n: nat, late: seq<Plan>, runner: RunnerId, e: Event)
    requires Ready(x, p, n) && PlansFit(late, n, p) && FirstWave(late, 0).NoMore?
    requires e.Advance? && PlansFit(e.plans, n, p) && e.agg.Value? && p !in e.busy
    ensures var x' := Next(x, p, Execute(late, runner));
            && Shaped(x'.sys) && p < |x'.sys.rows|
            && p < |Next(x', p, e).sys.rows| && Next(x', p, e).sys.rows[p].state.Done?
  {
    NextShaped(x, p, Execute(late, runner));
    EmptyExecute(x.sys, p, late, runner);
    MarkedRuns(x, x.sys.rows[p := x.sys.rows[p].(phase := n)], p, n, e.busy);
    PastEndCompletes(Executed(x, p, late, runner), p, n, e);
  }

  lemma MarkedRuns(x: Exec, rows': Table, p: TaskId, n: nat, busy: set<TaskId>)
    requires Ready(x, p, n) && p !in busy && rows' == x.sys.rows[p := x.sys.rows[p].(phase := n)]
    ensures HookRuns(rows', busy, p)
  {
    WaveHasKid(x, p);
    assert forall c :: ChildOf(rows', c, p) <==> ChildOf(x.sys.rows, c, p);
  }
}
