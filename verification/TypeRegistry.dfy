/** The task-type registry: registration is always open, and the class served
    under a name merges every definition registered under it, newest first.
    Building the merged class runs the registering hook of its bases, so the
    merged class itself enters the list of definitions. */
module TypeRegistry {
  import opened Optional

  /** A class body written by somebody, or a class the registry merged. */
  datatype Class = Body(id: nat) | Merged(name: string, bases: seq<Class>)

  /** Bodies in lookup order, before repeated ones are dropped. */
  function Bodies(c: Class): seq<nat>
    decreases c, 0
  {
    match c
    case Body(id) => [id]
    case Merged(_, bases) => AllBodies(bases)
  }

  function AllBodies(cs: seq<Class>): seq<nat>
    decreases cs, 1
  {
    if cs == [] then [] else Bodies(cs[0]) + AllBodies(cs[1..])
  }

  /** Each body once, at its first place: the lookup order of a merged class. */
  function Unrepeated(ids: seq<nat>): (r: seq<nat>)
    ensures forall i :: i in r <==> i in ids
    ensures forall k, l :: 0 <= k < l < |r| ==> r[k] != r[l]
  {
    if ids == [] then []
    else
      var r := Unrepeated(ids[..|ids| - 1]);
      if ids[|ids| - 1] in r then r else r + [ids[|ids| - 1]]
  }

  function Lookup(c: Class): seq<nat> {
    Unrepeated(Bodies(c))
  }

  lemma {:induction false} RepeatsDrop(a: seq<nat>, b: seq<nat>)
    requires forall i :: i in b ==> i in a
    ensures Unrepeated(a + b) == Unrepeated(a)
    decreases |b|
  {
    if b == [] {
      assert a + b == a;
    } else {
      var b', last := b[..|b| - 1], b[|b| - 1];
      assert (a + b)[..|a + b| - 1] == a + b';
      assert last in b;
      RepeatsDrop(a, b');
    }
  }

  lemma {:induction false} NewestInFront(id: nat, ids: seq<nat>)
    requires id !in ids
    ensures Unrepeated([id] + ids) == [id] + Unrepeated(ids)
    decreases |ids|
  {
    if ids == [] {
      assert [id] + ids == [id];
      assert [id][..0] == [];
    } else {
      var ids' := ids[..|ids| - 1];
      assert ([id] + ids)[..|ids|] == [id] + ids';
      NewestInFront(id, ids');
    }
  }

  datatype Registry = Registry(registered: map<string, seq<Class>>, initialized: map<string, Class>)

  function Definitions(r: Registry, name: string): seq<Class> {
    if name in r.registered then r.registered[name] else []
  }

  function Registered(r: Registry, name: string, c: Class): Registry {
    Registry(r.registered[name := [c] + Definitions(r, name)], r.initialized - {name})
  }

  /** Merging creates a class, whose creation registers it, and caches it. */
  function Built(r: Registry, name: string): Registry
    requires name in r.registered
  {
    var c := Merged(name, r.registered[name]);
    var r' := Registered(r, name, c);
    r'.(initialized := r'.initialized[name := c])
  }

  function Initialized(r: Registry): Registry {
    Registry(
      map n | n in r.registered ::
        if n in r.initialized then r.registered[n] else [Merged(n, r.registered[n])] + r.registered[n],
      r.initialized + map n | n in r.registered && n !in r.initialized :: Merged(n, r.registered[n]))
  }

  function MergedDefinitions(r: Registry, n: string): seq<Class> {
    if n in r.initialized then Definitions(r, n) else [Merged(n, Definitions(r, n))] + Definitions(r, n)
  }

  function MergedClass(r: Registry, n: string): Class {
    if n in r.initialized then r.initialized[n] else Merged(n, Definitions(r, n))
  }

  /** Initialization under way: the names in todo are still to be visited. */
  ghost predicate HalfInitialized(r: Registry, r': Registry, todo: set<string>) {
    && todo <= r.registered.Keys == r'.registered.Keys
    && r'.initialized.Keys == r.initialized.Keys + (r.registered.Keys - todo)
    && (forall n :: n in r'.registered ==>
          r'.registered[n] == if n in todo then r.registered[n] else MergedDefinitions(r, n))
    && (forall n :: n in r'.initialized ==> r'.initialized[n] == MergedClass(r, n))
  }

  lemma VisitOne(r: Registry, r': Registry, todo: set<string>, name: string)
    requires HalfInitialized(r, r', todo) && name in todo
    ensures HalfInitialized(r, if name in r'.initialized then r' else Built(r', name), todo - {name})
  {
  }

  lemma AllVisited(r: Registry, r': Registry)
    requires HalfInitialized(r, r', {})
    ensures r' == Initialized(r)
  {
    assert r'.registered == Initialized(r).registered;
    assert r'.initialized == Initialized(r).initialized;
  }

  function Found(r: Registry, name: string): Registry {
    if name !in r.initialized && name in r.registered then Built(r, name) else r
  }

  datatype Event = Define(name: string, id: nat) | Initialize | Get(name: string)

  function Happens(r: Registry, e: Event): Registry {
    match e
    case Define(name, id) => Registered(r, name, Body(id))
    case Initialize => Initialized(r)
    case Get(name) => Found(r, name)
  }

  function After(events: seq<Event>): Registry {
    if events == [] then Registry(map[], map[])
    else Happens(After(events[..|events| - 1]), events[|events| - 1])
  }

  /** Bodies defined under a name, newest first. */
  function History(events: seq<Event>, name: string): seq<nat> {
    if events == [] then []
    else
      var last := events[|events| - 1];
      (if last.Define? && last.name == name then [last.id] else []) + History(events[..|events| - 1], name)
  }

  /** Every class object is registered once. */
  ghost predicate DistinctBodies(events: seq<Event>) {
    forall k, l :: 0 <= k < l < |events| && events[k].Define? && events[l].Define? ==> events[k].id != events[l].id
  }

  lemma {:induction false} HistoryHas(events: seq<Event>, name: string, id: nat)
    requires id in History(events, name)
    ensures exists k :: 0 <= k < |events| && events[k] == Define(name, id)
  {
    var last, before := events[|events| - 1], events[..|events| - 1];
    if last != Define(name, id) {
      HistoryHas(before, name, id);
      var k :| 0 <= k < |before| && before[k] == Define(name, id);
      assert events[k] == Define(name, id);
    }
  }

  /** The definitions under the name resolve to the bodies defined so far, newest
      first, and so does its cached class. */
  ghost predicate CoherentAt(r: Registry, history: seq<nat>, n: string) {
    && (n in r.registered <==> history != [])
    && (n in r.registered ==> Unrepeated(AllBodies(r.registered[n])) == history)
    && (n in r.initialized ==> n in r.registered && Lookup(r.initialized[n]) == history)
  }

  ghost predicate Coherent(r: Registry, events: seq<Event>) {
    forall n :: CoherentAt(r, History(events, n), n)
  }

  lemma MergeKeepsLookup(name: string, cs: seq<Class>)
    ensures Lookup(Merged(name, cs)) == Unrepeated(AllBodies(cs))
    ensures Unrepeated(AllBodies([Merged(name, cs)] + cs)) == Unrepeated(AllBodies(cs))
  {
    assert ([Merged(name, cs)] + cs)[1..] == cs;
    RepeatsDrop(AllBodies(cs), AllBodies(cs));
  }

  lemma NotYetDefined(events: seq<Event>, name: string, id: nat)
    requires DistinctBodies(events + [Define(name, id)])
    ensures id !in History(events, name)
  {
    var events' := events + [Define(name, id)];
    assert forall k :: 0 <= k < |events| ==> events'[k] == events[k];
    assert events'[|events|] == Define(name, id);
    if id in History(events, name) {
      HistoryHas(events, name, id);
      assert false;
    }
  }

  lemma DefineAt(r: Registry, history: seq<nat>, name: string, id: nat)
    requires CoherentAt(r, history, name) && id !in history
    ensures CoherentAt(Registered(r, name, Body(id)), [id] + history, name)
  {
    var cs := Definitions(r, name);
    BodyInFront(id, cs);
    assert Unrepeated(AllBodies(cs)) == history;
    NewestInFront(id, AllBodies(cs));
  }

  lemma BodyInFront(id: nat, cs: seq<Class>)
    ensures AllBodies([Body(id)] + cs) == [id] + AllBodies(cs)
  {
    assert ([Body(id)] + cs)[1..] == cs;
  }

  lemma OneMore(events: seq<Event>, e: Event, n: string)
    ensures History(events + [e], n)
            == if e.Define? && e.name == n then [e.id] + History(events, n) else History(events, n)
  {
    assert (events + [e])[..|events|] == events;
  }

  lemma DefineCoherent(r: Registry, events: seq<Event>, name: string, id: nat)
    requires Coherent(r, events) && DistinctBodies(events + [Define(name, id)])
    ensures Coherent(Registered(r, name, Body(id)), events + [Define(name, id)])
  {
    var e := Define(name, id);
    forall n ensures CoherentAt(Registered(r, name, Body(id)), History(events + [e], n), n) {
      OneMore(events, e, n);
      assert CoherentAt(r, History(events, n), n);
      if n == name {
        NotYetDefined(events, name, id);
        DefineAt(r, History(events, n), name, id);
      }
    }
  }

  lemma InitializeCoherent(r: Registry, events: seq<Event>)
    requires Coherent(r, events)
    ensures Coherent(Initialized(r), events + [Initialize])
  {
    forall n ensures CoherentAt(Initialized(r), History(events + [Initialize], n), n) {
      OneMore(events, Initialize, n);
      assert CoherentAt(r, History(events, n), n);
      if n in r.registered { MergeKeepsLookup(n, r.registered[n]); }
    }
  }

  lemma GetCoherent(r: Registry, events: seq<Event>, name: string)
    requires Coherent(r, events)
    ensures Coherent(Found(r, name), events + [Get(name)])
  {
    forall n ensures CoherentAt(Found(r, name), History(events + [Get(name)], n), n) {
      OneMore(events, Get(name), n);
      assert CoherentAt(r, History(events, n), n);
      if n == name && n in r.registered { MergeKeepsLookup(n, r.registered[n]); }
    }
  }

  lemma {:induction false} AlwaysCoherent(events: seq<Event>)
    requires DistinctBodies(events)
    ensures Coherent(After(events), events)
  {
    if events != [] {
      var before, e := events[..|events| - 1], events[|events| - 1];
      assert forall k :: 0 <= k < |before| ==> before[k] == events[k];
      AlwaysCoherent(before);
      assert before + [e] == events;
      match e
      case Define(name, id) => DefineCoherent(After(before), before, name, id);
      case Initialize => InitializeCoherent(After(before), before);
      case Get(name) => GetCoherent(After(before), before, name);
    }
  }

  /** After any sequence of registrations, initializations and lookups, looking a
      name up yields the newest-first merge of everything defined under it, and
      fails exactly for names never defined; caching and re-merging never show. */
  lemma LookupIsNewestFirst(events: seq<Event>, name: string)
    requires DistinctBodies(events)
    ensures var r := Found(After(events), name);
            && (name in r.initialized <==> exists k :: 0 <= k < |events| && events[k].Define? && events[k].name == name)
            && (name in r.initialized ==> Lookup(r.initialized[name]) == History(events, name))
  {
    AlwaysCoherent(events);
    GetCoherent(After(events), events, name);
    OneMore(events, Get(name), name);
    assert CoherentAt(Found(After(events), name), History(events + [Get(name)], name), name);
    assert CoherentAt(After(events), History(events, name), name);
    DefinedIff(events, name);
  }

  lemma {:induction false} DefinedIff(events: seq<Event>, name: string)
    ensures History(events, name) != []
            <==> exists k :: 0 <= k < |events| && events[k].Define? && events[k].name == name
  {
    if events != [] {
      var before, last := events[..|events| - 1], events[|events| - 1];
      DefinedIff(before, name);
      if k :| 0 <= k < |before| && before[k].Define? && before[k].name == name { assert events[k] == before[k]; }
      if k :| 0 <= k < |events| && events[k].Define? && events[k].name == name {
        if k < |before| { assert before[k] == events[k]; }
      }
      if last.Define? && last.name == name { assert events[|events| - 1] == last; }
    }
  }

  // ---- the registry object ------------------------------------------------------------

  class TaskTypeRegistry {
    var registered: map<string, seq<Class>>
    var initialized: map<string, Class>

    function State(): Registry reads this {
      Registry(registered, initialized)
    }

    constructor ()
      ensures State() == Registry(map[], map[])
    {
      registered, initialized := map[], map[];
    }

    method RegisterType(name: string, c: Class)
      modifies this
      ensures State() == Registered(old(State()), name, c)
    {
      if name !in registered {
        registered := registered[name := []];
      }
      registered := registered[name := [c] + registered[name]];
      initialized := initialized - {name};
      assert registered == Registered(old(State()), name, c).registered;
    }

    /** type(name, bases, {}): creating the class registers it under its name. */
    method MergeType(name: string, bases: seq<Class>) returns (c: Class)
      modifies this
      ensures c == Merged(name, bases)
      ensures State() == Registered(old(State()), name, c)
    {
      c := Merged(name, bases);
      RegisterType(name, c);
    }

    method Initialize()
      modifies this
      ensures State() == Initialized(old(State()))
    {
      ghost var before := State();
      var todo := registered.Keys;
      while todo != {}
        invariant HalfInitialized(before, State(), todo)
        decreases |todo|
      {
        var name :| name in todo;
        VisitOne(before, State(), todo, name);
        if name !in initialized {
          BuildType(name);
        }
        todo := todo - {name};
      }
      AllVisited(before, State());
    }

    method BuildType(name: string)
      requires name in registered
      modifies this
      ensures State() == Built(old(State()), name)
    {
      var c := MergeType(name, registered[name]);
      initialized := initialized[name := c];
    }

    method GetTaskType(name: string) returns (c: Option<Class>)
      modifies this
      ensures State() == Found(old(State()), name)
      ensures c == if name in initialized then Some(initialized[name]) else None
    {
      if name !in initialized {
        if name in registered {
          BuildType(name);
        } else {
          return None;
        }
      }
      c := Some(initialized[name]);
    }
  }
}
