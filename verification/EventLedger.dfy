/** event_ledger.py: the append-only ledger, its idempotent append, and its projections. */
module EventLedger {
  import opened Lifecycle
  import opened EventFold
  import opened Sorting
  import Text

  type Scope = (string, string)
  type Key = (string, string, string)

  function KeyOf(e: Event): Key
  {
    (e.ref.project, e.ref.unit, e.key)
  }

  // ---- appending, on values ----

  datatype Log = Kept(events: seq<Event>) | Conflict

  predicate Registered(e: Event, registry: set<string>)
  {
    registry == {} || e.ref.project in registry
  }

  /** Recording `e`: a replay changes nothing, a clash of key or id is refused. */
  function Appended(log: seq<Event>, e: Event, registry: set<string>): Log
  {
    if !Registered(e, registry) then Conflict
    else if e in log then Kept(log)
    else if exists f :: f in log && (KeyOf(f) == KeyOf(e) || f.id == e.id) then Conflict
    else Kept(log + [e])
  }

  function Recorded(log: seq<Event>, incoming: seq<Event>, registry: set<string>): Log
  {
    if incoming == [] then Kept(log)
    else
      var before := Recorded(log, incoming[..|incoming| - 1], registry);
      if before.Conflict? then Conflict else Appended(before.events, incoming[|incoming| - 1], registry)
  }

  /** No two different events share an id or an idempotency key. */
  ghost predicate Compatible(events: seq<Event>)
  {
    forall a, b :: a in events && b in events && (KeyOf(a) == KeyOf(b) || a.id == b.id) ==> a == b
  }

  /** Acceptance does not depend on order or on replays: a stream is accepted exactly when its events
      are registered and mutually compatible, and then the ledger holds each of them once. */
  lemma {:induction false} RecordedAccepts(incoming: seq<Event>, registry: set<string>)
    ensures Recorded([], incoming, registry).Kept? <==>
            Compatible(incoming) && forall e :: e in incoming ==> Registered(e, registry)
    ensures Recorded([], incoming, registry).Kept? ==>
            var log := Recorded([], incoming, registry).events;
            Distinct(log) && forall e :: e in log <==> e in incoming
  {
    if incoming != [] {
      var init, e := incoming[..|incoming| - 1], incoming[|incoming| - 1];
      assert incoming == init + [e];
      RecordedAccepts(init, registry);
    }
  }

  /** Replaying any part of what is already recorded appends nothing. */
  lemma {:induction false} ReplayAppendsNothing(log: seq<Event>, replay: seq<Event>, registry: set<string>)
    requires forall e :: e in replay ==> e in log && Registered(e, registry)
    ensures Recorded(log, replay, registry) == Kept(log)
  {
    if replay != [] {
      var init, e := replay[..|replay| - 1], replay[|replay| - 1];
      assert replay == init + [e];
      ReplayAppendsNothing(log, init, registry);
    }
  }

  // ---- fold order, projections ----

  /** `_ordered`: occurrence time, then arrival. */
  function Ordered(log: seq<Event>): seq<Event>
  {
    Sort(log, Earlier)
  }

  function OfScope(events: seq<Event>, scope: Scope): seq<Event>
  {
    Filter(events, (e: Event) => e.Scope() == scope)
  }

  function UnitEvents(log: seq<Event>, scope: Scope): seq<Event>
  {
    OfScope(Ordered(log), scope)
  }

  /** `projection`. */
  function ProjectionOf(log: seq<Event>, scope: Scope, rules: Rules): Outcome
  {
    if UnitEvents(log, scope) == [] then Refused else FoldOf(UnitEvents(log, scope), rules)
  }

  lemma EarlierIsPreorder()
    ensures TotalPreorder(Earlier)
  {
    forall a: Event, b: Event ensures Earlier(a, b) || Earlier(b, a) { Text.AtMostTotal(a.at, b.at); }
    forall a: Event, b: Event, c: Event | Earlier(a, b) && Earlier(b, c) ensures Earlier(a, c) {
      Text.AtMostTransitive(a.at, b.at, c.at);
    }
  }

  lemma UnitEventsFacts(log: seq<Event>, scope: Scope)
    ensures Sorted(UnitEvents(log, scope), Earlier)
    ensures forall e :: e in UnitEvents(log, scope) <==> e in log && e.Scope() == scope
    ensures UnitEvents(log, scope) == Sort(OfScope(log, scope), Earlier)
  {
    var keep := (e: Event) => e.Scope() == scope;
    EarlierIsPreorder();
    SortSorted(log, Earlier);
    SortMembers(log, Earlier);
    FilterSortedStays(Ordered(log), keep, Earlier);
    FilterMembers(Ordered(log), keep);
    FilterSort(log, keep, Earlier);
  }

  ghost predicate DistinctTimes(log: seq<Event>, scope: Scope)
  {
    forall a, b :: a in log && b in log && a.Scope() == scope == b.Scope() && a.at == b.at ==> a == b
  }

  /** A projection is a function of the set of recorded events: two ledgers fed the same events, in
      any order and with any replays, fold a unit alike when its timestamps are distinct. */
  lemma ProjectionOrderFree(a: seq<Event>, b: seq<Event>, scope: Scope, registry: set<string>, rules: Rules)
    requires forall e :: e in a <==> e in b
    requires Recorded([], a, registry).Kept? && Recorded([], b, registry).Kept?
    requires DistinctTimes(a, scope)
    ensures ProjectionOf(Recorded([], a, registry).events, scope, rules)
         == ProjectionOf(Recorded([], b, registry).events, scope, rules)
  {
    RecordedAccepts(a, registry);
    RecordedAccepts(b, registry);
    var la, lb := Recorded([], a, registry).events, Recorded([], b, registry).events;
    SameUnitEvents(la, lb, scope);
  }

  lemma SameUnitEvents(a: seq<Event>, b: seq<Event>, scope: Scope)
    requires Distinct(a) && Distinct(b) && DistinctTimes(a, scope)
    requires forall e :: e in a <==> e in b
    ensures UnitEvents(a, scope) == UnitEvents(b, scope)
  {
    var keep := (e: Event) => e.Scope() == scope;
    DistinctSameElements(a, b);
    SortKeeps(a, Earlier);
    SortKeeps(b, Earlier);
    FilterMultiset(Ordered(a), Ordered(b), keep);
    UnitEventsFacts(a, scope);
    UnitEventsFacts(b, scope);
    forall x, y | x in UnitEvents(a, scope) && y in UnitEvents(a, scope) && Earlier(x, y) && Earlier(y, x)
      ensures x == y
    {
      Text.AtMostAntisymmetric(x.at, y.at);
    }
    SortedUnique(UnitEvents(a, scope), UnitEvents(b, scope), Earlier);
  }

  /** Every projection the ledger hands out describes the recorded events of its unit. */
  lemma ProjectionMeaning(log: seq<Event>, scope: Scope, rules: Rules)
    requires ProjectionOf(log, scope, rules).Folded?
    ensures var p := ProjectionOf(log, scope, rules).value;
      Describes(p, UnitEvents(log, scope), rules) && (p.project, p.unit) == scope &&
      (p.activity != IDLE && p.transitions != [] ==>
         Text.AtMost(p.transitions[|p.transitions| - 1].at, p.activity.at))
  {
    var events := UnitEvents(log, scope);
    UnitEventsFacts(log, scope);
    FoldMeaning(events, rules);
    ActivityNotStale(events, rules);
    assert events[0] in events;
  }

  /** A projection bears the references in effect in its unit's events. */
  lemma ReferenceInEffect(log: seq<Event>, scope: Scope, rules: Rules, which: Reference)
    requires ProjectionOf(log, scope, rules).Folded?
    ensures InEffect(UnitEvents(log, scope), which, Given(ProjectionOf(log, scope, rules).value.refs, which))
  {
    ProjectionMeaning(log, scope, rules);
  }

  lemma BearsScope(log: seq<Event>, scope: Scope, rules: Rules)
    requires ProjectionOf(log, scope, rules).Folded?
    ensures (ProjectionOf(log, scope, rules).value.project, ProjectionOf(log, scope, rules).value.unit) == scope
  {
    ProjectionMeaning(log, scope, rules);
  }

  // ---- scopes in order ----

  predicate ScopeAtMost(a: Scope, b: Scope)
  {
    if a.0 == b.0 then Text.AtMost(a.1, b.1) else Text.AtMost(a.0, b.0)
  }

  lemma ScopeAtMostIsOrder()
    ensures TotalPreorder(ScopeAtMost) && Antisymmetric(ScopeAtMost)
  {
    Text.AtMostIsOrder();
    forall a: Scope, b: Scope, c: Scope | ScopeAtMost(a, b) && ScopeAtMost(b, c) ensures ScopeAtMost(a, c) {
      if a.0 == c.0 && a.0 != b.0 {
        Text.AtMostAntisymmetric(a.0, b.0);
      }
    }
    forall a: Scope, b: Scope | ScopeAtMost(a, b) && ScopeAtMost(b, a) ensures a == b {
      if a.0 == b.0 { Text.AtMostAntisymmetric(a.1, b.1); } else { Text.AtMostAntisymmetric(a.0, b.0); }
    }
  }

  /** Which projects a query may see; `None` is every project. */
  datatype Projects = Every | Only(ids: set<string>)

  predicate Wanted(e: Event, projects: Projects)
  {
    projects.Every? || e.ref.project in projects.ids
  }

  ghost predicate Holds(events: seq<Event>, scope: Scope, projects: Projects)
  {
    exists e :: e in events && e.Scope() == scope && (projects.Only? ==> scope.0 in projects.ids)
  }

  /** The scopes of a log, each once, in order. */
  ghost predicate AreScopes(scopes: seq<Scope>, log: seq<Event>, projects: Projects)
  {
    Distinct(scopes) && Sorted(scopes, ScopeAtMost) &&
    forall k :: k in scopes <==> Holds(log, k, projects)
  }

  /** By project, and by unit within one. */
  lemma ScopesRise(scopes: seq<Scope>, log: seq<Event>, projects: Projects, i: nat, j: nat)
    requires AreScopes(scopes, log, projects) && i < j < |scopes|
    ensures scopes[i].0 == scopes[j].0 ==> Text.AtMost(scopes[i].1, scopes[j].1)
    ensures scopes[i].0 != scopes[j].0 ==> Text.AtMost(scopes[i].0, scopes[j].0)
    ensures projects.Only? ==> scopes[i].0 in projects.ids
  {
    assert ScopeAtMost(scopes[i], scopes[j]);
    assert scopes[i] in scopes;
  }

  datatype Projections = Several(values: seq<Projection>) | AnyRefused

  /** What `projections()` must return: `projection(p, u)` of each scope, in scope order. */
  ghost predicate AreProjections(r: Projections, scopes: seq<Scope>, log: seq<Event>, rules: Rules)
  {
    (r.Several? <==> forall k :: k in scopes ==> ProjectionOf(log, k, rules).Folded?) &&
    (r.Several? ==> |r.values| == |scopes|) &&
    (r.Several? ==> forall i :: 0 <= i < |scopes| ==> ProjectionOf(log, scopes[i], rules) == Folded(r.values[i]))
  }

  /** Both indexes hold exactly the recorded events, and no two events share an id or a key. */
  ghost predicate Indexed(events: seq<Event>, eventIds: map<string, Event>, idempotency: map<Key, Event>)
  {
    Distinct(events) && Compatible(events) &&
    (forall e :: e in events ==> e.id in eventIds && eventIds[e.id] == e) &&
    (forall e :: e in events ==> KeyOf(e) in idempotency && idempotency[KeyOf(e)] == e) &&
    (forall id :: id in eventIds ==> eventIds[id] in events && eventIds[id].id == id) &&
    (forall k :: k in idempotency ==> idempotency[k] in events && KeyOf(idempotency[k]) == k)
  }

  lemma IndexesGrow(events: seq<Event>, eventIds: map<string, Event>, idempotency: map<Key, Event>, e: Event)
    requires Indexed(events, eventIds, idempotency) && KeyOf(e) !in idempotency && e.id !in eventIds
    ensures Indexed(events + [e], eventIds[e.id := e], idempotency[KeyOf(e) := e])
  {
  }

  /** Two lookups decide what a scan of the log would. */
  lemma IndexesDecide(events: seq<Event>, eventIds: map<string, Event>, idempotency: map<Key, Event>, e: Event,
                      registry: set<string>)
    requires Indexed(events, eventIds, idempotency) && Registered(e, registry)
    ensures Appended(events, e, registry) ==
            if KeyOf(e) in idempotency then (if idempotency[KeyOf(e)] == e then Kept(events) else Conflict)
            else if e.id in eventIds then Conflict
            else Kept(events + [e])
    ensures KeyOf(e) in idempotency && idempotency[KeyOf(e)] == e ==> e in events
  {
    if KeyOf(e) in idempotency {
      assert idempotency[KeyOf(e)] in events;
    } else if e.id in eventIds {
      assert eventIds[e.id] in events;
    }
  }

  class Ledger {
    const registry: set<string>
    var events: seq<Event>
    var eventIds: map<string, Event>
    var idempotency: map<Key, Event>

    ghost predicate Valid()
      reads this
    {
      Indexed(events, eventIds, idempotency)
    }

    constructor (registry: set<string>)
      ensures Valid() && events == [] && this.registry == registry
    {
      this.registry := registry;
      events, eventIds, idempotency := [], map[], map[];
    }

    method Append(e: Event) returns (ok: bool)
      requires Valid()
      modifies this
      ensures Valid()
      ensures ok <==> Appended(old(events), e, registry).Kept?
      ensures events == if ok then Appended(old(events), e, registry).events else old(events)
      ensures ok ==> e in events
    {
      if registry != {} && e.ref.project !in registry {
        return false;
      }
      var key := KeyOf(e);
      IndexesDecide(events, eventIds, idempotency, e, registry);
      if key in idempotency {
        return idempotency[key] == e;
      }
      if e.id in eventIds {
        return false;
      }
      IndexesGrow(events, eventIds, idempotency, e);
      events := events + [e];
      eventIds := eventIds[e.id := e];
      idempotency := idempotency[key := e];
      ok := true;
    }

    /** `extend`, which stops at the first refused event and keeps what it recorded before it. */
    method Extend(incoming: seq<Event>) returns (ok: bool)
      requires Valid()
      modifies this
      ensures Valid()
      ensures ok <==> Recorded(old(events), incoming, registry).Kept?
      ensures ok ==> events == Recorded(old(events), incoming, registry).events
      ensures !ok ==> exists k :: 0 <= k < |incoming| && Recorded(old(events), incoming[..k], registry) == Kept(events)
    {
      ghost var start := events;
      for k := 0 to |incoming|
        invariant Valid()
        invariant Recorded(start, incoming[..k], registry) == Kept(events)
      {
        assert incoming[..k + 1][..k] == incoming[..k];
        var done := Append(incoming[k]);
        if !done {
          ConflictStands(start, incoming, k + 1, registry);
          return false;
        }
      }
      assert incoming[..|incoming|] == incoming;
      ok := true;
    }

    method Project(scope: Scope, rules: Rules) returns (r: Outcome)
      ensures r == ProjectionOf(events, scope, rules)
    {
      var chosen := UnitEvents(events, scope);
      if chosen == [] {
        return Refused;
      }
      r := Fold(chosen, rules);
    }

    /** One pass groups the ordered events by scope; each group is then folded. */
    method ProjectAll(projects: Projects, rules: Rules) returns (scopes: seq<Scope>, r: Projections)
      ensures AreScopes(scopes, events, projects)
      ensures AreProjections(r, scopes, events, rules)
    {
      var grouped, keys := Group(Ordered(events), projects);
      GroupsAreUnits(grouped, keys, events, projects);
      scopes := Sort(keys, ScopeAtMost);
      SortedScopes(keys, scopes, events, projects);
      r := FoldGroups(scopes, grouped, rules);
      assert forall k :: k in scopes ==> ProjectionOf(events, k, rules) == FoldOf(grouped[k], rules);
    }
  }

  method FoldGroups(scopes: seq<Scope>, grouped: map<Scope, seq<Event>>, rules: Rules) returns (r: Projections)
    requires forall k :: k in scopes ==> k in grouped && grouped[k] != []
    ensures r.Several? <==> forall k :: k in scopes ==> FoldOf(grouped[k], rules).Folded?
    ensures r.Several? ==> |r.values| == |scopes|
    ensures r.Several? ==> forall i :: 0 <= i < |scopes| ==> FoldOf(grouped[scopes[i]], rules) == Folded(r.values[i])
  {
    var values := [];
    for n := 0 to |scopes|
      invariant |values| == n
      invariant forall i :: 0 <= i < n ==> FoldOf(grouped[scopes[i]], rules) == Folded(values[i])
    {
      assert scopes[n] in scopes;
      var one := Fold(grouped[scopes[n]], rules);
      if one.Refused? {
        return AnyRefused;
      }
      values := values + [one.value];
    }
    forall k | k in scopes ensures FoldOf(grouped[k], rules).Folded? {
      var i :| 0 <= i < |scopes| && scopes[i] == k;
      assert FoldOf(grouped[scopes[i]], rules) == Folded(values[i]);
    }
    r := Several(values);
  }

  method Group(ordered: seq<Event>, projects: Projects) returns (grouped: map<Scope, seq<Event>>, keys: seq<Scope>)
    ensures IsGrouping(grouped, keys, ordered, projects)
  {
    grouped, keys := map[], [];
    for n := 0 to |ordered|
      invariant IsGrouping(grouped, keys, ordered[..n], projects)
    {
      var e := ordered[n];
      assert ordered[..n + 1] == ordered[..n] + [e];
      GroupingStep(grouped, keys, ordered[..n], e, projects);
      if Wanted(e, projects) {
        var k := e.Scope();
        if k in grouped {
          grouped := grouped[k := grouped[k] + [e]];
        } else {
          grouped := grouped[k := [e]];
          keys := keys + [k];
        }
      }
    }
    assert ordered[..|ordered|] == ordered;
  }

  lemma {:induction false} ConflictStands(log: seq<Event>, incoming: seq<Event>, k: nat, registry: set<string>)
    requires k <= |incoming| && Recorded(log, incoming[..k], registry).Conflict?
    ensures Recorded(log, incoming, registry).Conflict?
    decreases |incoming| - k
  {
    if k == |incoming| {
      assert incoming[..k] == incoming;
    } else {
      assert incoming[..k + 1][..k] == incoming[..k];
      ConflictStands(log, incoming, k + 1, registry);
    }
  }

  ghost predicate IsGrouping(grouped: map<Scope, seq<Event>>, keys: seq<Scope>, seen: seq<Event>, projects: Projects)
  {
    Distinct(keys) && (forall k :: k in keys <==> k in grouped) &&
    (forall k :: k in grouped <==> Holds(seen, k, projects)) &&
    (forall k :: k in grouped ==> grouped[k] == OfScope(seen, k))
  }

  lemma OfScopeStep(seen: seq<Event>, e: Event, k: Scope)
    ensures OfScope(seen + [e], k) == if e.Scope() == k then OfScope(seen, k) + [e] else OfScope(seen, k)
  {
    var keep := (x: Event) => x.Scope() == k;
    FilterConcat(seen, [e], keep);
    assert [e][1..] == [];
  }

  lemma HoldsStep(seen: seq<Event>, e: Event, k: Scope, projects: Projects)
    ensures Holds(seen + [e], k, projects) <==> Holds(seen, k, projects) || (Wanted(e, projects) && e.Scope() == k)
  {
    assert e in seen + [e];
    if Holds(seen, k, projects) {
      var x :| x in seen && Wanted(x, projects) && x.Scope() == k;
      assert x in seen + [e];
    }
  }

  lemma SomeMember(events: seq<Event>)
    requires events != []
    ensures exists x :: x in events
  {
    assert events[0] in events;
  }

  /** Whether a project is wanted is a fact about the scope, so an unseen wanted scope has no events. */
  lemma UnseenScope(seen: seq<Event>, e: Event, projects: Projects)
    requires Wanted(e, projects) && !Holds(seen, e.Scope(), projects)
    ensures OfScope(seen, e.Scope()) == []
  {
    var f := OfScope(seen, e.Scope());
    FilterMembers(seen, (x: Event) => x.Scope() == e.Scope());
    assert forall x :: x !in f;
    if f != [] { SomeMember(f); }
  }

  lemma ScopesStep(seen: seq<Event>, e: Event, projects: Projects)
    ensures forall k :: Holds(seen + [e], k, projects) <==> Holds(seen, k, projects) || (Wanted(e, projects) && e.Scope() == k)
    ensures forall k :: OfScope(seen + [e], k) == if e.Scope() == k then OfScope(seen, k) + [e] else OfScope(seen, k)
  {
    forall k ensures Holds(seen + [e], k, projects) <==> Holds(seen, k, projects) || (Wanted(e, projects) && e.Scope() == k) {
      HoldsStep(seen, e, k, projects);
    }
    forall k ensures OfScope(seen + [e], k) == if e.Scope() == k then OfScope(seen, k) + [e] else OfScope(seen, k) {
      OfScopeStep(seen, e, k);
    }
  }

  lemma GroupingSkips(grouped: map<Scope, seq<Event>>, keys: seq<Scope>, seen: seq<Event>, e: Event, projects: Projects)
    requires IsGrouping(grouped, keys, seen, projects) && !Wanted(e, projects)
    ensures IsGrouping(grouped, keys, seen + [e], projects)
  {
    ScopesStep(seen, e, projects);
    forall k | k in grouped ensures k != e.Scope() {
      var x :| x in seen && Wanted(x, projects) && x.Scope() == k;
    }
  }

  lemma GroupingExtends(grouped: map<Scope, seq<Event>>, keys: seq<Scope>, seen: seq<Event>, e: Event, projects: Projects)
    requires IsGrouping(grouped, keys, seen, projects) && Wanted(e, projects) && e.Scope() in grouped
    ensures IsGrouping(grouped[e.Scope() := grouped[e.Scope()] + [e]], keys, seen + [e], projects)
  {
    ScopesStep(seen, e, projects);
  }

  lemma GroupingOpens(grouped: map<Scope, seq<Event>>, keys: seq<Scope>, seen: seq<Event>, e: Event, projects: Projects)
    requires IsGrouping(grouped, keys, seen, projects) && Wanted(e, projects) && e.Scope() !in grouped
    ensures IsGrouping(grouped[e.Scope() := [e]], keys + [e.Scope()], seen + [e], projects)
  {
    ScopesStep(seen, e, projects);
    UnseenScope(seen, e, projects);
  }

  lemma GroupingStep(grouped: map<Scope, seq<Event>>, keys: seq<Scope>, seen: seq<Event>, e: Event, projects: Projects)
    requires IsGrouping(grouped, keys, seen, projects)
    ensures !Wanted(e, projects) ==> IsGrouping(grouped, keys, seen + [e], projects)
    ensures Wanted(e, projects) && e.Scope() in grouped ==>
              IsGrouping(grouped[e.Scope() := grouped[e.Scope()] + [e]], keys, seen + [e], projects)
    ensures Wanted(e, projects) && e.Scope() !in grouped ==>
              IsGrouping(grouped[e.Scope() := [e]], keys + [e.Scope()], seen + [e], projects)
  {
    if !Wanted(e, projects) {
      GroupingSkips(grouped, keys, seen, e, projects);
    } else if e.Scope() in grouped {
      GroupingExtends(grouped, keys, seen, e, projects);
    } else {
      GroupingOpens(grouped, keys, seen, e, projects);
    }
  }

  lemma GroupsAreUnits(grouped: map<Scope, seq<Event>>, keys: seq<Scope>, log: seq<Event>, projects: Projects)
    requires IsGrouping(grouped, keys, Ordered(log), projects)
    ensures forall k :: k in grouped ==> grouped[k] == UnitEvents(log, k) && grouped[k] != []
    ensures forall k :: k in keys <==> Holds(log, k, projects)
  {
    SortMembers(log, Earlier);
    forall k | k in grouped ensures grouped[k] == UnitEvents(log, k) && grouped[k] != [] {
      UnitEventsFacts(log, k);
      var e :| e in Ordered(log) && Wanted(e, projects) && e.Scope() == k;
      assert e in UnitEvents(log, k);
    }
    forall k ensures Holds(Ordered(log), k, projects) <==> Holds(log, k, projects) {
      if Holds(log, k, projects) {
        var e :| e in log && Wanted(e, projects) && e.Scope() == k;
        assert e in Ordered(log);
      }
      if Holds(Ordered(log), k, projects) {
        var e :| e in Ordered(log) && Wanted(e, projects) && e.Scope() == k;
        assert e in log;
      }
    }
  }

  lemma SortedScopes(keys: seq<Scope>, scopes: seq<Scope>, log: seq<Event>, projects: Projects)
    requires Distinct(keys) && scopes == Sort(keys, ScopeAtMost)
    requires forall k :: k in keys <==> Holds(log, k, projects)
    ensures AreScopes(scopes, log, projects)
    ensures forall k :: k in scopes <==> k in keys
  {
    ScopeAtMostIsOrder();
    SortSorted(keys, ScopeAtMost);
    SortMembers(keys, ScopeAtMost);
    SortDistinct(keys, ScopeAtMost);
  }

  /** The scopes, and so the list of projections, are the same for any two logs of the same events. */
  lemma ScopesOrderFree(s: seq<Scope>, t: seq<Scope>, a: seq<Event>, b: seq<Event>, projects: Projects)
    requires forall e :: e in a <==> e in b
    requires AreScopes(s, a, projects) && AreScopes(t, b, projects)
    ensures s == t
  {
    ScopeAtMostIsOrder();
    forall k ensures k in s <==> k in t {
      if Holds(a, k, projects) {
        var e :| e in a && Wanted(e, projects) && e.Scope() == k;
        assert e in b;
      }
      if Holds(b, k, projects) {
        var e :| e in b && Wanted(e, projects) && e.Scope() == k;
        assert e in a;
      }
    }
    DistinctSameElements(s, t);
    SortedUnique(s, t, ScopeAtMost);
  }
}
