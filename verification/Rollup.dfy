/** event_ledger.py, `aggregate`: the cross-project rollup, and why its totals are exact. */
module Rollup {
  import opened Lifecycle
  import opened EventFold
  import opened EventLedger
  import opened Sorting

  // ---- counters kept in dictionaries ----

  function At<K>(m: map<K, nat>, k: K): nat
  {
    if k in m then m[k] else 0
  }

  function Bump<K>(m: map<K, nat>, k: K): map<K, nat>
  {
    m[k := At(m, k) + 1]
  }

  ghost function Sum<K>(m: map<K, nat>): nat
  {
    if m == map[] then 0 else var k :| k in m; m[k] + Sum(m - {k})
  }

  lemma {:induction false} SumWithout<K>(m: map<K, nat>, k: K)
    requires k in m
    ensures Sum(m) == m[k] + Sum(m - {k})
    decreases m
  {
    var j :| j in m && Sum(m) == m[j] + Sum(m - {j});
    if j != k {
      SumWithout(m - {j}, k);
      SumWithout(m - {k}, j);
      assert m - {j} - {k} == m - {k} - {j};
    }
  }

  lemma SumBump<K>(m: map<K, nat>, k: K)
    ensures Sum(Bump(m, k)) == Sum(m) + 1
  {
    var b := Bump(m, k);
    SumWithout(b, k);
    if k in m {
      SumWithout(m, k);
      assert b - {k} == m - {k};
    } else {
      assert b - {k} == m;
    }
  }

  // ---- the rollup ----

  datatype Bucket = Bucket(workUnits: nat, events: nat, blocked: nat, terminal: nat, repairCycles: nat,
                           byState: map<State, nat>, byStage: map<Stage, nat>)

  const EMPTY := Bucket(0, 0, 0, 0, 0, map[], map[])

  datatype Totals = Totals(projects: map<string, Bucket>, overall: Bucket)

  function Counted(b: Bucket, p: Projection): Bucket
  {
    Bucket(b.workUnits + 1, b.events + p.eventCount,
           b.blocked + (if p.state == Blocked then 1 else 0), b.terminal + (if Terminal(p.state) then 1 else 0),
           b.repairCycles + p.repairCycles, Bump(b.byState, p.state), Bump(b.byStage, p.stage))
  }

  // ---- what the figures mean ----

  function Events(ps: seq<Projection>): nat
  {
    if ps == [] then 0 else Events(ps[..|ps| - 1]) + ps[|ps| - 1].eventCount
  }

  function Repairs(ps: seq<Projection>): nat
  {
    if ps == [] then 0 else Repairs(ps[..|ps| - 1]) + ps[|ps| - 1].repairCycles
  }

  function CountIf(ps: seq<Projection>, test: Projection -> bool): nat
  {
    if ps == [] then 0 else CountIf(ps[..|ps| - 1], test) + if test(ps[|ps| - 1]) then 1 else 0
  }

  function InState(ps: seq<Projection>, s: State): nat
  {
    CountIf(ps, (p: Projection) => p.state == s)
  }

  function InStage(ps: seq<Projection>, s: Stage): nat
  {
    CountIf(ps, (p: Projection) => p.stage == s)
  }

  ghost predicate Tallies(b: Bucket, ps: seq<Projection>)
  {
    b.workUnits == |ps| && b.events == Events(ps) && b.repairCycles == Repairs(ps) &&
    b.blocked == CountIf(ps, (p: Projection) => p.state == Blocked) &&
    b.terminal == CountIf(ps, (p: Projection) => Terminal(p.state)) &&
    (forall s :: At(b.byState, s) == InState(ps, s)) &&
    (forall s :: At(b.byStage, s) == InStage(ps, s)) &&
    Sum(b.byState) == |ps| && Sum(b.byStage) == |ps|
  }

  lemma TallyStep(b: Bucket, ps: seq<Projection>, p: Projection)
    requires Tallies(b, ps)
    ensures Tallies(Counted(b, p), ps + [p])
  {
    assert (ps + [p])[..|ps|] == ps;
    SumBump(b.byState, p.state);
    SumBump(b.byStage, p.stage);
    forall s ensures At(Bump(b.byState, p.state), s) == InState(ps + [p], s) {
      assert At(b.byState, s) == InState(ps, s);
    }
    forall s ensures At(Bump(b.byStage, p.stage), s) == InStage(ps + [p], s) {
      assert At(b.byStage, s) == InStage(ps, s);
    }
  }

  function OfProject(ps: seq<Projection>, project: string): seq<Projection>
  {
    Filter(ps, (p: Projection) => p.project == project)
  }

  lemma OfProjectStep(ps: seq<Projection>, p: Projection, project: string)
    ensures OfProject(ps + [p], project) == if p.project == project then OfProject(ps, project) + [p] else OfProject(ps, project)
  {
    FilterConcat(ps, [p], (q: Projection) => q.project == project);
    assert [p][1..] == [];
  }

  /** Each project's bucket tallies its own projections, and the totals tally all of them. */
  ghost predicate Accounts(t: Totals, ps: seq<Projection>)
  {
    Tallies(t.overall, ps) &&
    (forall name :: name in t.projects <==> OfProject(ps, name) != []) &&
    (forall name :: name in t.projects ==> Tallies(t.projects[name], OfProject(ps, name)))
  }

  method Aggregate(ps: seq<Projection>) returns (t: Totals)
    ensures Accounts(t, ps)
  {
    t := Totals(map[], EMPTY);
    for i := 0 to |ps|
      invariant Accounts(t, ps[..i])
    {
      var p := ps[i];
      assert ps[..i + 1] == ps[..i] + [p];
      var bucket := if p.project in t.projects then t.projects[p.project] else EMPTY;
      AccountStep(t, ps[..i], p, bucket);
      t := Totals(t.projects[p.project := Counted(bucket, p)], Counted(t.overall, p));
    }
    assert ps[..|ps|] == ps;
  }

  lemma AccountStep(t: Totals, ps: seq<Projection>, p: Projection, bucket: Bucket)
    requires Accounts(t, ps) && bucket == if p.project in t.projects then t.projects[p.project] else EMPTY
    ensures Accounts(Totals(t.projects[p.project := Counted(bucket, p)], Counted(t.overall, p)), ps + [p])
  {
    TallyStep(t.overall, ps, p);
    var grown := t.projects[p.project := Counted(bucket, p)];
    BucketStep(t, ps, p, bucket);
    forall name ensures name in grown <==> OfProject(ps + [p], name) != [] {
      OfProjectStep(ps, p, name);
    }
    forall name | name in grown ensures Tallies(grown[name], OfProject(ps + [p], name)) {
      OfProjectStep(ps, p, name);
    }
  }

  lemma BucketStep(t: Totals, ps: seq<Projection>, p: Projection, bucket: Bucket)
    requires Accounts(t, ps) && bucket == if p.project in t.projects then t.projects[p.project] else EMPTY
    ensures Tallies(Counted(bucket, p), OfProject(ps, p.project) + [p])
  {
    if p.project !in t.projects {
      assert OfProject(ps, p.project) == [];
      assert Tallies(EMPTY, []);
    }
    TallyStep(bucket, OfProject(ps, p.project), p);
  }

  // ---- the totals against the log itself ----

  function InScope(log: seq<Event>, projects: Projects): seq<Event>
  {
    Filter(log, (e: Event) => Wanted(e, projects))
  }

  function ScopeTotal(log: seq<Event>, scopes: seq<Scope>): nat
  {
    if scopes == [] then 0 else |OfScope(log, scopes[0])| + ScopeTotal(log, scopes[1..])
  }

  lemma {:induction false} ScopeTotalStep(log: seq<Event>, e: Event, scopes: seq<Scope>)
    requires Distinct(scopes)
    ensures ScopeTotal(log + [e], scopes) == ScopeTotal(log, scopes) + if e.Scope() in scopes then 1 else 0
  {
    if scopes != [] {
      ScopeTotalStep(log, e, scopes[1..]);
      OfScopeStep(log, e, scopes[0]);
      assert scopes == [scopes[0]] + scopes[1..];
      assert scopes[0] !in scopes[1..];
    }
  }

  lemma {:induction false} ScopesPartition(log: seq<Event>, scopes: seq<Scope>, projects: Projects)
    requires Distinct(scopes) && forall e :: e in log ==> (Wanted(e, projects) <==> e.Scope() in scopes)
    ensures ScopeTotal(log, scopes) == |InScope(log, projects)|
  {
    if log == [] {
      EmptyScopes(scopes);
    } else {
      var init, e := log[..|log| - 1], log[|log| - 1];
      assert log == init + [e];
      ScopesPartition(init, scopes, projects);
      ScopeTotalStep(init, e, scopes);
      FilterConcat(init, [e], (x: Event) => Wanted(x, projects));
      assert [e][1..] == [];
    }
  }

  lemma {:induction false} EmptyScopes(scopes: seq<Scope>)
    ensures ScopeTotal([], scopes) == 0
  {
    if scopes != [] { EmptyScopes(scopes[1..]); }
  }

  lemma {:induction false} EventsAreScopeTotal(log: seq<Event>, scopes: seq<Scope>, ps: seq<Projection>)
    requires |ps| == |scopes| && forall i :: 0 <= i < |ps| ==> ps[i].eventCount == |OfScope(log, scopes[i])|
    ensures Events(ps) == ScopeTotal(log, scopes)
  {
    if ps != [] {
      EventsAreScopeTotal(log, scopes[1..], ps[1..]);
      EventsFront(ps);
    }
  }

  lemma {:induction false} EventsFront(ps: seq<Projection>)
    requires ps != []
    ensures Events(ps) == ps[0].eventCount + Events(ps[1..])
  {
    if |ps| > 1 {
      EventsFront(ps[..|ps| - 1]);
      assert ps[..|ps| - 1][1..] == ps[1..][..|ps| - 2];
    } else {
      assert ps[..0] == [] && ps[1..] == [];
    }
  }

  /** The rollup of a ledger loses and invents nothing: its totals are the in-scope events, the
      in-scope units, and every unit counted in exactly one state and one stage. */
  lemma RollupConserves(log: seq<Event>, projects: Projects, scopes: seq<Scope>, r: Projections, rules: Rules, t: Totals)
    requires AreScopes(scopes, log, projects) && AreProjections(r, scopes, log, rules) && r.Several?
    requires Accounts(t, r.values)
    ensures t.overall.events == |InScope(log, projects)|
    ensures t.overall.workUnits == |scopes| == Sum(t.overall.byState) == Sum(t.overall.byStage)
  {
    forall i | 0 <= i < |scopes| ensures r.values[i].eventCount == |OfScope(log, scopes[i])| {
      var k := scopes[i];
      assert ProjectionOf(log, scopes[i], rules) == Folded(r.values[i]);
      ProjectionMeaning(log, k, rules);
      UnitEventsFacts(log, k);
      SortKeeps(OfScope(log, k), Earlier);
    }
    EventsAreScopeTotal(log, scopes, r.values);
    forall e | e in log ensures Wanted(e, projects) <==> e.Scope() in scopes {
      if e.Scope() in scopes {
        assert Holds(log, e.Scope(), projects);
      }
      if Wanted(e, projects) {
        assert Holds(log, e.Scope(), projects);
      }
    }
    ScopesPartition(log, scopes, projects);
  }
}
