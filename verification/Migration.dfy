/** event_ledger.py, `events_from_orchestrator_document`: orchestrator state becomes ledger history. */
module Migration {
  import opened Lifecycle
  import opened EventFold
  import opened EventLedger
  import opened Sorting
  import Text

  datatype TransitionDoc = TransitionDoc(sequence: nat, from: State, to: State, actor: string, actorKind: string,
                                         key: string, at: string, reason: string)

  datatype UnitDoc = UnitDoc(id: string, createdAt: string, supersededBy: string, dependsOn: seq<string>,
                             transitions: seq<TransitionDoc>)

  datatype Into = Into(project: string, repository: string, source: string)

  /** `f"{n:04d}"`. */
  function Padded(n: nat): (s: string)
    ensures s != [] && Text.AllDigits(s)
  {
    var d := Text.Decimal(n);
    if |d| == 1 then "000" + d else if |d| == 2 then "00" + d else if |d| == 3 then "0" + d else d
  }

  function EventId(into: Into, unit: string, sequence: nat): string
  {
    into.project + ":" + unit + ":" + Padded(sequence)
  }

  function GenesisKey(u: UnitDoc): string
  {
    u.id + ":ledger-genesis"
  }

  function CreatedAt(u: UnitDoc): string
  {
    Or(u.createdAt, if u.transitions == [] then "" else u.transitions[0].at)
  }

  function References(into: Into, u: UnitDoc): WorkUnitRef
  {
    WorkUnitRef(into.project, u.id, into.repository, "", "", "", "", u.supersededBy)
  }

  function Genesis(into: Into, u: UnitDoc): Event
  {
    Event(EventId(into, u.id, 0), GenesisKey(u), References(into, u), IntakeStage, Intake, CreatedAt(u),
          Actor(into.source, "system", "", "", "", ""), "", "migrated from orchestration state", u.dependsOn, into.source)
  }

  function MoveEvent(into: Into, u: UnitDoc, t: TransitionDoc): Event
  {
    Event(EventId(into, u.id, t.sequence), t.key, References(into, u), StageFor(t.to), t.to, t.at,
          Actor(t.actor, t.actorKind, "", "", "", ""), "", t.reason, [], into.source)
  }

  function History(into: Into, u: UnitDoc): (h: seq<Event>)
    ensures |h| == |u.transitions| + 1 && h[0] == Genesis(into, u)
    ensures forall i :: 0 < i < |h| ==> h[i] == MoveEvent(into, u, u.transitions[i - 1])
  {
    [Genesis(into, u)] + seq(|u.transitions|, i requires 0 <= i < |u.transitions| => MoveEvent(into, u, u.transitions[i]))
  }

  function Histories(into: Into, units: seq<UnitDoc>): seq<Event>
  {
    if units == [] then [] else Histories(into, units[..|units| - 1]) + History(into, units[|units| - 1])
  }

  predicate UnitAtMost(a: UnitDoc, b: UnitDoc)
  {
    Text.AtMost(a.id, b.id)
  }

  datatype Migrated = Events(events: seq<Event>) | Invalid

  /** The timestamps the migration insists on; `stamp` is the RFC 3339 shape test. */
  ghost predicate Stamped(u: UnitDoc, stamp: string -> bool)
  {
    CreatedAt(u) != "" && stamp(CreatedAt(u)) && forall i :: 0 <= i < |u.transitions| ==> stamp(u.transitions[i].at)
  }

  ghost predicate AllStamped(units: seq<UnitDoc>, stamp: string -> bool)
  {
    units == [] || (AllStamped(units[..|units| - 1], stamp) && Stamped(units[|units| - 1], stamp))
  }

  lemma {:induction false} AllStampedMeans(units: seq<UnitDoc>, stamp: string -> bool)
    ensures AllStamped(units, stamp) <==> forall u :: u in units ==> Stamped(u, stamp)
  {
    if units != [] {
      var init, last := units[..|units| - 1], units[|units| - 1];
      AllStampedMeans(init, stamp);
      assert units == init + [last];
    }
  }

  method Migrate(units: seq<UnitDoc>, into: Into, stamp: string -> bool) returns (r: Migrated)
    ensures r.Events? <==> forall u :: u in units ==> Stamped(u, stamp)
    ensures r.Events? ==> r.events == Histories(into, Sort(units, UnitAtMost))
  {
    SortMembers(units, UnitAtMost);
    AllStampedMeans(Sort(units, UnitAtMost), stamp);
    r := MigrateInOrder(Sort(units, UnitAtMost), into, stamp);
  }

  /** The histories of a document stand by rising unit id. */
  lemma IdsRise(units: seq<UnitDoc>, i: nat, j: nat)
    requires i < j < |units|
    ensures |Sort(units, UnitAtMost)| == |units|
    ensures Text.AtMost(Sort(units, UnitAtMost)[i].id, Sort(units, UnitAtMost)[j].id)
  {
    Text.AtMostIsOrder();
    forall a: UnitDoc, b: UnitDoc ensures UnitAtMost(a, b) || UnitAtMost(b, a) { Text.AtMostTotal(a.id, b.id); }
    forall a: UnitDoc, b: UnitDoc, c: UnitDoc | UnitAtMost(a, b) && UnitAtMost(b, c) ensures UnitAtMost(a, c) {
      Text.AtMostTransitive(a.id, b.id, c.id);
    }
    SortSorted(units, UnitAtMost);
    SortKeeps(units, UnitAtMost);
    SameLength(Sort(units, UnitAtMost), units);
    assert UnitAtMost(Sort(units, UnitAtMost)[i], Sort(units, UnitAtMost)[j]);
  }

  /** The units one after another, stopping at the first that cannot be migrated. */
  method MigrateInOrder(units: seq<UnitDoc>, into: Into, stamp: string -> bool) returns (r: Migrated)
    ensures r.Events? <==> AllStamped(units, stamp)
    ensures r.Events? ==> r.events == Histories(into, units)
  {
    var events := [];
    for n := 0 to |units|
      invariant events == Histories(into, units[..n]) && AllStamped(units[..n], stamp)
    {
      var one := MigrateUnit(units[n], into, stamp);
      HistoriesGrow(into, units, n, stamp);
      if one.Invalid? {
        UnstampedStands(units, n + 1, stamp);
        return Invalid;
      }
      events := events + one.events;
    }
    assert units[..|units|] == units;
    r := Events(events);
  }

  lemma {:induction false} UnstampedStands(units: seq<UnitDoc>, k: nat, stamp: string -> bool)
    requires k <= |units| && !AllStamped(units[..k], stamp)
    ensures !AllStamped(units, stamp)
    decreases |units| - k
  {
    if k == |units| {
      assert units[..k] == units;
    } else {
      assert units[..k + 1][..k] == units[..k];
      UnstampedStands(units, k + 1, stamp);
    }
  }

  lemma HistoryGrows(into: Into, u: UnitDoc, k: nat)
    requires k < |u.transitions|
    ensures History(into, u)[..k + 2] == History(into, u)[..k + 1] + [MoveEvent(into, u, u.transitions[k])]
  {
    var whole := History(into, u);
    assert whole[k + 1] == MoveEvent(into, u, u.transitions[k]);
    assert whole[..k + 2] == whole[..k + 1] + [whole[k + 1]];
  }

  lemma WholeHistory(into: Into, u: UnitDoc)
    ensures History(into, u)[..|u.transitions| + 1] == History(into, u)
  {
  }

  lemma HistoriesGrow(into: Into, units: seq<UnitDoc>, n: nat, stamp: string -> bool)
    requires n < |units|
    ensures Histories(into, units[..n + 1]) == Histories(into, units[..n]) + History(into, units[n])
    ensures AllStamped(units[..n + 1], stamp) <==> AllStamped(units[..n], stamp) && Stamped(units[n], stamp)
  {
    assert units[..n + 1][..n] == units[..n];
  }

  method MigrateUnit(u: UnitDoc, into: Into, stamp: string -> bool) returns (r: Migrated)
    ensures r.Events? <==> Stamped(u, stamp)
    ensures r.Events? ==> r.events == History(into, u)
  {
    if CreatedAt(u) == "" || !stamp(CreatedAt(u)) {
      return Invalid;
    }
    var history := [Genesis(into, u)];
    assert History(into, u)[..1] == history;
    for k := 0 to |u.transitions|
      invariant history == History(into, u)[..k + 1]
      invariant forall i :: 0 <= i < k ==> stamp(u.transitions[i].at)
    {
      if !stamp(u.transitions[k].at) {
        return Invalid;
      }
      history := history + [MoveEvent(into, u, u.transitions[k])];
      HistoryGrows(into, u, k);
    }
    WholeHistory(into, u);
    r := Events(history);
  }

  type Edge = (State, State) -> bool

  // ---- what the orchestrator guarantees about a recorded unit ----

  /** Where the first `n` recorded transitions leave the unit. */
  function Reached(u: UnitDoc, n: nat): State
    requires n <= |u.transitions|
  {
    if n == 0 then Intake else u.transitions[n - 1].to
  }

  ghost predicate RecordedChain(u: UnitDoc, edge: Edge)
  {
    forall i :: 0 <= i < |u.transitions| ==>
      u.transitions[i].sequence == i + 1 &&
      u.transitions[i].from == Reached(u, i) &&
      edge(u.transitions[i].from, u.transitions[i].to) && u.transitions[i].to != u.transitions[i].from
  }

  ghost predicate RecordedInOrder(u: UnitDoc, into: Into)
  {
    Sorted(History(into, u), Earlier)
  }

  /** The idempotency key of the unit's event number `i`; number 0 is the genesis event. */
  function KeyAt(u: UnitDoc, i: nat): string
    requires i <= |u.transitions|
  {
    if i == 0 then GenesisKey(u) else u.transitions[i - 1].key
  }

  ghost predicate DistinctKeys(u: UnitDoc)
  {
    forall i, j :: 0 <= i < j <= |u.transitions| ==> KeyAt(u, i) != KeyAt(u, j)
  }

  /** The orchestrator's own records, field for field. */
  function Records(u: UnitDoc): (r: seq<Transition>)
    ensures |r| == |u.transitions|
  {
    seq(|u.transitions|, i requires 0 <= i < |u.transitions| =>
      var t := u.transitions[i];
      Transition(t.sequence, t.from, t.to, t.actor, t.actorKind, t.key, t.at, t.reason))
  }

  function FinalState(u: UnitDoc): State
  {
    Reached(u, |u.transitions|)
  }

  /** The fold's table allows every move the orchestrator allows, and the orchestrator never loops in place. */
  ghost predicate Extends(rules: Rules, edge: Edge)
  {
    forall a, b :: edge(a, b) ==> a != b && rules.edge(a, b)
  }

  lemma FactoryExtendsOrchestrator(leaky: string -> bool)
    ensures Extends(Rules(FactoryEdge, leaky), OrchestratorEdge)
  {
    forall a, b | OrchestratorEdge(a, b) ensures a != b && FactoryEdge(a, b) { OrchestratorEdgesKept(a, b); }
  }

  lemma MovesExtend(events: seq<Event>, n: nat)
    requires n < |events|
    ensures StateAfter(events[..n + 1]) == events[n].state
    ensures var earlier := MovesOf(events[..n]);
      MovesOf(events[..n + 1]) ==
      if events[n].state != StateAfter(events[..n])
      then earlier + [TransitionBy(|earlier| + 1, StateAfter(events[..n]), events[n])] else earlier
  {
    assert events[..n + 1][..n] == events[..n];
  }

  /** Event `k` moves the unit, and move number `k` is the one listed. */
  ghost predicate MovesAt(events: seq<Event>, moves: seq<Transition>, k: nat)
    requires 1 <= k < |events| && k <= |moves|
  {
    events[k].state != events[k - 1].state && TransitionBy(k, events[k - 1].state, events[k]) == moves[k - 1]
  }

  lemma {:induction false} ListedMoves(events: seq<Event>, moves: seq<Transition>, n: nat)
    requires |events| == |moves| + 1 && n <= |moves| && events[0].state == Intake
    requires forall k :: 1 <= k <= |moves| ==> MovesAt(events, moves, k)
    ensures MovesOf(events[..n + 1]) == moves[..n] && StateAfter(events[..n + 1]) == events[n].state
  {
    if n == 0 {
      assert events[..1][..0] == [];
    } else {
      ListedMoves(events, moves, n - 1);
      assert MovesAt(events, moves, n);
      MovesExtend(events, n);
      assert moves[..n] == moves[..n - 1] + [moves[n - 1]];
    }
  }

  lemma HistoryMoves(into: Into, u: UnitDoc, n: nat, edge: Edge)
    requires RecordedChain(u, edge) && n <= |u.transitions|
    ensures MovesOf(History(into, u)[..n + 1]) == Records(u)[..n]
    ensures StateAfter(History(into, u)[..n + 1]) == Reached(u, n)
  {
    forall k | 1 <= k <= |u.transitions| ensures MovesAt(History(into, u), Records(u), k) {
      RecordedMove(into, u, k, edge);
    }
    ListedMoves(History(into, u), Records(u), n);
  }

  /** Migrated event `n` moves the unit, by the transition recorded as number `n`. */
  lemma RecordedMove(into: Into, u: UnitDoc, n: nat, edge: Edge)
    requires RecordedChain(u, edge) && 1 <= n <= |u.transitions|
    ensures History(into, u)[n].state == Reached(u, n) != Reached(u, n - 1)
    ensures History(into, u)[n - 1].state == Reached(u, n - 1)
    ensures TransitionBy(n, Reached(u, n - 1), History(into, u)[n]) == Records(u)[n - 1]
  {
    assert u.transitions[n - 1].from == Reached(u, n - 1);
    assert History(into, u)[n] == MoveEvent(into, u, u.transitions[n - 1]);
  }

  lemma HistoryEdge(into: Into, u: UnitDoc, i: nat, edge: Edge)
    requires RecordedChain(u, edge) && i <= |u.transitions|
    ensures Moves(History(into, u), i) ==> edge(StateAfter(History(into, u)[..i]), History(into, u)[i].state)
  {
    var h := History(into, u);
    if i == 0 {
      assert h[..0] == [];
    } else {
      HistoryMoves(into, u, i - 1, edge);
      assert u.transitions[i - 1].from == StateAfter(h[..i]);
    }
  }

  lemma HistoryLegal(into: Into, u: UnitDoc, rules: Rules, edge: Edge)
    requires RecordedChain(u, edge) && Extends(rules, edge)
    ensures LegalMoves(History(into, u), rules)
  {
    var h := History(into, u);
    forall i | 0 <= i < |h| && Moves(h, i) ensures rules.edge(StateAfter(h[..i]), h[i].state) {
      HistoryEdge(into, u, i, edge);
    }
  }

  lemma HistoryWhole(into: Into, u: UnitDoc, edge: Edge)
    requires RecordedChain(u, edge)
    ensures MovesOf(History(into, u)) == Records(u) && StateAfter(History(into, u)) == FinalState(u)
  {
    HistoryMoves(into, u, |u.transitions|, edge);
    assert History(into, u)[..|u.transitions| + 1] == History(into, u);
    assert Records(u)[..|u.transitions|] == Records(u);
  }

  /** Folding a migrated unit gives back exactly the recorded transitions and the final state. */
  lemma MigratedFold(into: Into, u: UnitDoc, rules: Rules, edge: Edge)
    requires RecordedChain(u, edge) && Extends(rules, edge)
    ensures FoldOf(History(into, u), rules).Folded?
    ensures FoldOf(History(into, u), rules).value.transitions == Records(u)
    ensures FoldOf(History(into, u), rules).value.state == FinalState(u)
  {
    var h := History(into, u);
    HistoryLegal(into, u, rules, edge);
    FoldAccepts(h, rules);
    FoldMeaning(h, rules);
    HistoryWhole(into, u, edge);
  }

  lemma GivesWhatItHas(into: Into, u: UnitDoc, which: Reference, value: string)
    requires InEffect(History(into, u), which, value)
    ensures value == Given(References(into, u), which)
  {
    var h := History(into, u);
    assert h[0].ref == References(into, u);
    assert forall i :: 0 <= i < |h| ==> Given(h[i].ref, which) == Given(References(into, u), which);
  }

  lemma DependsOnGenesis(into: Into, u: UnitDoc)
    ensures forall d :: Named(History(into, u), d) <==> d in u.dependsOn
  {
    var h := History(into, u);
    forall d ensures Named(h, d) <==> d in u.dependsOn {
      if d in u.dependsOn { assert h[0] in h && d in h[0].dependsOn; }
      if e :| e in h && d in e.dependsOn {
        var i :| 0 <= i < |h| && h[i] == e;
        assert i == 0;
      }
    }
  }

  /** A migrated unit keeps its dependencies and its successor, stands in its target's stage, and carries the times it
      was created and last moved at, the creation time failing that of its first transition. */
  lemma MigratedKeeps(into: Into, u: UnitDoc, rules: Rules, edge: Edge)
    requires RecordedChain(u, edge) && Extends(rules, edge)
    ensures FoldOf(History(into, u), rules).Folded?
    ensures var p, n := FoldOf(History(into, u), rules).value, |u.transitions|;
      && (forall d :: d in p.dependsOn <==> d in u.dependsOn)
      && p.refs.repository == into.repository && p.refs.supersededBy == u.supersededBy
      && p.refs.change == "" && p.refs.issue == "" && p.project == into.project && p.unit == u.id
      && p.stage == StageFor(FinalState(u)) && p.eventCount == n + 1
      && (n > 0 ==> p.lastEventAt == u.transitions[n - 1].at)
      && (n == 0 ==> p.lastEventAt == u.createdAt)
    ensures History(into, u)[0].at ==
      if u.createdAt != "" then u.createdAt else if u.transitions != [] then u.transitions[0].at else ""
  {
    var h := History(into, u);
    MigratedFold(into, u, rules, edge);
    FoldMeaning(h, rules);
    DependsOnGenesis(into, u);
    var p := FoldOf(h, rules).value;
    MigratedReferences(into, u, p);
  }

  lemma MigratedReferences(into: Into, u: UnitDoc, p: Projection)
    requires LatestReferences(p, History(into, u))
    ensures p.refs.repository == into.repository && p.refs.supersededBy == u.supersededBy
    ensures p.refs.change == "" && p.refs.issue == ""
  {
    var h := History(into, u);
    assert InEffect(h, RepositoryRef, Given(p.refs, RepositoryRef));
    assert InEffect(h, SuccessorRef, Given(p.refs, SuccessorRef));
    assert InEffect(h, ChangeRef, Given(p.refs, ChangeRef));
    assert InEffect(h, IssueRef, Given(p.refs, IssueRef));
    GivesWhatItHas(into, u, RepositoryRef, Given(p.refs, RepositoryRef));
    GivesWhatItHas(into, u, SuccessorRef, Given(p.refs, SuccessorRef));
    GivesWhatItHas(into, u, ChangeRef, Given(p.refs, ChangeRef));
    GivesWhatItHas(into, u, IssueRef, Given(p.refs, IssueRef));
  }

  // ---- event ids separate units and sequence numbers ----

  lemma {:induction false} ValueOfZero(s: string)
    requires Text.AllDigits(s)
    ensures Text.AllDigits("0" + s) && Text.Value("0" + s) == Text.Value(s)
  {
    if s == [] {
      assert ("0" + s)[..0] == [];
    } else {
      ValueOfZero(s[..|s| - 1]);
      assert ("0" + s)[..|s|] == "0" + s[..|s| - 1];
    }
  }

  lemma PaddedInjective(m: nat, n: nat)
    requires Padded(m) == Padded(n)
    ensures m == n
  {
    PaddedValue(m);
    PaddedValue(n);
  }

  lemma PaddedValue(n: nat)
    ensures Text.Value(Padded(n)) == n
  {
    var d := Text.Decimal(n);
    Text.DecimalValue(n);
    ValueOfZero(d);
    ValueOfZero("0" + d);
    ValueOfZero("0" + ("0" + d));
    assert "00" + d == "0" + ("0" + d);
    assert "000" + d == "0" + ("0" + ("0" + d));
  }

  lemma EventIdInjective(into: Into, u: string, m: nat, v: string, n: nat)
    requires EventId(into, u, m) == EventId(into, v, n)
    ensures u == v && m == n
  {
    var p := into.project + ":";
    assert EventId(into, u, m) == (p + u) + [':'] + Padded(m);
    assert EventId(into, v, n) == (p + v) + [':'] + Padded(n);
    Text.DigitRunUnique(p + u, ':', Padded(m), p + v, ':', Padded(n));
    assert (p + u + [':'])[..|p + u|] == p + u && (p + v + [':'])[..|p + v|] == p + v;
    assert p + u == p + v;
    assert u == (p + u)[|p|..] && v == (p + v)[|p|..];
    PaddedInjective(m, n);
  }

  // ---- the whole document through the ledger ----

  /** What the orchestrator writes: each unit once, with its transitions numbered and chained. */
  ghost predicate Documented(units: seq<UnitDoc>, edge: Edge)
  {
    (forall u :: u in units ==> RecordedChain(u, edge)) &&
    (forall i, j :: 0 <= i < j < |units| ==> units[i].id != units[j].id)
  }

  /** What can be seen on the document besides: no unit uses a key twice or goes back in time. */
  ghost predicate Orderly(units: seq<UnitDoc>, into: Into)
  {
    forall u :: u in units ==> RecordedInOrder(u, into) && DistinctKeys(u)
  }

  ghost predicate Migratable(units: seq<UnitDoc>, into: Into, edge: Edge)
  {
    Documented(units, edge) && Orderly(units, into)
  }

  lemma {:induction false} HistoriesMembers(into: Into, units: seq<UnitDoc>)
    ensures forall e :: e in Histories(into, units) <==> exists u :: u in units && e in History(into, u)
  {
    if units != [] {
      var init, last := units[..|units| - 1], units[|units| - 1];
      HistoriesMembers(into, init);
      assert units == init + [last];
      forall e ensures e in Histories(into, units) <==> exists u :: u in units && e in History(into, u) {
        if e in Histories(into, init) {
          var u :| u in init && e in History(into, u);
          assert u in units;
        }
        if e in History(into, last) { assert last in units; }
      }
    }
  }

  lemma HistoryAt(into: Into, u: UnitDoc, i: nat, edge: Edge)
    requires RecordedChain(u, edge) && i <= |u.transitions|
    ensures History(into, u)[i].id == EventId(into, u.id, i)
    ensures KeyOf(History(into, u)[i]) == (into.project, u.id, KeyAt(u, i))
  {
  }

  lemma HistoryCompatible(into: Into, u: UnitDoc, i: nat, j: nat, edge: Edge)
    requires RecordedChain(u, edge) && DistinctKeys(u) && i < |History(into, u)| && j < |History(into, u)|
    requires var a, b := History(into, u)[i], History(into, u)[j]; KeyOf(a) == KeyOf(b) || a.id == b.id
    ensures i == j
  {
    HistoryAt(into, u, i, edge);
    HistoryAt(into, u, j, edge);
    if History(into, u)[i].id == History(into, u)[j].id {
      EventIdInjective(into, u.id, i, u.id, j);
    }
  }

  lemma UnitOfEvent(into: Into, u: UnitDoc, e: Event, edge: Edge)
    requires RecordedChain(u, edge) && e in History(into, u)
    ensures e.ref == References(into, u)
    ensures exists n: nat :: e.id == EventId(into, u.id, n)
  {
    var h := History(into, u);
    var i :| 0 <= i < |h| && h[i] == e;
    assert e.id == EventId(into, u.id, i);
  }

  lemma DocumentCompatible(into: Into, units: seq<UnitDoc>, edge: Edge)
    requires Migratable(units, into, edge)
    ensures Compatible(Histories(into, units))
  {
    HistoriesMembers(into, units);
    forall a, b | a in Histories(into, units) && b in Histories(into, units) && (KeyOf(a) == KeyOf(b) || a.id == b.id)
      ensures a == b
    {
      var u :| u in units && a in History(into, u);
      var v :| v in units && b in History(into, v);
      SameOrigin(into, u, a, v, b, edge);
      assert u == v;
      EventsOfUnitCompatible(into, u, a, b, edge);
    }
  }

  lemma EventsOfUnitCompatible(into: Into, u: UnitDoc, a: Event, b: Event, edge: Edge)
    requires RecordedChain(u, edge) && DistinctKeys(u) && a in History(into, u) && b in History(into, u)
    requires KeyOf(a) == KeyOf(b) || a.id == b.id
    ensures a == b
  {
    var i: nat :| i < |History(into, u)| && History(into, u)[i] == a;
    var j: nat :| j < |History(into, u)| && History(into, u)[j] == b;
    HistoryCompatible(into, u, i, j, edge);
  }

  /** Events that share a key or an id were migrated from one unit. */
  lemma SameOrigin(into: Into, u: UnitDoc, a: Event, v: UnitDoc, b: Event, edge: Edge)
    requires RecordedChain(u, edge) && RecordedChain(v, edge)
    requires a in History(into, u) && b in History(into, v) && (KeyOf(a) == KeyOf(b) || a.id == b.id)
    ensures u.id == v.id
  {
    UnitOfEvent(into, u, a, edge);
    UnitOfEvent(into, v, b, edge);
    var m: nat :| a.id == EventId(into, u.id, m);
    var n: nat :| b.id == EventId(into, v.id, n);
    if a.id == b.id { EventIdInjective(into, u.id, m, v.id, n); }
  }

  lemma {:induction false} DistinctAppends(events: seq<Event>, registry: set<string>)
    requires Distinct(events) && Compatible(events)
    requires forall e :: e in events ==> Registered(e, registry)
    ensures Recorded([], events, registry) == Kept(events)
  {
    if events != [] {
      var init, e := events[..|events| - 1], events[|events| - 1];
      assert events == init + [e];
      DistinctAppends(init, registry);
    }
  }

  lemma HistoryDistinct(into: Into, u: UnitDoc, edge: Edge)
    requires RecordedChain(u, edge)
    ensures Distinct(History(into, u))
  {
    var h := History(into, u);
    forall i, j | 0 <= i < j < |h| ensures h[i] != h[j] {
      if h[i] == h[j] {
        HistoryAt(into, u, i, edge);
        HistoryAt(into, u, j, edge);
        EventIdInjective(into, u.id, i, u.id, j);
      }
    }
  }

  lemma {:induction false} HistoriesDistinct(into: Into, units: seq<UnitDoc>, edge: Edge)
    requires Documented(units, edge)
    ensures Distinct(Histories(into, units))
  {
    if units != [] {
      var init, last := units[..|units| - 1], units[|units| - 1];
      assert units == init + [last];
      HistoriesDistinct(into, init, edge);
      HistoriesMembers(into, init);
      HistoryDistinct(into, last, edge);
      var earlier, h := Histories(into, init), History(into, last);
      forall e | e in earlier ensures e !in h {
        var u :| u in init && e in History(into, u);
        UnitOfEvent(into, u, e, edge);
        if e in h { UnitOfEvent(into, last, e, edge); }
      }
      DistinctConcat(earlier, h);
    }
  }

  lemma HistoriesOfLast(into: Into, units: seq<UnitDoc>, scope: Scope, edge: Edge)
    requires Documented(units, edge) && units != []
    ensures var init, last := units[..|units| - 1], units[|units| - 1];
      Documented(init, edge) &&
      OfScope(Histories(into, units), scope) ==
        OfScope(Histories(into, init), scope) + if scope == (into.project, last.id) then History(into, last) else []
  {
    var init, last := units[..|units| - 1], units[|units| - 1];
    assert units == init + [last];
    FilterConcat(Histories(into, init), History(into, last), (e: Event) => e.Scope() == scope);
    HistoryScope(into, last, scope, edge);
  }

  lemma {:induction false} HistoriesWithoutUnit(into: Into, units: seq<UnitDoc>, id: string, edge: Edge)
    requires Documented(units, edge) && forall v :: v in units ==> v.id != id
    ensures OfScope(Histories(into, units), (into.project, id)) == []
  {
    if units != [] {
      HistoriesOfLast(into, units, (into.project, id), edge);
      HistoriesWithoutUnit(into, units[..|units| - 1], id, edge);
    }
  }

  lemma {:induction false} HistoriesOfUnit(into: Into, units: seq<UnitDoc>, u: UnitDoc, edge: Edge)
    requires Documented(units, edge) && u in units
    ensures OfScope(Histories(into, units), (into.project, u.id)) == History(into, u)
  {
    var init, last := units[..|units| - 1], units[|units| - 1];
    assert units == init + [last];
    HistoriesOfLast(into, units, (into.project, u.id), edge);
    if u == last {
      forall v | v in init ensures v.id != u.id {
        var i :| 0 <= i < |init| && init[i] == v;
        assert units[i] == v;
      }
      HistoriesWithoutUnit(into, init, u.id, edge);
    } else {
      HistoriesOfUnit(into, init, u, edge);
      var i :| 0 <= i < |init| && init[i] == u;
      assert units[i] == u && u.id != last.id;
    }
  }

  lemma HistoryScope(into: Into, u: UnitDoc, scope: Scope, edge: Edge)
    requires RecordedChain(u, edge)
    ensures OfScope(History(into, u), scope) == if scope == (into.project, u.id) then History(into, u) else []
  {
    var h := History(into, u);
    forall e | e in h ensures e.Scope() == (into.project, u.id) { UnitOfEvent(into, u, e, edge); }
    ScopeAllOrNone(h, scope, (into.project, u.id));
  }

  lemma {:induction false} ScopeAllOrNone(h: seq<Event>, scope: Scope, own: Scope)
    requires forall e :: e in h ==> e.Scope() == own
    ensures OfScope(h, scope) == if scope == own then h else []
  {
    if h != [] {
      assert h == [h[0]] + h[1..];
      ScopeAllOrNone(h[1..], scope, own);
    }
  }

  /** Migration is lossless: a whole document enters an empty ledger without a conflict, every unit's
      projection is its recorded history, and migrating the document again appends nothing. */
  lemma MigrationLossless(units: seq<UnitDoc>, into: Into, registry: set<string>, rules: Rules, edge: Edge)
    requires Migratable(units, into, edge) && Extends(rules, edge)
    requires registry == {} || into.project in registry
    ensures var log := Histories(into, units);
      Recorded([], log, registry) == Kept(log) && Recorded(log, log, registry) == Kept(log) &&
      forall u :: u in units ==>
        var r := ProjectionOf(log, (into.project, u.id), rules);
        r.Folded? && r.value.transitions == Records(u) && r.value.state == FinalState(u) &&
        r.value.stage == StageFor(FinalState(u)) && r.value.refs.supersededBy == u.supersededBy &&
        forall d :: d in r.value.dependsOn <==> d in u.dependsOn
  {
    var log := Histories(into, units);
    DocumentCompatible(into, units, edge);
    HistoriesDistinct(into, units, edge);
    HistoriesMembers(into, units);
    forall e | e in log ensures Registered(e, registry) {
      var u :| u in units && e in History(into, u);
      UnitOfEvent(into, u, e, edge);
    }
    DistinctAppends(log, registry);
    ReplayAppendsNothing(log, log, registry);
    forall u | u in units
      ensures var r := ProjectionOf(log, (into.project, u.id), rules);
        r.Folded? && r.value.transitions == Records(u) && r.value.state == FinalState(u) &&
        r.value.stage == StageFor(FinalState(u)) && r.value.refs.supersededBy == u.supersededBy &&
        forall d :: d in r.value.dependsOn <==> d in u.dependsOn
    {
      var scope := (into.project, u.id);
      HistoriesOfUnit(into, units, u, edge);
      UnitEventsFacts(log, scope);
      SortOfSorted(History(into, u), Earlier);
      MigratedFold(into, u, rules, edge);
      MigratedKeeps(into, u, rules, edge);
    }
  }

  // ---- what a lossless migration asks of the document ----

  /** The document enters an empty ledger, and every unit projects to its recorded history. */
  ghost predicate Lossless(units: seq<UnitDoc>, into: Into, registry: set<string>, rules: Rules)
  {
    var r := Recorded([], Histories(into, units), registry);
    r.Kept? && forall u :: u in units ==> ProjectsBack(r.events, u, into, rules)
  }

  ghost predicate ProjectsBack(log: seq<Event>, u: UnitDoc, into: Into, rules: Rules)
  {
    var p := ProjectionOf(log, (into.project, u.id), rules);
    p.Folded? && p.value.transitions == Records(u) && p.value.state == FinalState(u)
  }

  lemma AcceptedKeysAreDistinct(units: seq<UnitDoc>, into: Into, u: UnitDoc, edge: Edge)
    requires Documented(units, edge) && Compatible(Histories(into, units)) && u in units
    ensures DistinctKeys(u)
  {
    var h := History(into, u);
    HistoriesMembers(into, units);
    forall i, j | 0 <= i < j <= |u.transitions| ensures KeyAt(u, i) != KeyAt(u, j) {
      HistoryAt(into, u, i, edge);
      HistoryAt(into, u, j, edge);
      assert h[i] in h && h[j] in h;
      if h[i].id == h[j].id { EventIdInjective(into, u.id, i, u.id, j); }
    }
  }

  /** A history that opens without a move makes at most one move an event, and its moves then name their events. */
  lemma {:induction false} MovesNameEvents(events: seq<Event>, n: nat)
    requires 1 <= n <= |events| && events[0].state == Intake
    ensures |MovesOf(events[..n])| <= n - 1
    ensures |MovesOf(events[..n])| == n - 1 ==>
      forall k :: 1 <= k < n ==> MovesOf(events[..n])[k - 1].key == events[k].key
  {
    MovesExtend(events, n - 1);
    if n == 1 {
      assert events[..0] == [];
    } else {
      MovesNameEvents(events, n - 1);
      NamesGrow(MovesOf(events[..n - 1]), MovesOf(events[..n]), events, n);
    }
  }

  lemma NamesGrow(before: seq<Transition>, after: seq<Transition>, events: seq<Event>, n: nat)
    requires 2 <= n <= |events| && |before| <= n - 2
    requires after == before || (|after| == |before| + 1 && after[..|before|] == before && after[|before|].key == events[n - 1].key)
    requires |before| == n - 2 ==> forall k :: 1 <= k < n - 1 ==> before[k - 1].key == events[k].key
    ensures |after| == n - 1 ==> forall k :: 1 <= k < n ==> after[k - 1].key == events[k].key
  {
    if |after| == n - 1 {
      forall k | 1 <= k < n ensures after[k - 1].key == events[k].key {
        assert k < n - 1 ==> after[k - 1] == before[k - 1];
      }
    }
  }

  lemma MovesKeys(events: seq<Event>)
    requires events != [] && events[0].state == Intake && |MovesOf(events)| == |events| - 1
    ensures forall k :: 1 <= k < |events| ==> events[k].key == MovesOf(events)[k - 1].key
  {
    MovesNameEvents(events, |events|);
    assert events[..|events|] == events;
  }

  lemma FoldOpens(events: seq<Event>, rules: Rules)
    requires events != [] && FoldOf(events, rules).Folded?
    ensures events[0].state == Intake && FoldOf(events, rules).value.transitions == MovesOf(events)
  {
    FoldShows(events, rules);
  }

  lemma RecordKeys(into: Into, u: UnitDoc, edge: Edge)
    requires RecordedChain(u, edge)
    ensures forall k :: 0 <= k <= |u.transitions| ==> History(into, u)[k].key == KeyAt(u, k)
    ensures forall k :: 1 <= k <= |u.transitions| ==> Records(u)[k - 1].key == KeyAt(u, k)
  {
  }

  lemma LastOneFits(a: seq<Event>, b: seq<Event>)
    requires multiset(a) == multiset(b) && a != [] && b != [] && a[1..] == b[1..]
    ensures a == b
  {
    TailMultiset(a);
    TailMultiset(b);
    assert a[0] in multiset(b) && b[0] in multiset(a);
    assert multiset(a) == multiset(a[1..]) + multiset{a[0]} && multiset(b) == multiset(b[1..]) + multiset{b[0]};
    assert multiset{a[0]} == multiset{b[0]};
    assert a[0] in multiset{b[0]};
    assert a == [a[0]] + a[1..] && b == [b[0]] + b[1..];
  }

  lemma KeyedInOrder(a: seq<Event>, b: seq<Event>)
    requires multiset(a) == multiset(b) && a != [] && |a| == |b|
    requires forall i, j :: 0 <= i < j < |b| ==> b[i].key != b[j].key
    requires forall k :: 1 <= k < |a| ==> a[k].key == b[k].key
    ensures a == b
  {
    forall k | 1 <= k < |a| ensures a[k] == b[k] {
      assert a[k] in multiset(b);
      var i: nat :| i < |b| && b[i] == a[k];
    }
    assert a[1..] == b[1..];
    LastOneFits(a, b);
  }

  /** Events that fold to the recorded transitions are the recorded events in their order. */
  lemma FoldsBackInOrder(events: seq<Event>, u: UnitDoc, into: Into, rules: Rules, edge: Edge)
    requires RecordedChain(u, edge) && DistinctKeys(u) && multiset(events) == multiset(History(into, u))
    requires events != [] && FoldOf(events, rules).Folded? && FoldOf(events, rules).value.transitions == Records(u)
    ensures events == History(into, u)
  {
    SameLength(events, History(into, u));
    FoldOpens(events, rules);
    MovesKeys(events);
    RecordKeys(into, u, edge);
    KeyedInOrder(events, History(into, u));
  }

  lemma LosslessIsOrderly(units: seq<UnitDoc>, into: Into, registry: set<string>, rules: Rules, edge: Edge)
    requires Documented(units, edge) && Lossless(units, into, registry, rules)
    ensures Orderly(units, into)
  {
    var log := Histories(into, units);
    RecordedAccepts(log, registry);
    HistoriesDistinct(into, units, edge);
    DistinctAppends(log, registry);
    forall u | u in units ensures RecordedInOrder(u, into) && DistinctKeys(u) {
      var scope := (into.project, u.id);
      AcceptedKeysAreDistinct(units, into, u, edge);
      assert ProjectsBack(log, u, into, rules);
      UnitEventsFacts(log, scope);
      HistoriesOfUnit(into, units, u, edge);
      SortKeeps(History(into, u), Earlier);
      FoldsBackInOrder(UnitEvents(log, scope), u, into, rules, edge);
    }
  }

  /** A document migrates without loss if and only if no unit uses an event key twice, its genesis key included,
      or records its events out of the order of their timestamps. */
  lemma LosslessExactlyWhenOrderly(units: seq<UnitDoc>, into: Into, registry: set<string>, rules: Rules, edge: Edge)
    requires Documented(units, edge) && Extends(rules, edge)
    requires registry == {} || into.project in registry
    ensures Lossless(units, into, registry, rules) <==> Orderly(units, into)
  {
    if Orderly(units, into) {
      MigrationLossless(units, into, registry, rules, edge);
    }
    if Lossless(units, into, registry, rules) {
      LosslessIsOrderly(units, into, registry, rules, edge);
    }
  }

  /** Sequence numbers are written with four digits, or with as many as they need. */
  lemma PaddedToFour(n: nat)
    ensures |Padded(n)| >= 4 && (|Padded(n)| > 4 ==> Padded(n) == Text.Decimal(n))
  {
  }
}
