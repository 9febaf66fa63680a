/** event_ledger.py, `_fold`: one work unit's events folded into its current state. */
module EventFold {
  import opened Lifecycle
  import opened Sorting
  import Text

  datatype Transition = Transition(sequence: nat, from: State, to: State, actor: string, actorKind: string,
                                   key: string, at: string, reason: string)

  datatype Activity = Activity(text: string, at: string, actor: string, agentId: string, model: string, worker: string)

  const IDLE := Activity("", "", "", "", "", "")

  datatype Projection = Projection(
    project: string, unit: string, state: State, stage: Stage, refs: WorkUnitRef,
    transitions: seq<Transition>, merged: set<string>, repairCycles: nat, blockedReason: string,
    dependsOn: set<string>, eventCount: nat, lastEventId: string, lastEventAt: string, activity: Activity)

  /** Which moves the transition table allows, and which references carry a credential. */
  datatype Rules = Rules(edge: (State, State) -> bool, leaky: string -> bool)

  datatype Outcome = Folded(value: Projection) | Refused

  function Or(a: string, b: string): string
  {
    if a != "" then a else b
  }

  /** `_merge_references`. */
  function MergeReferences(current: WorkUnitRef, incoming: WorkUnitRef): WorkUnitRef
  {
    WorkUnitRef(current.project, current.unit,
                Or(incoming.repository, current.repository), Or(incoming.issue, current.issue),
                Or(incoming.change, current.change), Or(incoming.workflow, current.workflow),
                Or(incoming.run, current.run), Or(incoming.supersededBy, current.supersededBy))
  }

  function Opening(first: Event): Projection
  {
    Projection(first.ref.project, first.ref.unit, Intake, IntakeStage,
               WorkUnitRef(first.ref.project, first.ref.unit, "", "", "", "", "", ""),
               [], {}, 0, "", {}, 0, "", "", IDLE)
  }

  function Elements(s: seq<string>): set<string>
  {
    set x | x in s
  }

  function ActivityOf(e: Event): Activity
  {
    Activity(e.activity, e.at, e.actor.name, e.actor.agentId, Or(e.actor.modelAlias, e.actor.model), e.actor.worker)
  }

  function NextTransitions(p: Projection, e: Event): seq<Transition>
  {
    if e.state == p.state then p.transitions
    else p.transitions + [TransitionBy(|p.transitions| + 1, p.state, e)]
  }

  function TransitionBy(sequence: nat, from: State, e: Event): Transition
  {
    Transition(sequence, from, e.state, e.actor.name, e.actor.kind, e.key, e.at, e.reason)
  }

  /** The references proven merged: captured only on the move into `Merged`, never if it leaks. */
  function NextMerged(p: Projection, e: Event, rules: Rules): set<string>
  {
    var change := Or(e.ref.change, p.refs.change);
    if e.state != p.state && e.state == Merged && change != "" && !rules.leaky(change) then p.merged + {change}
    else p.merged
  }

  function NextBlockedReason(p: Projection, e: Event): string
  {
    if e.state == p.state then p.blockedReason else if e.state == Blocked then e.reason else ""
  }

  function NextActivity(p: Projection, e: Event): Activity
  {
    if e.activity != "" then ActivityOf(e) else if e.state == p.state then p.activity else IDLE
  }

  /** One iteration of the fold on an event that may follow. */
  function Advance(p: Projection, e: Event, rules: Rules): Projection
  {
    Projection(p.project, p.unit, e.state, e.stage, MergeReferences(p.refs, e.ref),
               NextTransitions(p, e), NextMerged(p, e, rules),
               p.repairCycles + (if e.state != p.state && e.state == Repairing then 1 else 0),
               NextBlockedReason(p, e), p.dependsOn + Elements(e.dependsOn),
               p.eventCount + 1, e.id, e.at, NextActivity(p, e))
  }

  function Step(p: Projection, e: Event, rules: Rules): Outcome
  {
    if e.state != p.state && !rules.edge(p.state, e.state) then Refused else Folded(Advance(p, e, rules))
  }

  function FoldFrom(opening: Projection, events: seq<Event>, rules: Rules): Outcome
  {
    if events == [] then Folded(opening)
    else
      var before := FoldFrom(opening, events[..|events| - 1], rules);
      if before.Refused? then Refused else Step(before.value, events[|events| - 1], rules)
  }

  function FoldOf(events: seq<Event>, rules: Rules): Outcome
    requires events != []
  {
    if events[0].state != Intake then Refused else FoldFrom(Opening(events[0]), events, rules)
  }

  lemma {:induction false} RefusalStands(opening: Projection, events: seq<Event>, k: nat, rules: Rules)
    requires k <= |events| && FoldFrom(opening, events[..k], rules).Refused?
    ensures FoldFrom(opening, events, rules).Refused?
    decreases |events| - k
  {
    if k == |events| {
      assert events[..k] == events;
    } else {
      assert events[..k + 1][..k] == events[..k];
      RefusalStands(opening, events, k + 1, rules);
    }
  }

  /** `_fold`, stopping at the first event that cannot follow. */
  method Fold(events: seq<Event>, rules: Rules) returns (r: Outcome)
    requires events != []
    ensures r == FoldOf(events, rules)
  {
    if events[0].state != Intake {
      return Refused;
    }
    var p := Opening(events[0]);
    for k := 0 to |events|
      invariant FoldFrom(Opening(events[0]), events[..k], rules) == Folded(p)
    {
      assert events[..k + 1][..k] == events[..k];
      var next := Step(p, events[k], rules);
      if next.Refused? {
        RefusalStands(Opening(events[0]), events, k + 1, rules);
        return Refused;
      }
      p := next.value;
    }
    assert events[..|events|] == events;
    r := Folded(p);
  }

  // ---- what the events say, with no accumulator ----

  function StateAfter(events: seq<Event>): State
  {
    if events == [] then Intake else events[|events| - 1].state
  }

  /** Event `i` moves the unit to another state. */
  predicate Moves(events: seq<Event>, i: nat)
    requires i < |events|
  {
    events[i].state != StateAfter(events[..i])
  }

  /** Every move leaves a non-terminal state along an edge of the table. */
  ghost predicate LegalMoves(events: seq<Event>, rules: Rules)
  {
    forall i :: 0 <= i < |events| && Moves(events, i) ==>
      rules.edge(StateAfter(events[..i]), events[i].state)
  }

  /** The references an event may give. */
  datatype Reference = RepositoryRef | IssueRef | ChangeRef | WorkflowRef | RunRef | SuccessorRef

  function Given(ref: WorkUnitRef, which: Reference): string
  {
    match which
    case RepositoryRef => ref.repository
    case IssueRef => ref.issue
    case ChangeRef => ref.change
    case WorkflowRef => ref.workflow
    case RunRef => ref.run
    case SuccessorRef => ref.supersededBy
  }

  /** The reference in effect after the events: the one some event gave with none given after it, or empty when
      no event gave one. */
  ghost predicate InEffect(events: seq<Event>, which: Reference, value: string)
  {
    if value == "" then forall i :: 0 <= i < |events| ==> Given(events[i].ref, which) == ""
    else exists i :: 0 <= i < |events| && Given(events[i].ref, which) == value &&
           forall j :: i < j < |events| ==> Given(events[j].ref, which) == ""
  }

  lemma InEffectStep(init: seq<Event>, e: Event, which: Reference, value: string)
    requires InEffect(init, which, value)
    ensures InEffect(init + [e], which, if Given(e.ref, which) != "" then Given(e.ref, which) else value)
  {
    var events := init + [e];
    assert events[|init|] == e;
    if Given(e.ref, which) == "" && value != "" {
      var i :| 0 <= i < |init| && Given(init[i].ref, which) == value &&
        forall j :: i < j < |init| ==> Given(init[j].ref, which) == "";
      assert Given(events[i].ref, which) == value;
      forall j | i < j < |events| ensures Given(events[j].ref, which) == "" {
        assert j < |init| ==> events[j] == init[j];
      }
    }
  }

  /** There is one reference in effect. */
  lemma OneInEffect(events: seq<Event>, which: Reference, v: string, w: string)
    requires InEffect(events, which, v) && InEffect(events, which, w)
    ensures v == w
  {
    if v != "" && w != "" {
      var i :| 0 <= i < |events| && Given(events[i].ref, which) == v &&
        forall j :: i < j < |events| ==> Given(events[j].ref, which) == "";
      var k :| 0 <= k < |events| && Given(events[k].ref, which) == w &&
        forall j :: k < j < |events| ==> Given(events[j].ref, which) == "";
      assert i == k;
    }
  }

  function Entries(events: seq<Event>, s: State): nat
  {
    if events == [] then 0
    else Entries(events[..|events| - 1], s) +
         if Moves(events, |events| - 1) && events[|events| - 1].state == s then 1 else 0
  }

  /** Event `i` enters `Merged` while `ref` is the change request in effect. */
  ghost predicate MergesWith(events: seq<Event>, i: nat, ref: string)
  {
    i < |events| && Moves(events, i) && events[i].state == Merged &&
    ref != "" && InEffect(events[..i + 1], ChangeRef, ref)
  }

  ghost predicate MergeOf(events: seq<Event>, ref: string)
  {
    exists i: nat :: MergesWith(events, i, ref)
  }

  predicate QuietSince(events: seq<Event>, i: nat)
  {
    forall j :: i < j < |events| ==> !Moves(events, j)
  }

  /** The activity is the event's note, by its actor, under the model's alias if it has one. */
  predicate Notes(a: Activity, e: Event)
  {
    a.text == e.activity && a.at == e.at && a.actor == e.actor.name && a.agentId == e.actor.agentId &&
    a.worker == e.actor.worker && (e.actor.modelAlias != "" ==> a.model == e.actor.modelAlias) &&
    (e.actor.modelAlias == "" ==> a.model == e.actor.model)
  }

  /** The activity shown is the latest note left at or after the last move, if there is one. */
  ghost predicate ShowsActivity(p: Projection, events: seq<Event>)
  {
    if p.activity == IDLE then
      forall i :: 0 <= i < |events| && events[i].activity != "" ==> !QuietSince(events, i)
    else
      exists i :: 0 <= i < |events| && events[i].activity != "" && QuietSince(events, i) &&
        Notes(p.activity, events[i]) &&
        forall j :: i < j < |events| ==> events[j].activity == ""
  }

  lemma MovesPrefix(events: seq<Event>, n: nat, i: nat)
    requires i < n <= |events|
    ensures Moves(events[..n], i) == Moves(events, i)
  {
    assert events[..n][..i] == events[..i];
  }

  lemma LegalPrefix(events: seq<Event>, n: nat, rules: Rules)
    requires n <= |events| && LegalMoves(events, rules)
    ensures LegalMoves(events[..n], rules)
  {
    forall i | 0 <= i < n && Moves(events[..n], i)
      ensures rules.edge(StateAfter(events[..n][..i]), events[..n][i].state)
    {
      MovesPrefix(events, n, i);
      assert events[..n][..i] == events[..i];
    }
  }

  /** The fold accepts exactly the histories that open at intake and make only legal moves. */
  lemma {:induction false} FoldFromAccepts(opening: Projection, events: seq<Event>, rules: Rules)
    requires opening.state == Intake
    ensures FoldFrom(opening, events, rules).Folded? <==> LegalMoves(events, rules)
    ensures FoldFrom(opening, events, rules).Folded? ==> FoldFrom(opening, events, rules).value.state == StateAfter(events)
  {
    if events != [] {
      var n := |events| - 1;
      var init := events[..n];
      FoldFromAccepts(opening, init, rules);
      LegalLast(events, rules);
      var before := FoldFrom(opening, init, rules);
      if before.Folded? { StepVerdict(before.value, events[n], rules); }
    }
  }

  lemma LegalLast(events: seq<Event>, rules: Rules)
    requires events != []
    ensures var n := |events| - 1;
      LegalMoves(events, rules) <==>
      LegalMoves(events[..n], rules) && (Moves(events, n) ==> rules.edge(StateAfter(events[..n]), events[n].state))
  {
    var n := |events| - 1;
    if LegalMoves(events, rules) { LegalPrefix(events, n, rules); }
    if LegalMoves(events[..n], rules) {
      forall i | 0 <= i < n && Moves(events, i) ensures rules.edge(StateAfter(events[..i]), events[i].state) {
        MovesPrefix(events, n, i);
        assert events[..n][..i] == events[..i];
      }
    }
  }

  lemma StepVerdict(p: Projection, e: Event, rules: Rules)
    ensures Step(p, e, rules).Folded? <==> e.state == p.state || rules.edge(p.state, e.state)
    ensures Step(p, e, rules).Folded? ==> Step(p, e, rules).value.state == e.state
  {
  }

  lemma FoldAccepts(events: seq<Event>, rules: Rules)
    requires events != []
    ensures FoldOf(events, rules).Folded? <==> events[0].state == Intake && LegalMoves(events, rules)
    ensures FoldOf(events, rules).Folded? ==> FoldOf(events, rules).value.state == events[|events| - 1].state
  {
    FoldFromAccepts(Opening(events[0]), events, rules);
  }

  // ---- every field of a projection, read off the events ----

  ghost predicate LatestReferences(p: Projection, events: seq<Event>)
  {
    p.refs.project == p.project && p.refs.unit == p.unit &&
    forall which :: InEffect(events, which, Given(p.refs, which))
  }

  /** Some event names the dependency. */
  ghost predicate Named(events: seq<Event>, d: string)
  {
    exists e :: e in events && d in e.dependsOn
  }

  lemma NamedStep(init: seq<Event>, e: Event, d: string)
    ensures Named(init + [e], d) <==> Named(init, d) || d in e.dependsOn
  {
    var events := init + [e];
    assert e in events;
    if Named(init, d) {
      var f :| f in init && d in f.dependsOn;
      assert f in events;
    }
  }

  lemma EntriesStep(init: seq<Event>, e: Event, s: State)
    ensures Entries(init + [e], s) == Entries(init, s) + if e.state != StateAfter(init) && e.state == s then 1 else 0
  {
    assert (init + [e])[..|init|] == init;
  }

  ghost predicate Counts(p: Projection, events: seq<Event>)
  {
    p.repairCycles == Entries(events, Repairing) && p.eventCount == |events| &&
    (forall d :: d in p.dependsOn <==> Named(events, d)) &&
    (events != [] ==> p.stage == events[|events| - 1].stage && p.lastEventId == events[|events| - 1].id &&
                      p.lastEventAt == events[|events| - 1].at)
  }

  /** Merge proof is bound to the change request in effect when `Merged` was entered. */
  ghost predicate ProvesMerges(p: Projection, events: seq<Event>, rules: Rules)
  {
    forall ref :: ref in p.merged <==> MergeOf(events, ref) && !rules.leaky(ref)
  }

  /** Where the first `n` transitions lead. */
  function Arrival(trace: seq<Transition>, n: nat): State
    requires n <= |trace|
  {
    if n == 0 then Intake else trace[n - 1].to
  }

  /** Numbered 1..n from intake, each leaving where the one before arrived, each a legal edge. */
  ghost predicate Chained(trace: seq<Transition>, end: State, rules: Rules)
  {
    (forall i :: 0 <= i < |trace| ==> trace[i].sequence == i + 1) &&
    (forall i :: 0 <= i < |trace| ==> trace[i].from == Arrival(trace, i)) &&
    (forall i :: 0 <= i < |trace| ==> rules.edge(trace[i].from, trace[i].to) && trace[i].to != trace[i].from) &&
    end == Arrival(trace, |trace|)
  }

  /** The moves of a history, in order, as transition records. */
  function MovesOf(events: seq<Event>): seq<Transition>
  {
    if events == [] then []
    else
      var n := |events| - 1;
      var earlier := MovesOf(events[..n]);
      if Moves(events, n) then earlier + [TransitionBy(|earlier| + 1, StateAfter(events[..n]), events[n])]
      else earlier
  }

  /** Why the unit is blocked: the reason of the last move when that move entered blocked, and otherwise none. */
  function BlockedReasonOf(trace: seq<Transition>): string
  {
    if trace != [] && trace[|trace| - 1].to == Blocked then trace[|trace| - 1].reason else ""
  }

  ghost predicate Describes(p: Projection, events: seq<Event>, rules: Rules)
  {
    p.state == StateAfter(events) && p.transitions == MovesOf(events) && Chained(p.transitions, p.state, rules) &&
    p.blockedReason == BlockedReasonOf(p.transitions) &&
    LatestReferences(p, events) && Counts(p, events) && ProvesMerges(p, events, rules) && ShowsActivity(p, events)
  }

  lemma ReferencesStep(p: Projection, init: seq<Event>, e: Event, rules: Rules)
    requires LatestReferences(p, init)
    ensures LatestReferences(Advance(p, e, rules), init + [e])
  {
    var q := Advance(p, e, rules);
    forall which ensures InEffect(init + [e], which, Given(q.refs, which)) {
      InEffectStep(init, e, which, Given(p.refs, which));
    }
  }

  lemma CountsStep(p: Projection, init: seq<Event>, e: Event, rules: Rules)
    requires p.state == StateAfter(init) && Counts(p, init)
    ensures Counts(Advance(p, e, rules), init + [e])
  {
    var q := Advance(p, e, rules);
    EntriesStep(init, e, Repairing);
    forall d ensures d in q.dependsOn <==> Named(init + [e], d) { NamedStep(init, e, d); }
  }

  lemma MergesPrefix(events: seq<Event>, n: nat, i: nat, ref: string)
    requires i < n <= |events|
    ensures MergesWith(events[..n], i, ref) <==> MergesWith(events, i, ref)
  {
    MovesPrefix(events, n, i);
    assert events[..n][..i + 1] == events[..i + 1];
  }

  lemma MergeOfStep(init: seq<Event>, e: Event, ref: string)
    ensures MergeOf(init + [e], ref) <==> MergeOf(init, ref) || MergesWith(init + [e], |init|, ref)
  {
    var events := init + [e];
    assert events[..|init|] == init;
    if MergeOf(init, ref) {
      var i: nat :| MergesWith(init, i, ref);
      MergesPrefix(events, |init|, i, ref);
    }
    if MergeOf(events, ref) {
      var i: nat :| MergesWith(events, i, ref);
      if i < |init| { MergesPrefix(events, |init|, i, ref); }
    }
  }

  lemma MergesStep(p: Projection, init: seq<Event>, e: Event, rules: Rules)
    requires p.state == StateAfter(init) && LatestReferences(p, init) && ProvesMerges(p, init, rules)
    ensures ProvesMerges(Advance(p, e, rules), init + [e], rules)
  {
    var events := init + [e];
    assert events[..|init|] == init && events[..|init| + 1] == events;
    ReferencesStep(p, init, e, rules);
    var change := Given(Advance(p, e, rules).refs, ChangeRef);
    assert InEffect(events, ChangeRef, change);
    forall ref ensures ref in Advance(p, e, rules).merged <==> MergeOf(events, ref) && !rules.leaky(ref) {
      MergeOfStep(init, e, ref);
      if InEffect(events, ChangeRef, ref) { OneInEffect(events, ChangeRef, ref, change); }
    }
  }

  lemma QuietStep(init: seq<Event>, e: Event, i: nat)
    requires i < |init|
    ensures QuietSince(init + [e], i) <==> QuietSince(init, i) && !Moves(init + [e], |init|)
  {
    var events := init + [e];
    assert events[..|init|] == init;
    forall j | i < j < |init| ensures Moves(init, j) == Moves(events, j) { MovesPrefix(events, |init|, j); }
  }

  lemma ActivityStep(p: Projection, init: seq<Event>, e: Event, rules: Rules)
    requires p.state == StateAfter(init) && ShowsActivity(p, init)
    ensures ShowsActivity(Advance(p, e, rules), init + [e])
  {
    var events, n := init + [e], |init|;
    assert events[..n] == init;
    var q := Advance(p, e, rules);
    if e.activity != "" {
      assert events[n] == e && QuietSince(events, n) && Notes(q.activity, events[n]);
    } else if q.activity == IDLE {
      forall i | 0 <= i < |events| && events[i].activity != "" ensures !QuietSince(events, i) {
        QuietStep(init, e, i);
        assert init[i] == events[i];
      }
    } else {
      var i :| 0 <= i < n && init[i].activity != "" && QuietSince(init, i) && Notes(p.activity, init[i]) &&
        forall j :: i < j < n ==> init[j].activity == "";
      QuietStep(init, e, i);
      assert events[i] == init[i];
      forall j | i < j < |events| ensures events[j].activity == "" {
        assert j < n ==> events[j] == init[j];
      }
    }
  }

  lemma ChainGrows(trace: seq<Transition>, end: State, t: Transition, rules: Rules)
    requires Chained(trace, end, rules) && t.sequence == |trace| + 1 && t.from == end
    requires rules.edge(end, t.to) && t.to != end
    ensures Chained(trace + [t], t.to, rules)
  {
    var grown := trace + [t];
    forall i | 0 <= i < |grown| ensures grown[i].from == Arrival(grown, i) {
      assert i > 0 ==> grown[i - 1] == trace[i - 1];
      assert Arrival(grown, i) == Arrival(trace, i);
      assert i < |trace| ==> grown[i] == trace[i];
    }
  }

  lemma TraceStep(p: Projection, init: seq<Event>, e: Event, rules: Rules)
    requires p.state == StateAfter(init) && p.transitions == MovesOf(init) && Chained(p.transitions, p.state, rules)
    requires e.state == p.state || rules.edge(p.state, e.state)
    ensures NextTransitions(p, e) == MovesOf(init + [e])
    ensures Chained(NextTransitions(p, e), e.state, rules)
  {
    assert (init + [e])[..|init|] == init;
    if e.state != p.state {
      ChainGrows(p.transitions, p.state, TransitionBy(|p.transitions| + 1, p.state, e), rules);
    }
  }

  lemma AdvanceDescribes(p: Projection, init: seq<Event>, e: Event, rules: Rules)
    requires Describes(p, init, rules) && (e.state == p.state || rules.edge(p.state, e.state))
    ensures Describes(Advance(p, e, rules), init + [e], rules)
  {
    ReferencesStep(p, init, e, rules);
    CountsStep(p, init, e, rules);
    MergesStep(p, init, e, rules);
    ActivityStep(p, init, e, rules);
    TraceStep(p, init, e, rules);
  }

  lemma FoldGrows(opening: Projection, init: seq<Event>, e: Event, rules: Rules)
    requires FoldFrom(opening, init + [e], rules).Folded?
    ensures FoldFrom(opening, init, rules).Folded?
    ensures var p := FoldFrom(opening, init, rules).value;
      (e.state == p.state || rules.edge(p.state, e.state)) &&
      FoldFrom(opening, init + [e], rules).value == Advance(p, e, rules)
  {
    assert (init + [e])[..|init|] == init;
  }

  lemma FoldedBefore(opening: Projection, init: seq<Event>, e: Event, rules: Rules)
    requires FoldFrom(opening, init + [e], rules).Folded?
    ensures FoldFrom(opening, init, rules).Folded?
  {
    FoldGrows(opening, init, e, rules);
  }

  lemma DescribesGrown(opening: Projection, init: seq<Event>, e: Event, rules: Rules)
    requires FoldFrom(opening, init + [e], rules).Folded? && FoldFrom(opening, init, rules).Folded?
    requires Describes(FoldFrom(opening, init, rules).value, init, rules)
    ensures Describes(FoldFrom(opening, init + [e], rules).value, init + [e], rules)
  {
    FoldGrows(opening, init, e, rules);
    AdvanceDescribes(FoldFrom(opening, init, rules).value, init, e, rules);
  }

  lemma {:induction false} FoldDescribes(opening: Projection, events: seq<Event>, rules: Rules)
    requires Describes(opening, [], rules) && FoldFrom(opening, events, rules).Folded?
    ensures Describes(FoldFrom(opening, events, rules).value, events, rules)
  {
    if events != [] {
      var init, e := events[..|events| - 1], events[|events| - 1];
      assert events == init + [e];
      FoldedBefore(opening, init, e, rules);
      FoldDescribes(opening, init, rules);
      DescribesGrown(opening, init, e, rules);
    }
  }

  lemma {:induction false} FoldKeepsScope(opening: Projection, events: seq<Event>, rules: Rules)
    requires FoldFrom(opening, events, rules).Folded?
    ensures FoldFrom(opening, events, rules).value.project == opening.project
    ensures FoldFrom(opening, events, rules).value.unit == opening.unit
  {
    if events != [] {
      FoldKeepsScope(opening, events[..|events| - 1], rules);
    }
  }

  /** Everything an accepted fold promises: each field of the projection is what the events say. */
  lemma FoldMeaning(events: seq<Event>, rules: Rules)
    requires events != [] && FoldOf(events, rules).Folded?
    ensures Describes(FoldOf(events, rules).value, events, rules)
    ensures FoldOf(events, rules).value.project == events[0].ref.project
    ensures FoldOf(events, rules).value.unit == events[0].ref.unit
  {
    FoldDescribes(Opening(events[0]), events, rules);
    FoldKeepsScope(Opening(events[0]), events, rules);
  }

  lemma {:induction false} LastMove(events: seq<Event>) returns (c: nat)
    requires MovesOf(events) != []
    ensures c < |events| && QuietSince(events, c) && Moves(events, c)
    ensures MovesOf(events)[|MovesOf(events)| - 1].at == events[c].at
  {
    var n := |events| - 1;
    if Moves(events, n) {
      c := n;
    } else {
      var init := events[..n];
      c := LastMove(init);
      MovesPrefix(events, n, c);
      assert events == init + [events[n]];
      QuietStep(init, events[n], c);
    }
  }

  predicate Earlier(a: Event, b: Event)
  {
    Text.AtMost(a.at, b.at)
  }

  lemma QuietAfterMove(events: seq<Event>, c: nat, i: nat)
    requires c < |events| && Moves(events, c) && QuietSince(events, i)
    ensures c <= i
  {
  }

  lemma NeverEarlier(events: seq<Event>, c: nat, i: nat)
    requires Sorted(events, Earlier) && c <= i < |events|
    ensures Text.AtMost(events[c].at, events[i].at)
  {
    if c < i {
      assert Earlier(events[c], events[i]);
    } else {
      Text.AtMostTotal(events[c].at, events[c].at);
    }
  }

  lemma NotedAt(a: Activity, e: Event)
    requires Notes(a, e)
    ensures a.at == e.at
  {
  }

  lemma ShownAfterMove(p: Projection, events: seq<Event>)
    requires Sorted(events, Earlier) && ShowsActivity(p, events) && p.activity != IDLE && MovesOf(events) != []
    ensures Text.AtMost(MovesOf(events)[|MovesOf(events)| - 1].at, p.activity.at)
  {
    var i :| 0 <= i < |events| && QuietSince(events, i) && Notes(p.activity, events[i]);
    NotedAt(p.activity, events[i]);
    var c := LastMove(events);
    QuietAfterMove(events, c, i);
    NeverEarlier(events, c, i);
    assert MovesOf(events)[|MovesOf(events)| - 1].at == events[c].at;
  }

  lemma FoldShows(events: seq<Event>, rules: Rules)
    requires events != [] && FoldOf(events, rules).Folded?
    ensures FoldOf(events, rules).value.transitions == MovesOf(events) && ShowsActivity(FoldOf(events, rules).value, events)
  {
    FoldMeaning(events, rules);
  }

  /** Ephemeral activity never outlives a state change: what is shown is no older than the last one. */
  lemma ActivityNotStale(events: seq<Event>, rules: Rules)
    requires events != [] && Sorted(events, Earlier) && FoldOf(events, rules).Folded?
    ensures var p := FoldOf(events, rules).value;
      p.activity != IDLE && p.transitions != [] ==>
        Text.AtMost(p.transitions[|p.transitions| - 1].at, p.activity.at)
  {
    var p := FoldOf(events, rules).value;
    FoldShows(events, rules);
    if p.activity != IDLE && p.transitions != [] {
      ShownAfterMove(p, events);
    }
  }

  // ---- post-merge states need not follow a merge ----

  /** Some event before the `i`-th left the unit merged. */
  ghost predicate MergedBefore(events: seq<Event>, i: nat)
    requires i < |events|
  {
    exists j :: 0 <= j < i && events[j].state == Merged
  }

  /** Event `i` takes the unit from blocked straight into a release state. */
  predicate ReleasesBlocked(events: seq<Event>, i: nat)
    requires i < |events|
  {
    Moves(events, i) && StateAfter(events[..i]) == Blocked && Release(events[i].state)
  }

  /** Exactly when post-merge states follow a merge: every move out of blocked into a release state must itself
      come after one. */
  lemma ReleaseFollowsMergeExactly(events: seq<Event>, rules: Rules)
    requires rules.edge == FactoryEdge && LegalMoves(events, rules)
    ensures (forall i :: 0 <= i < |events| && Release(events[i].state) ==> MergedBefore(events, i)) <==>
            (forall i :: 0 <= i < |events| && ReleasesBlocked(events, i) ==> MergedBefore(events, i))
  {
    if forall i :: 0 <= i < |events| && ReleasesBlocked(events, i) ==> MergedBefore(events, i) {
      forall i | 0 <= i < |events| && Release(events[i].state) ensures MergedBefore(events, i) {
        GuardedReleaseFollowsMerge(events, i, rules);
      }
    }
  }

  lemma ReleaseEntries(s: State, t: State)
    requires FactoryEdge(s, t) && Release(t)
    ensures s == Merged || s == Blocked || Release(s)
  {
  }

  lemma {:induction false} GuardedReleaseFollowsMerge(events: seq<Event>, i: nat, rules: Rules)
    requires i < |events| && rules.edge == FactoryEdge && LegalMoves(events, rules) && Release(events[i].state)
    requires forall k :: 0 <= k < |events| && ReleasesBlocked(events, k) ==> MergedBefore(events, k)
    ensures MergedBefore(events, i)
  {
    assert StateAfter(events[..i]) == if i == 0 then Intake else events[i - 1].state;
    if Moves(events, i) { ReleaseEntries(StateAfter(events[..i]), events[i].state); }
    if !ReleasesBlocked(events, i) && i > 0 && events[i - 1].state != Merged {
      GuardedReleaseFollowsMerge(events, i - 1, rules);
    }
  }

  /** A release state is entered only after the unit was merged or blocked. */
  lemma {:induction false} ReleaseNeedsMergeOrBlock(events: seq<Event>, i: nat, rules: Rules)
    requires i < |events| && rules.edge == FactoryEdge && LegalMoves(events, rules) && Release(events[i].state)
    ensures exists j :: 0 <= j < i && (events[j].state == Merged || events[j].state == Blocked)
  {
    if i > 0 {
      assert StateAfter(events[..i]) == events[i - 1].state;
      if Moves(events, i) { ReleaseEntries(StateAfter(events[..i]), events[i].state); }
      if !Moves(events, i) || (events[i - 1].state != Merged && events[i - 1].state != Blocked) {
        ReleaseNeedsMergeOrBlock(events, i - 1, rules);
      }
    }
  }

  /** The source comment that post-merge states are reachable through `Merged` alone does not hold:
      a unit blocked straight out of triage goes `Live` legally with no merge in its history. */
  lemma LiveWithoutMerge(make: State -> Event, rules: Rules)
    requires rules.edge == FactoryEdge && forall s :: make(s).state == s
    ensures var events := [make(Intake), make(Triaged), make(Blocked), make(Live)];
            FoldOf(events, rules).Folded? && FoldOf(events, rules).value.state == Live &&
            forall ref :: !MergeOf(events, ref)
  {
    var events := [make(Intake), make(Triaged), make(Blocked), make(Live)];
    BlockedPathIsLegal(events, rules);
    FoldAccepts(events, rules);
    forall ref ensures !MergeOf(events, ref) { NoMergeUnmerged(events, ref); }
  }

  ghost predicate BlockedPath(events: seq<Event>)
  {
    |events| == 4 && events[0].state == Intake && events[1].state == Triaged && events[2].state == Blocked &&
    events[3].state == Live
  }

  lemma BlockedPathIsLegal(events: seq<Event>, rules: Rules)
    requires BlockedPath(events) && rules.edge == FactoryEdge
    ensures LegalMoves(events, rules)
  {
    forall i | 0 <= i < |events| && Moves(events, i) ensures rules.edge(StateAfter(events[..i]), events[i].state) {
      assert i > 0 ==> StateAfter(events[..i]) == events[i - 1].state;
      assert FactoryEdge(Intake, Triaged) && FactoryEdge(Triaged, Blocked) && FactoryEdge(Blocked, Live);
    }
  }

  lemma NoMergeUnmerged(events: seq<Event>, ref: string)
    requires BlockedPath(events)
    ensures !MergeOf(events, ref)
  {
    forall i: nat ensures !MergesWith(events, i, ref) { }
  }

  // ---- what stands before a merge ----

  ghost predicate PassedBefore(events: seq<Event>, i: nat, states: set<State>)
    requires i < |events|
  {
    exists j :: 0 <= j < i && events[j].state in states
  }

  /** The states work passes through on its way to a merge, in the order it passes them: each is entered from the one
      before it, or from a later one. */
  predicate BehindDispatch(s: State) { s in {Implementing, Verifying} || BehindVerification(s) }
  predicate BehindVerification(s: State) { s in {Reviewing, RepairNeeded, Repairing, ReReviewing} || s == ReadyForHumanMerge }

  lemma {:induction false} Reached(events: seq<Event>, i: nat, rules: Rules)
    requires i < |events| && rules.edge == FactoryEdge && LegalMoves(events, rules)
    ensures BehindDispatch(events[i].state) ==> PassedBefore(events, i, {Dispatched})
    ensures BehindVerification(events[i].state) ==> PassedBefore(events, i, {Verifying})
    ensures events[i].state == ReadyForHumanMerge ==> PassedBefore(events, i, {Reviewing, ReReviewing})
  {
    assert StateAfter(events[..i]) == if i == 0 then Intake else events[i - 1].state;
    if i > 0 {
      Reached(events, i - 1, rules);
      if Moves(events, i) { WayToMerge(StateAfter(events[..i]), events[i].state); }
    }
  }

  lemma WayToMerge(s: State, t: State)
    requires FactoryEdge(s, t)
    ensures BehindDispatch(t) ==> s == Dispatched || BehindDispatch(s)
    ensures BehindVerification(t) ==> s == Verifying || BehindVerification(s)
    ensures t == ReadyForHumanMerge ==> s in {Reviewing, ReReviewing}
    ensures t == Merged ==> s == ReadyForHumanMerge
  {
  }

  /** No change merges unverified or unreviewed: a legal history enters merged from the human merge gate only, after it
      was dispatched, verified, and reviewed. */
  lemma MergeNeedsReview(events: seq<Event>, i: nat, rules: Rules)
    requires i < |events| && rules.edge == FactoryEdge && LegalMoves(events, rules)
    requires Moves(events, i) && events[i].state == Merged
    ensures i > 0 && events[i - 1].state == ReadyForHumanMerge
    ensures PassedBefore(events, i, {Dispatched}) && PassedBefore(events, i, {Verifying})
    ensures PassedBefore(events, i, {Reviewing, ReReviewing})
  {
    assert StateAfter(events[..i]) == if i == 0 then Intake else events[i - 1].state;
    WayToMerge(StateAfter(events[..i]), events[i].state);
    Reached(events, i - 1, rules);
  }
}
