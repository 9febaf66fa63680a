/** dispatcher.py: what holds over any sequence of dispatches, restarts, and outside changes to the work units. */
module DispatchRuns {
  import opened Options
  import opened Lifecycle
  import opened Dispatch
  import Text

  /** The journal outlives a restart; the work units may be anything afterwards. */
  datatype Action = Deliver(e: WorkEvent, timestamp: string) | Reload(units: seq<Unit>)

  datatype World = World(rows: seq<Row>, units: seq<Unit>)

  function Act(policy: Policy, w: World, a: Action): World
  {
    match a
    case Reload(units) => World(w.rows, units)
    case Deliver(e, timestamp) =>
      var step := DispatchOnce(policy, w.rows, w.units, e, timestamp);
      World(step.rows, step.units)
  }

  /** From an empty journal. */
  function Run(policy: Policy, initial: seq<Unit>, actions: seq<Action>): World
  {
    if actions == [] then World([], initial)
    else Act(policy, Run(policy, initial, actions[..|actions| - 1]), actions[|actions| - 1])
  }

  /** What the dispatch at place `i` of a run did. */
  function StepAt(policy: Policy, initial: seq<Unit>, actions: seq<Action>, i: nat): Step
    requires i < |actions| && actions[i].Deliver?
  {
    var w := Run(policy, initial, actions[..i]);
    DispatchOnce(policy, w.rows, w.units, actions[i].e, actions[i].timestamp)
  }

  // ---- the journal ----

  ghost predicate JournalSound(rows: seq<Row>)
  {
    && (forall i, j :: 0 <= i < j < |rows| ==> rows[i].decision.eventKey != rows[j].decision.eventKey)
    && (forall r :: r in rows ==> (r.decision.accepted <==> r.decision.unitId != ""))
    && (forall r :: r in rows ==> !Text.Blank(r.timestamp))
    && (forall q, r :: q in rows && r in rows && q.decision.unitId == r.decision.unitId != "" ==>
          q.decision.status == r.decision.status)
  }

  lemma UnitIdNotEmpty(e: WorkEvent)
    requires e.number.Some?
    ensures UnitId(e) != ""
  {
    assert UnitId(e)[|e.provider|] == ':';
  }

  /** A decided dispatch either repeats the row of its event or adds one row for it. */
  lemma StepAddsOneRow(policy: Policy, rows: seq<Row>, units: seq<Unit>, e: WorkEvent, timestamp: string)
    ensures var step := DispatchOnce(policy, rows, units, e, timestamp);
      match step.outcome
      case DispatchError => step.rows == rows
      case Decided(d) =>
        !Text.Blank(timestamp) &&
        match FindEvent(rows, Fingerprint(e, policy))
        case Some(row) => d == row.decision && step.rows == rows && step.created.None?
        case None => d.eventKey == Fingerprint(e, policy) && step.rows == rows + [Row(d, timestamp)]
  {
  }

  /** The unit named by a new row: none, or the event's, in the state its rows already carry. */
  lemma NewRowStatus(policy: Policy, rows: seq<Row>, units: seq<Unit>, e: WorkEvent, timestamp: string, d: Decision)
    requires JournalSound(rows) && FindEvent(rows, Fingerprint(e, policy)).None?
    requires DispatchOnce(policy, rows, units, e, timestamp).outcome == Decided(d)
    ensures d.accepted <==> d.unitId != ""
    ensures d.accepted ==> e.number.Some? && d.unitId == UnitId(e)
    ensures d.accepted ==> forall r :: r in rows && r.decision.unitId == d.unitId ==> r.decision.status == d.status
    ensures DispatchOnce(policy, rows, units, e, timestamp).created.Some? <==>
            d.accepted && LatestOfUnit(rows, d.unitId).None?
  {
    if d.accepted {
      UnitIdNotEmpty(e);
      LatestMeans(rows, UnitId(e));
    }
    if Addressable(e) { AdmitShape(policy, rows, units, e, timestamp); }
  }

  lemma AdmitShape(policy: Policy, rows: seq<Row>, units: seq<Unit>, e: WorkEvent, timestamp: string)
    requires e.number.Some?
    ensures var step := Admit(policy, rows, units, e, timestamp);
      step.created == Some(UnitId(e)) &&
      (step.outcome.Decided? ==> step.outcome.decision.accepted && step.outcome.decision.unitId == UnitId(e))
  {
  }

  lemma StepKeepsJournal(policy: Policy, rows: seq<Row>, units: seq<Unit>, e: WorkEvent, timestamp: string)
    requires JournalSound(rows)
    ensures JournalSound(DispatchOnce(policy, rows, units, e, timestamp).rows)
  {
    var step := DispatchOnce(policy, rows, units, e, timestamp);
    StepAddsOneRow(policy, rows, units, e, timestamp);
    FindEventMeans(rows, Fingerprint(e, policy));
    if step.rows != rows {
      NewRowStatus(policy, rows, units, e, timestamp, step.outcome.decision);
    }
  }

  /** Every row with a unit is accepted, all rows of a unit carry one state whatever order their timestamps
      come in, and no event has two rows. */
  lemma {:induction false} RunJournalSound(policy: Policy, initial: seq<Unit>, actions: seq<Action>)
    ensures JournalSound(Run(policy, initial, actions).rows)
  {
    if actions != [] {
      var before, last := actions[..|actions| - 1], actions[|actions| - 1];
      RunJournalSound(policy, initial, before);
      var w := Run(policy, initial, before);
      if last.Deliver? { StepKeepsJournal(policy, w.rows, w.units, last.e, last.timestamp); }
    }
  }

  lemma {:induction false} JournalGrows(policy: Policy, initial: seq<Unit>, actions: seq<Action>, i: nat)
    requires i <= |actions|
    ensures Run(policy, initial, actions[..i]).rows <= Run(policy, initial, actions).rows
    decreases |actions| - i
  {
    if i == |actions| {
      assert actions[..i] == actions;
    } else {
      JournalGrows(policy, initial, actions, i + 1);
      assert actions[..i + 1][..i] == actions[..i];
      var w := Run(policy, initial, actions[..i]);
      if actions[i].Deliver? { StepAddsOneRow(policy, w.rows, w.units, actions[i].e, actions[i].timestamp); }
    }
  }

  lemma {:induction false} FoundStaysFound(rows: seq<Row>, more: seq<Row>, key: string)
    requires rows <= more && FindEvent(rows, key).Some?
    ensures FindEvent(more, key) == FindEvent(rows, key)
    decreases |more|
  {
    if rows[0].decision.eventKey != key {
      FoundStaysFound(rows[1..], more[1..], key);
    }
  }

  /** The journal a later dispatch meets holds the row of every earlier decision. */
  lemma RowSurvives(policy: Policy, initial: seq<Unit>, actions: seq<Action>, i: nat, j: nat)
    requires i < j < |actions| && actions[i].Deliver? && StepAt(policy, initial, actions, i).outcome.Decided?
    ensures var found := FindEvent(Run(policy, initial, actions[..j]).rows, Fingerprint(actions[i].e, policy));
      found.Some? && found.value.decision == StepAt(policy, initial, actions, i).outcome.decision &&
      found.value in Run(policy, initial, actions[..j]).rows
  {
    var w, key := Run(policy, initial, actions[..i]), Fingerprint(actions[i].e, policy);
    var step := StepAt(policy, initial, actions, i);
    StepAddsOneRow(policy, w.rows, w.units, actions[i].e, actions[i].timestamp);
    FindAfterAppend(w.rows, Row(step.outcome.decision, actions[i].timestamp), key);
    assert actions[..i + 1][..i] == actions[..i];
    assert Run(policy, initial, actions[..i + 1]).rows == step.rows;
    assert actions[..j][..i + 1] == actions[..i + 1];
    JournalGrows(policy, initial, actions[..j], i + 1);
    FoundStaysFound(step.rows, Run(policy, initial, actions[..j]).rows, key);
    FindEventMeans(Run(policy, initial, actions[..j]).rows, key);
  }

  /** Events with one fingerprint get one decision, the first recorded, and a replay changes nothing. */
  lemma EqualEventsOneDecision(policy: Policy, initial: seq<Unit>, actions: seq<Action>, i: nat, j: nat)
    requires i < j < |actions| && actions[i].Deliver? && actions[j].Deliver?
    requires Fingerprint(actions[i].e, policy) == Fingerprint(actions[j].e, policy)
    requires StepAt(policy, initial, actions, i).outcome.Decided? && !Text.Blank(actions[j].timestamp)
    ensures var w := Run(policy, initial, actions[..j]);
      StepAt(policy, initial, actions, j) ==
      Step(StepAt(policy, initial, actions, i).outcome, w.rows, w.units, None)
  {
    RowSurvives(policy, initial, actions, i, j);
  }

  /** A unit that was created and journaled is never created again, over any restart. */
  lemma DecidedUnitsAreCreatedOnce(policy: Policy, initial: seq<Unit>, actions: seq<Action>, i: nat, j: nat)
    requires i < j < |actions| && actions[i].Deliver? && actions[j].Deliver?
    requires StepAt(policy, initial, actions, i).outcome.Decided? && StepAt(policy, initial, actions, i).created.Some?
    ensures StepAt(policy, initial, actions, j).created != StepAt(policy, initial, actions, i).created
  {
    var w := Run(policy, initial, actions[..i]);
    CreatedUnitIsDecided(policy, w.rows, w.units, actions[i].e, actions[i].timestamp);
    RowSurvives(policy, initial, actions, i, j);
    var later := Run(policy, initial, actions[..j]);
    RunJournalSound(policy, initial, actions[..j]);
    var row := FindEvent(later.rows, Fingerprint(actions[i].e, policy)).value;
    KnownUnitIsNotCreated(policy, later.rows, later.units, actions[j].e, actions[j].timestamp, row);
  }

  lemma CreatedUnitIsDecided(policy: Policy, rows: seq<Row>, units: seq<Unit>, e: WorkEvent, timestamp: string)
    ensures var step := DispatchOnce(policy, rows, units, e, timestamp);
      step.outcome.Decided? && step.created.Some? ==>
      step.outcome.decision.accepted && step.created == Some(step.outcome.decision.unitId)
  {
  }

  lemma KnownUnitIsNotCreated(policy: Policy, rows: seq<Row>, units: seq<Unit>, e: WorkEvent, timestamp: string,
                              row: Row)
    requires JournalSound(rows) && row in rows && row.decision.accepted
    ensures DispatchOnce(policy, rows, units, e, timestamp).created != Some(row.decision.unitId)
  {
    LatestMeans(rows, row.decision.unitId);
    if DispatchOnce(policy, rows, units, e, timestamp).created.Some? {
      CreatedIsAddressed(policy, rows, units, e, timestamp);
    }
  }

  lemma CreatedIsAddressed(policy: Policy, rows: seq<Row>, units: seq<Unit>, e: WorkEvent, timestamp: string)
    requires DispatchOnce(policy, rows, units, e, timestamp).created.Some?
    ensures e.number.Some? && DispatchOnce(policy, rows, units, e, timestamp).created == Some(UnitId(e))
    ensures var prior := LatestOfUnit(rows, UnitId(e)); prior.None? || !prior.value.decision.accepted
    ensures DispatchOnce(policy, rows, units, e, timestamp) == Admit(policy, rows, units, e, timestamp)
  {
  }

  // ---- when creating can fail ----

  /** `create_unit` is followed by an error exactly when the unit is unknown and the event key is already held by
      a unit in intake: that unit is returned in its place, and the transition then finds no unit to move. */
  lemma CreateFailsExactly(policy: Policy, rows: seq<Row>, units: seq<Unit>, e: WorkEvent, timestamp: string)
    requires DispatchOnce(policy, rows, units, e, timestamp).created.Some?
    ensures e.number.Some? && DispatchOnce(policy, rows, units, e, timestamp).created == Some(UnitId(e))
    ensures DispatchOnce(policy, rows, units, e, timestamp).outcome.DispatchError? <==>
            FindUnit(units, UnitId(e)).None? && FindHolder(units, Fingerprint(e, policy)).Some? &&
            FindHolder(units, Fingerprint(e, policy)).value.state == Intake
  {
    CreatedIsAddressed(policy, rows, units, e, timestamp);
    FindUnitMeans(units, UnitId(e));
    FindAppended(units, Unit(UnitId(e), Intake, {Fingerprint(e, policy)}));
  }

  lemma {:induction false} FindAppended(units: seq<Unit>, unit: Unit)
    ensures FindUnit(units, unit.id).None? ==> FindUnit(units + [unit], unit.id) == Some(unit)
  {
    if units == [] {
      assert ([] + [unit])[0] == unit;
    } else {
      FindAppended(units[1..], unit);
      assert (units + [unit])[1..] == units[1..] + [unit];
    }
  }

  /** The unit is unknown, and a unit in intake holds the event's key. */
  predicate ForeignHolder(policy: Policy, units: seq<Unit>, e: WorkEvent)
    requires e.number.Some?
  {
    var holder := FindHolder(units, Fingerprint(e, policy));
    FindUnit(units, UnitId(e)).None? && holder.Some? && holder.value.state == Intake
  }

  /** No continuation of the run up to step `i` calls `create_unit` for that unit again. */
  ghost predicate NeverAgain(policy: Policy, initial: seq<Unit>, actions: seq<Action>, i: nat)
    requires i < |actions| && actions[i].Deliver?
  {
    forall run: seq<Action>, j {:trigger StepAt(policy, initial, run, j)} ::
      actions[..i + 1] <= run && i < j < |run| && run[j].Deliver? ==>
        StepAt(policy, initial, run, j).created != StepAt(policy, initial, actions, i).created
  }

  /** A unit is created once and for all, over every continuation and restart, if and only if no foreign unit in
      intake holds the event's key when `create_unit` is called for it. */
  lemma CreatedOnceExactly(policy: Policy, initial: seq<Unit>, actions: seq<Action>, i: nat)
    requires i < |actions| && actions[i].Deliver? && StepAt(policy, initial, actions, i).created.Some?
    ensures actions[i].e.number.Some?
    ensures NeverAgain(policy, initial, actions, i) <==>
            !ForeignHolder(policy, Run(policy, initial, actions[..i]).units, actions[i].e)
  {
    var w, e := Run(policy, initial, actions[..i]), actions[i].e;
    CreateFailsExactly(policy, w.rows, w.units, e, actions[i].timestamp);
    if ForeignHolder(policy, w.units, e) {
      CreatedAgain(policy, initial, actions, i);
    } else {
      forall run: seq<Action>, j | actions[..i + 1] <= run && i < j < |run| && run[j].Deliver?
        ensures StepAt(policy, initial, run, j).created != StepAt(policy, initial, actions, i).created
      {
        assert run[..i + 1] == actions[..i + 1];
        assert run[..i] == run[..i + 1][..i] == actions[..i] && run[i] == run[..i + 1][i] == actions[i];
        DecidedUnitsAreCreatedOnce(policy, initial, run, i, j);
      }
    }
  }

  /** The same delivery, made again at once, calls `create_unit` again. */
  lemma CreatedAgain(policy: Policy, initial: seq<Unit>, actions: seq<Action>, i: nat)
    requires i < |actions| && actions[i].Deliver? && StepAt(policy, initial, actions, i).created.Some?
    requires actions[i].e.number.Some?
    requires ForeignHolder(policy, Run(policy, initial, actions[..i]).units, actions[i].e)
    ensures !NeverAgain(policy, initial, actions, i)
  {
    var w, a := Run(policy, initial, actions[..i]), actions[i];
    var run := actions[..i + 1] + [a];
    CreateFailsExactly(policy, w.rows, w.units, a.e, a.timestamp);
    FailedCreateChangesNothing(policy, w.rows, w.units, a.e, a.timestamp);
    assert run[..i + 1] == actions[..i + 1] && actions[..i + 1][..i] == actions[..i];
    assert Run(policy, initial, actions[..i + 1]) == Act(policy, w, a) == w;
    assert StepAt(policy, initial, run, i + 1) == StepAt(policy, initial, actions, i);
  }

  lemma FailedCreateChangesNothing(policy: Policy, rows: seq<Row>, units: seq<Unit>, e: WorkEvent, timestamp: string)
    requires e.number.Some? && ForeignHolder(policy, units, e)
    requires DispatchOnce(policy, rows, units, e, timestamp).created.Some?
    ensures DispatchOnce(policy, rows, units, e, timestamp) == Step(DispatchError, rows, units, Some(UnitId(e)))
  {
  }

  /** An event's key is held by the event's own unit and by no other. */
  ghost predicate KeysOwned(policy: Policy, units: seq<Unit>)
  {
    forall u, e: WorkEvent :: u in units && e.number.Some? && Fingerprint(e, policy) in u.eventKeys ==> u.id == UnitId(e)
  }

  lemma FingerprintNamesUnit(policy: Policy, a: WorkEvent, b: WorkEvent)
    requires Digests(policy.digest) && a.number.Some? && b.number.Some?
    requires Fingerprint(a, policy) == Fingerprint(b, policy)
    ensures UnitId(a) == UnitId(b)
  {
    Text.SamePrefix("forge-event:", policy.digest(IdentityOf(a)), policy.digest(IdentityOf(b)));
    assert IdentityOf(a) == IdentityOf(b);
  }

  lemma TriagedKeyIsNoFingerprint(policy: Policy, a: WorkEvent, b: WorkEvent)
    requires Digests(policy.digest)
    ensures Fingerprint(a, policy) + ":triaged" != Fingerprint(b, policy)
  {
    var x, y := policy.digest(IdentityOf(a)), policy.digest(IdentityOf(b));
    assert (x + ":triaged")[|x|] == ':';
    if Fingerprint(a, policy) + ":triaged" == Fingerprint(b, policy) {
      Text.Regroup("forge-event:", x, ":triaged");
      Text.SamePrefix("forge-event:", x + ":triaged", y);
    }
  }

  lemma {:induction false} ReplacedMembers(units: seq<Unit>, unit: Unit)
    ensures forall u :: u in ReplaceUnit(units, unit) ==> u == unit || u in units
  {
    if units != [] { ReplacedMembers(units[1..], unit); }
  }

  /** A dispatch keeps event keys with their units. */
  lemma StepKeepsOwnership(policy: Policy, rows: seq<Row>, units: seq<Unit>, e: WorkEvent, timestamp: string)
    requires Digests(policy.digest) && KeysOwned(policy, units)
    ensures KeysOwned(policy, DispatchOnce(policy, rows, units, e, timestamp).units)
    ensures DispatchOnce(policy, rows, units, e, timestamp).created.Some? ==>
            DispatchOnce(policy, rows, units, e, timestamp).outcome.Decided?
  {
    var step := DispatchOnce(policy, rows, units, e, timestamp);
    if step.created.Some? {
      var key, id := Fingerprint(e, policy), UnitId(e);
      CreateFailsExactly(policy, rows, units, e, timestamp);
      FindUnitMeans(units, id);
      FindHolderMeans(units, key);
      var made := CreateUnit(units, id, key);
      CreateKeepsOwnership(policy, units, e);
      if made.unit.state == Intake { TriageKeepsOwnership(policy, made.units, e); }
    }
  }

  lemma CreateKeepsOwnership(policy: Policy, units: seq<Unit>, e: WorkEvent)
    requires Digests(policy.digest) && KeysOwned(policy, units) && e.number.Some?
    ensures KeysOwned(policy, CreateUnit(units, UnitId(e), Fingerprint(e, policy)).units)
  {
    var made := CreateUnit(units, UnitId(e), Fingerprint(e, policy));
    forall u, b: WorkEvent | u in made.units && b.number.Some? && Fingerprint(b, policy) in u.eventKeys
      ensures u.id == UnitId(b)
    {
      if u !in units { FingerprintNamesUnit(policy, b, e); }
    }
  }

  lemma TriageKeepsOwnership(policy: Policy, units: seq<Unit>, e: WorkEvent)
    requires Digests(policy.digest) && KeysOwned(policy, units) && e.number.Some?
    ensures var moved := Triage(units, UnitId(e), Fingerprint(e, policy) + ":triaged");
      moved.Some? ==> KeysOwned(policy, moved.value.units)
  {
    var id, key := UnitId(e), Fingerprint(e, policy) + ":triaged";
    var moved := Triage(units, id, key);
    FindUnitMeans(units, id);
    if moved.Some? && FindUnit(units, id).Some? {
      var unit := FindUnit(units, id).value;
      ReplacedMembers(units, moved.value.unit);
      forall u, b: WorkEvent | u in moved.value.units && b.number.Some? && Fingerprint(b, policy) in u.eventKeys
        ensures u.id == UnitId(b)
      {
        TriagedKeyIsNoFingerprint(policy, e, b);
        assert unit in units;
        if u !in units { assert Fingerprint(b, policy) in unit.eventKeys; }
      }
    }
  }

  ghost predicate ReloadsOwned(policy: Policy, actions: seq<Action>)
  {
    forall a :: a in actions && a.Reload? ==> KeysOwned(policy, a.units)
  }

  lemma {:induction false} RunKeepsOwnership(policy: Policy, initial: seq<Unit>, actions: seq<Action>)
    requires Digests(policy.digest) && KeysOwned(policy, initial) && ReloadsOwned(policy, actions)
    ensures KeysOwned(policy, Run(policy, initial, actions).units)
  {
    if actions != [] {
      var before, last := actions[..|actions| - 1], actions[|actions| - 1];
      assert last in actions && forall a :: a in before ==> a in actions;
      RunKeepsOwnership(policy, initial, before);
      var w := Run(policy, initial, before);
      if last.Deliver? { StepKeepsOwnership(policy, w.rows, w.units, last.e, last.timestamp); }
    }
  }

  /** While no outside change gives an event's key to another unit, `create_unit` is called at most once a unit. */
  lemma UnitsAreCreatedOnce(policy: Policy, initial: seq<Unit>, actions: seq<Action>, i: nat, j: nat)
    requires Digests(policy.digest) && KeysOwned(policy, initial) && ReloadsOwned(policy, actions)
    requires i < j < |actions| && actions[i].Deliver? && actions[j].Deliver?
    requires StepAt(policy, initial, actions, i).created.Some?
    ensures StepAt(policy, initial, actions, j).created != StepAt(policy, initial, actions, i).created
  {
    var w := Run(policy, initial, actions[..i]);
    RunKeepsOwnership(policy, initial, actions[..i]);
    StepKeepsOwnership(policy, w.rows, w.units, actions[i].e, actions[i].timestamp);
    DecidedUnitsAreCreatedOnce(policy, initial, actions, i, j);
  }

  /** Otherwise it can be called again and again: the dispatch fails each time and leaves no row. */
  lemma ForeignKeyCreatesTwice(policy: Policy, e: WorkEvent, other: Unit, timestamp: string)
    requires Refusal(policy, e).None? && Addressable(e) && !Text.Blank(timestamp)
    requires other.id != UnitId(e) && other.state == Intake && Fingerprint(e, policy) in other.eventKeys
    ensures var twice := [Deliver(e, timestamp), Deliver(e, timestamp)];
      StepAt(policy, [other], twice, 0).created == StepAt(policy, [other], twice, 1).created == Some(UnitId(e))
  {
    var twice := [Deliver(e, timestamp), Deliver(e, timestamp)];
    ForeignKeyFails(policy, e, other, timestamp);
    assert twice[..0] == [] && twice[..1] == [Deliver(e, timestamp)];
    assert twice[..1][..0] == [];
    assert Run(policy, [other], twice[..0]) == World([], [other]);
  }

  lemma ForeignKeyFails(policy: Policy, e: WorkEvent, other: Unit, timestamp: string)
    requires Refusal(policy, e).None? && Addressable(e) && !Text.Blank(timestamp)
    requires other.id != UnitId(e) && other.state == Intake && Fingerprint(e, policy) in other.eventKeys
    ensures DispatchOnce(policy, [], [other], e, timestamp) == Step(DispatchError, [], [other], Some(UnitId(e)))
  {
    var units, key, id := [other], Fingerprint(e, policy), UnitId(e);
    FindUnitMeans(units, id);
    FindHolderMeans(units, key);
    assert other in units;
    assert FindUnit(units, id).None?;
    assert FindHolder(units, key) == Some(other);
    assert CreateUnit(units, id, key) == Created(units, other);
    assert FindEvent([], key).None?;
    assert LatestOfUnit([], id).None?;
    assert Triage(units, id, key + ":triaged").None?;
  }
}
