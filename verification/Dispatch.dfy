/** checkpoints.py and dispatcher.py: the checkpoint journal, and one dispatch against it. */
module Dispatch {
  import opened Options
  import opened Lifecycle
  import opened Sorting
  import Text

  // ---- events ----

  datatype WorkEvent = WorkEvent(provider: string, kind: string, action: string, repository: string,
                         number: Option<int>, title: string, labels: seq<string>)

  /** What the fingerprint is taken of: the labels in order. */
  datatype Identity = Identity(provider: string, kind: string, action: string, repository: string,
                               number: Option<int>, title: string, labels: seq<string>)

  datatype Policy = Policy(managed: string, blocked: set<string>, digest: Identity -> string)

  /** SHA-256 in hexadecimal, taken as injective: it holds no colon. */
  ghost predicate Digests(digest: Identity -> string)
  {
    (forall a, b :: digest(a) == digest(b) ==> a == b) && forall a :: ':' !in digest(a)
  }

  function IdentityOf(e: WorkEvent): Identity
  {
    Identity(e.provider, e.kind, e.action, e.repository, e.number, e.title, Sort(e.labels, Text.AtMost))
  }

  /** `event_fingerprint`. */
  function Fingerprint(e: WorkEvent, policy: Policy): string
  {
    "forge-event:" + policy.digest(IdentityOf(e))
  }

  function SignedDecimal(n: int): string
  {
    if n < 0 then "-" + Text.Decimal(-n) else Text.Decimal(n)
  }

  function UnitId(e: WorkEvent): string
    requires e.number.Some?
  {
    e.provider + ":" + e.repository + ":" + e.kind + ":" + SignedDecimal(e.number.value)
  }

  const SPEC_DRAFTED := "spec-drafted"
  const SPEC_APPROVED := "spec-approved"

  /** `spec_review_block`. */
  predicate AwaitsSpecReview(labels: seq<string>)
  {
    SPEC_DRAFTED in labels && SPEC_APPROVED !in labels
  }

  // ---- decisions and rows ----

  datatype Status = Ignored | Held | In(state: State)

  datatype Reason =
    | MissingMarker
    | BlockedByLabels(labels: seq<string>)
    | AwaitingReview
    | CheckpointReplay
    | Accepted

  datatype Decision = Decision(accepted: bool, unitId: string, eventKey: string, status: Status, reason: Reason)

  datatype Row = Row(decision: Decision, timestamp: string)

  datatype Outcome = Decided(decision: Decision) | DispatchError

  // ---- the journal as an insertion-ordered table with a unique event key ----

  function FindEvent(rows: seq<Row>, key: string): Option<Row>
  {
    if rows == [] then None
    else if rows[0].decision.eventKey == key then Some(rows[0])
    else FindEvent(rows[1..], key)
  }

  /** `ORDER BY timestamp DESC, rowid DESC LIMIT 1` over the rows of one unit. */
  function LatestOfUnit(rows: seq<Row>, unitId: string): Option<Row>
  {
    if rows == [] then None
    else
      var last, before := rows[|rows| - 1], LatestOfUnit(rows[..|rows| - 1], unitId);
      if last.decision.unitId != unitId then before
      else if before.None? || Text.AtMost(before.value.timestamp, last.timestamp) then Some(last)
      else before
  }

  /** `ON CONFLICT(event_key) DO NOTHING`. */
  function Recorded(rows: seq<Row>, row: Row): seq<Row>
  {
    if FindEvent(rows, row.decision.eventKey).Some? then rows else rows + [row]
  }

  lemma {:induction false} FindEventMeans(rows: seq<Row>, key: string)
    ensures match FindEvent(rows, key)
      case None => forall i :: 0 <= i < |rows| ==> rows[i].decision.eventKey != key
      case Some(row) => row in rows && row.decision.eventKey == key
  {
    if rows != [] && rows[0].decision.eventKey != key { FindEventMeans(rows[1..], key); }
  }

  /** First write wins: an insert never changes what any key is found with, but for a new key. */
  lemma {:induction false} FindAfterAppend(rows: seq<Row>, row: Row, key: string)
    ensures FindEvent(rows + [row], key) ==
            if FindEvent(rows, key).Some? then FindEvent(rows, key)
            else if row.decision.eventKey == key then Some(row) else None
  {
    if rows == [] {
      assert ([] + [row])[1..] == [];
    } else {
      FindAfterAppend(rows[1..], row, key);
      assert (rows + [row])[1..] == rows[1..] + [row];
    }
  }

  /** The row found for a unit is one of its rows, none of them is later, and a unit with rows has one. */
  lemma {:induction false} LatestMeans(rows: seq<Row>, unitId: string)
    ensures match LatestOfUnit(rows, unitId)
      case None => forall r :: r in rows ==> r.decision.unitId != unitId
      case Some(row) =>
        row in rows && row.decision.unitId == unitId &&
        forall r :: r in rows && r.decision.unitId == unitId ==> Text.AtMost(r.timestamp, row.timestamp)
  {
    if rows != [] {
      var before, last := rows[..|rows| - 1], rows[|rows| - 1];
      LatestMeans(before, unitId);
      assert rows == before + [last];
      Text.AtMostTotal(last.timestamp, last.timestamp);
      var prior := LatestOfUnit(before, unitId);
      if prior.Some? && last.decision.unitId == unitId {
        Text.AtMostTotal(prior.value.timestamp, last.timestamp);
        forall r | r in before && r.decision.unitId == unitId && Text.AtMost(prior.value.timestamp, last.timestamp)
          ensures Text.AtMost(r.timestamp, last.timestamp)
        {
          Text.AtMostTransitive(r.timestamp, prior.value.timestamp, last.timestamp);
        }
      }
    }
  }

  // ---- the orchestrator's part ----

  /** A work unit as far as the dispatcher can tell units apart. */
  datatype Unit = Unit(id: string, state: State, eventKeys: set<string>)

  function FindUnit(units: seq<Unit>, id: string): Option<Unit>
  {
    if units == [] then None else if units[0].id == id then Some(units[0]) else FindUnit(units[1..], id)
  }

  function FindHolder(units: seq<Unit>, key: string): Option<Unit>
  {
    if units == [] then None else if key in units[0].eventKeys then Some(units[0]) else FindHolder(units[1..], key)
  }

  datatype Created = Created(units: seq<Unit>, unit: Unit)

  /** `create_unit`: an existing id, or a unit that already holds the event key, is returned as it is. */
  function CreateUnit(units: seq<Unit>, id: string, key: string): Created
  {
    var existing, holder := FindUnit(units, id), FindHolder(units, key);
    if existing.Some? then Created(units, existing.value)
    else if holder.Some? then Created(units, holder.value)
    else
      var unit := Unit(id, Intake, {key});
      Created(units + [unit], unit)
  }

  function ReplaceUnit(units: seq<Unit>, unit: Unit): seq<Unit>
  {
    if units == [] then []
    else if units[0].id == unit.id then [unit] + units[1..]
    else [units[0]] + ReplaceUnit(units[1..], unit)
  }

  /** `transition` to triaged by the system; `None` is an `OrchestrationError`. */
  function Triage(units: seq<Unit>, id: string, key: string): Option<Created>
  {
    match FindUnit(units, id)
    case None => None
    case Some(unit) =>
      if key in unit.eventKeys then Some(Created(units, unit))
      else if !OrchestratorEdge(unit.state, Triaged) || unit.state == Blocked then None
      else
        var moved := Unit(id, Triaged, unit.eventKeys + {key});
        Some(Created(ReplaceUnit(units, moved), moved))
  }

  lemma {:induction false} FindUnitMeans(units: seq<Unit>, id: string)
    ensures match FindUnit(units, id)
      case None => forall u :: u in units ==> u.id != id
      case Some(u) => u in units && u.id == id
  {
    if units != [] && units[0].id != id { FindUnitMeans(units[1..], id); }
  }

  lemma {:induction false} FindHolderMeans(units: seq<Unit>, key: string)
    ensures match FindHolder(units, key)
      case None => forall u :: u in units ==> key !in u.eventKeys
      case Some(u) => u in units && key in u.eventKeys
  {
    if units != [] && key !in units[0].eventKeys { FindHolderMeans(units[1..], key); }
  }

  /** What a caller of `create_unit` gets: the unit of that id, or one that holds the event key, and at most one
      unit more than before. */
  lemma CreateUnitMeans(units: seq<Unit>, id: string, key: string)
    ensures var made := CreateUnit(units, id, key);
      && made.unit in made.units && (made.unit.id == id || key in made.unit.eventKeys)
      && ((exists u :: u in units && u.id == id) ==> made.units == units && made.unit.id == id)
      && ((forall u :: u in units ==> u.id != id && key !in u.eventKeys) ==>
            made.unit == Unit(id, Intake, {key}) && made.units == units + [made.unit])
  {
    FindUnitMeans(units, id);
    FindHolderMeans(units, key);
  }

  lemma {:induction false} ReplacedKeepsOthers(units: seq<Unit>, unit: Unit)
    ensures var r := ReplaceUnit(units, unit);
      |r| == |units| && forall i :: 0 <= i < |units| && units[i].id != unit.id ==> r[i] == units[i]
  {
    if units != [] && units[0].id != unit.id { ReplacedKeepsOthers(units[1..], unit); }
  }

  /** What a caller of `transition` gets: the unit of that id holding the event key, every other unit untouched;
      a unit that did move is triaged. */
  lemma TriageMeans(units: seq<Unit>, id: string, key: string)
    ensures var moved := Triage(units, id, key);
      moved.Some? ==>
        && moved.value.unit.id == id && key in moved.value.unit.eventKeys && |moved.value.units| == |units|
        && (moved.value.units != units ==> moved.value.unit.state == Triaged)
        && forall i :: 0 <= i < |units| && units[i].id != id ==> moved.value.units[i] == units[i]
  {
    FindUnitMeans(units, id);
    var moved := Triage(units, id, key);
    if moved.Some? { ReplacedKeepsOthers(units, moved.value.unit); }
  }

  // ---- one dispatch ----

  /** What one dispatch does; `created` is the unit `create_unit` was called for. */
  datatype Step = Step(outcome: Outcome, rows: seq<Row>, units: seq<Unit>, created: Option<string>)

  function Unique(labels: seq<string>): seq<string>
  {
    if labels == [] then []
    else
      var before, last := Unique(labels[..|labels| - 1]), labels[|labels| - 1];
      if last in before then before else before + [last]
  }

  function BlockingLabels(labels: seq<string>, blocked: set<string>): seq<string>
  {
    Sort(Unique(Filter(labels, (l: string) => l in blocked)), Text.AtMost)
  }

  /** The refusals that need no work unit. */
  function Refusal(policy: Policy, e: WorkEvent): Option<Decision>
  {
    var key, blocking := Fingerprint(e, policy), BlockingLabels(e.labels, policy.blocked);
    if policy.managed !in e.labels then Some(Decision(false, "", key, Ignored, MissingMarker))
    else if blocking != [] then Some(Decision(false, "", key, Held, BlockedByLabels(blocking)))
    else if AwaitsSpecReview(e.labels) then Some(Decision(false, "", key, Held, AwaitingReview))
    else None
  }

  predicate Addressable(e: WorkEvent)
  {
    !Text.Blank(e.provider) && !Text.Blank(e.repository) && e.number.Some? && e.number.value > 0
  }

  function Persisted(decision: Decision, rows: seq<Row>, units: seq<Unit>, timestamp: string, created: Option<string>)
    : Step
  {
    Step(Decided(decision), Recorded(rows, Row(decision, timestamp)), units, created)
  }

  /** A new unit, moved on to triaged when it is in intake. */
  function Admit(policy: Policy, rows: seq<Row>, units: seq<Unit>, e: WorkEvent, timestamp: string): Step
    requires e.number.Some?
  {
    var key, id := Fingerprint(e, policy), UnitId(e);
    var made := CreateUnit(units, id, key);
    if made.unit.state != Intake then
      Persisted(Decision(true, id, key, In(made.unit.state), Accepted), rows, made.units, timestamp, Some(id))
    else
      match Triage(made.units, id, key + ":triaged")
      case None => Step(DispatchError, rows, made.units, Some(id))
      case Some(moved) =>
        Persisted(Decision(true, id, key, In(moved.unit.state), Accepted), rows, moved.units, timestamp, Some(id))
  }

  /** `dispatch`. */
  function DispatchOnce(policy: Policy, rows: seq<Row>, units: seq<Unit>, e: WorkEvent, timestamp: string): Step
  {
    var key := Fingerprint(e, policy);
    var replay, refusal := FindEvent(rows, key), Refusal(policy, e);
    if Text.Blank(timestamp) then Step(DispatchError, rows, units, None)
    else if replay.Some? then Step(Decided(replay.value.decision), rows, units, None)
    else if refusal.Some? then Persisted(refusal.value, rows, units, timestamp, None)
    else if !Addressable(e) then Step(DispatchError, rows, units, None)
    else
      var prior := LatestOfUnit(rows, UnitId(e));
      if prior.Some? && prior.value.decision.accepted
      then Persisted(Decision(true, UnitId(e), key, prior.value.decision.status, CheckpointReplay),
                     rows, units, timestamp, None)
      else Admit(policy, rows, units, e, timestamp)
  }

  // ---- the objects ----

  class CheckpointStore {
    var rows: seq<Row>
    var heartbeat: string

    constructor ()
      ensures rows == [] && heartbeat == ""
    {
      rows := [];
      heartbeat := "";
    }

    /** `touch_heartbeat`; false is a `CheckpointError`. */
    method TouchHeartbeat(timestamp: string) returns (ok: bool)
      modifies this`heartbeat
      ensures ok == !Text.Blank(timestamp)
      ensures heartbeat == if ok then timestamp else old(heartbeat)
    {
      ok := !Text.Blank(timestamp);
      if ok {
        heartbeat := timestamp;
      }
    }

    /** `get_event`: the primary key makes the first row found the only one. */
    method GetEvent(key: string) returns (found: Option<Row>)
      ensures found == FindEvent(rows, key)
    {
      var i := 0;
      while i < |rows|
        invariant 0 <= i <= |rows|
        invariant FindEvent(rows, key) == FindEvent(rows[i..], key)
      {
        if rows[i].decision.eventKey == key {
          return Some(rows[i]);
        }
        i := i + 1;
      }
      found := None;
    }

    /** `get_unit`. */
    method GetUnit(unitId: string) returns (found: Option<Row>)
      ensures found == LatestOfUnit(rows, unitId)
    {
      found := None;
      for i := 0 to |rows|
        invariant found == LatestOfUnit(rows[..i], unitId)
      {
        assert rows[..i + 1][..i] == rows[..i];
        var row := rows[i];
        if row.decision.unitId == unitId && (found.None? || Text.AtMost(found.value.timestamp, row.timestamp)) {
          found := Some(row);
        }
      }
      assert rows[..|rows|] == rows;
    }

    /** `record`; false is a `CheckpointError`. */
    method Record(decision: Decision, timestamp: string) returns (ok: bool)
      modifies this`rows
      ensures ok == (!Text.Blank(decision.eventKey) && !Text.Blank(timestamp))
      ensures rows == if ok then Recorded(old(rows), Row(decision, timestamp)) else old(rows)
    {
      ok := !Text.Blank(decision.eventKey) && !Text.Blank(timestamp);
      if ok {
        var found := GetEvent(decision.eventKey);
        if found.None? {
          rows := rows + [Row(decision, timestamp)];
        }
      }
    }
  }

  lemma {:induction false} ReplaceAt(units: seq<Unit>, i: nat, unit: Unit)
    requires i < |units| && units[i].id == unit.id && forall k :: 0 <= k < i ==> units[k].id != unit.id
    ensures ReplaceUnit(units, unit) == units[..i] + [unit] + units[i + 1..]
  {
    if i > 0 {
      ReplaceAt(units[1..], i - 1, unit);
      assert units[..i] == [units[0]] + units[1..][..i - 1];
    }
  }

  /** Where the unit of an id stands; the number of units when there is none. */
  method Position(units: seq<Unit>, id: string) returns (i: nat)
    ensures i <= |units| && forall k :: 0 <= k < i ==> units[k].id != id
    ensures i < |units| ==> units[i].id == id
    ensures FindUnit(units, id) == if i < |units| then Some(units[i]) else None
  {
    i := 0;
    while i < |units| && units[i].id != id
      invariant i <= |units| && forall k :: 0 <= k < i ==> units[k].id != id
      invariant FindUnit(units, id) == FindUnit(units[i..], id)
    {
      i := i + 1;
    }
  }

  class Orchestrator {
    var units: seq<Unit>

    constructor (initial: seq<Unit>)
      ensures units == initial
    {
      units := initial;
    }

    /** `create_unit`: a known id or event key changes nothing; otherwise one unit is added, in intake. */
    method Create(id: string, key: string) returns (unit: Unit)
      modifies this
      ensures unit in units && (unit.id == id || key in unit.eventKeys)
      ensures (exists u :: u in old(units) && u.id == id) ==> units == old(units) && unit.id == id
      ensures (forall u :: u in old(units) ==> u.id != id && key !in u.eventKeys) ==>
        unit == Unit(id, Intake, {key}) && units == old(units) + [unit]
      ensures Created(units, unit) == CreateUnit(old(units), id, key)
    {
      CreateUnitMeans(units, id, key);
      var known := Position(units, id);
      if known < |units| {
        return units[known];
      }
      var i := 0;
      while i < |units|
        invariant 0 <= i <= |units| && units == old(units)
        invariant FindHolder(units, key) == FindHolder(units[i..], key)
      {
        if key in units[i].eventKeys {
          return units[i];
        }
        i := i + 1;
      }
      unit := Unit(id, Intake, {key});
      units := units + [unit];
    }

    /** `transition` to triaged: an unknown unit or an illegal move changes nothing and fails, a known event key
        changes nothing, and otherwise the one unit moves and holds the key from then on. */
    method TransitionToTriaged(id: string, key: string) returns (unit: Option<Unit>)
      modifies this
      ensures unit.Some? ==> unit.value.id == id && key in unit.value.eventKeys
      ensures unit.None? ==> units == old(units)
      ensures unit.Some? && units != old(units) ==> unit.value.state == Triaged
      ensures |units| == |old(units)| &&
        forall i :: 0 <= i < |units| && old(units)[i].id != id ==> units[i] == old(units)[i]
      ensures match Triage(old(units), id, key)
        case None => unit == None && units == old(units)
        case Some(moved) => unit == Some(moved.unit) && units == moved.units
    {
      TriageMeans(units, id, key);
      var i := Position(units, id);
      if i == |units| {
        return None;
      }
      var found := units[i];
      if key in found.eventKeys {
        return Some(found);
      }
      if !OrchestratorEdge(found.state, Triaged) || found.state == Blocked {
        return None;
      }
      var moved := Unit(id, Triaged, found.eventKeys + {key});
      ReplaceAt(units, i, moved);
      units := units[..i] + [moved] + units[i + 1..];
      unit := Some(moved);
    }
  }

  lemma KeyNotBlank(e: WorkEvent, policy: Policy)
    ensures !Text.Blank(Fingerprint(e, policy))
  {
    assert Fingerprint(e, policy)[0] == 'f';
  }

  /** `AutonomousIntakeDispatcher`. */
  class Dispatcher {
    const store: CheckpointStore
    const orchestrator: Orchestrator
    const policy: Policy

    constructor (store: CheckpointStore, orchestrator: Orchestrator, policy: Policy)
      ensures this.store == store && this.orchestrator == orchestrator && this.policy == policy
    {
      this.store := store;
      this.orchestrator := orchestrator;
      this.policy := policy;
    }

    /** `_persist`. */
    method Persist(decision: Decision, timestamp: string) returns (outcome: Outcome)
      modifies store
      ensures store.heartbeat == old(store.heartbeat)
      ensures !Text.Blank(decision.eventKey) && !Text.Blank(timestamp) ==>
        outcome == Decided(decision) && store.rows == Recorded(old(store.rows), Row(decision, timestamp))
      ensures Text.Blank(decision.eventKey) || Text.Blank(timestamp) ==>
        outcome == DispatchError && store.rows == old(store.rows)
    {
      var ok := store.Record(decision, timestamp);
      outcome := if ok then Decided(decision) else DispatchError;
    }

    method Dispatch(e: WorkEvent, timestamp: string) returns (outcome: Outcome, ghost created: Option<string>)
      modifies store, orchestrator
      ensures Step(outcome, store.rows, orchestrator.units, created) ==
              DispatchOnce(policy, old(store.rows), old(orchestrator.units), e, timestamp)
      ensures store.heartbeat == if Text.Blank(timestamp) then old(store.heartbeat) else timestamp
    {
      created := None;
      if Text.Blank(timestamp) {
        return DispatchError, created;
      }
      var key := Fingerprint(e, policy);
      KeyNotBlank(e, policy);
      var alive := store.TouchHeartbeat(timestamp);
      var replay := store.GetEvent(key);
      if replay.Some? {
        return Decided(replay.value.decision), created;
      }
      if policy.managed !in e.labels {
        outcome := Persist(Decision(false, "", key, Ignored, MissingMarker), timestamp);
        return;
      }
      var blocking := BlockingLabels(e.labels, policy.blocked);
      if blocking != [] {
        outcome := Persist(Decision(false, "", key, Held, BlockedByLabels(blocking)), timestamp);
        return;
      }
      if AwaitsSpecReview(e.labels) {
        outcome := Persist(Decision(false, "", key, Held, AwaitingReview), timestamp);
        return;
      }
      if !Addressable(e) {
        return DispatchError, created;
      }
      var id := UnitId(e);
      var prior := store.GetUnit(id);
      if prior.Some? && prior.value.decision.accepted {
        outcome := Persist(Decision(true, id, key, prior.value.decision.status, CheckpointReplay), timestamp);
        return;
      }
      created := Some(id);
      var unit := orchestrator.Create(id, key);
      if unit.state == Intake {
        var moved := orchestrator.TransitionToTriaged(id, key + ":triaged");
        if moved.None? {
          return DispatchError, created;
        }
        unit := moved.value;
      }
      outcome := Persist(Decision(true, id, key, In(unit.state), Accepted), timestamp);
    }
  }
}
