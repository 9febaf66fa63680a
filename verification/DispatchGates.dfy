/** dispatcher.py: which events pass the label gates, and what their fingerprints and unit ids tell apart. */
module DispatchGates {
  import opened Options
  import opened Lifecycle
  import opened Dispatch
  import opened DispatchRuns
  import opened Sorting
  import Text

  // ---- the gates ----

  /** The event is marked for autonomous work, carries no blocking label, and awaits no review of a drafted
      specification. */
  ghost predicate Cleared(policy: Policy, e: WorkEvent)
  {
    policy.managed in e.labels && (forall l :: l in e.labels ==> l !in policy.blocked) &&
    ("spec-drafted" in e.labels ==> "spec-approved" in e.labels)
  }

  /** A work item can be told: a provider, a repository and a positive number. */
  ghost predicate Complete(e: WorkEvent)
  {
    !Text.Blank(e.provider) && !Text.Blank(e.repository) && e.number.Some? && e.number.value > 0
  }

  lemma {:induction false} UniqueMeans(labels: seq<string>)
    ensures Distinct(Unique(labels)) && forall l :: l in Unique(labels) <==> l in labels
  {
    if labels != [] {
      var init, last := labels[..|labels| - 1], labels[|labels| - 1];
      UniqueMeans(init);
      assert labels == init + [last];
    }
  }

  /** The labels a refusal names are the blocking ones, each once and in order. */
  lemma BlockingMeans(labels: seq<string>, blocked: set<string>)
    ensures var named := BlockingLabels(labels, blocked);
      Distinct(named) && Sorted(named, Text.AtMost) && forall l :: l in named <==> l in labels && l in blocked
  {
    var kept := Filter(labels, (l: string) => l in blocked);
    FilterMembers(labels, (l: string) => l in blocked);
    UniqueMeans(kept);
    Text.AtMostIsOrder();
    SortSorted(Unique(kept), Text.AtMost);
    SortMembers(Unique(kept), Text.AtMost);
    SortDistinct(Unique(kept), Text.AtMost);
  }

  /** What is refused, and why: the missing mark first, then blocking labels, then a specification under review. */
  lemma RefusedExactly(policy: Policy, e: WorkEvent)
    ensures Refusal(policy, e).None? <==> Cleared(policy, e)
    ensures Refusal(policy, e).Some? ==>
      var d := Refusal(policy, e).value;
      && !d.accepted && d.unitId == "" && d.eventKey == Fingerprint(e, policy)
      && (d.status == Ignored <==> policy.managed !in e.labels)
      && (d.status == Ignored <==> d.reason == MissingMarker)
      && (d.status != Ignored ==> d.status == Held)
      && (d.reason.BlockedByLabels? <==>
            policy.managed in e.labels && exists l :: l in e.labels && l in policy.blocked)
      && (d.reason.BlockedByLabels? ==>
            Distinct(d.reason.labels) && Sorted(d.reason.labels, Text.AtMost) &&
            forall l :: l in d.reason.labels <==> l in e.labels && l in policy.blocked)
      && (d.reason.AwaitingReview? ==> "spec-drafted" in e.labels && "spec-approved" !in e.labels)
  {
    BlockingMeans(e.labels, policy.blocked);
    var named := BlockingLabels(e.labels, policy.blocked);
    if named != [] { assert named[0] in named; }
  }

  /** Nothing is created and no unit is touched for an event that is not cleared; a new event is decided against
      exactly when it is not cleared. */
  lemma UnclearedTouchesNothing(policy: Policy, rows: seq<Row>, units: seq<Unit>, e: WorkEvent, timestamp: string)
    ensures var step := DispatchOnce(policy, rows, units, e, timestamp);
      && (!Cleared(policy, e) || !Complete(e) ==> step.units == units && step.created.None?)
      && (!Text.Blank(timestamp) && FindEvent(rows, Fingerprint(e, policy)).None? ==>
            ((step.outcome.Decided? && !step.outcome.decision.accepted) <==> !Cleared(policy, e)) &&
            (Cleared(policy, e) && !Complete(e) ==> step.outcome.DispatchError?))
  {
    RefusedExactly(policy, e);
    if !Text.Blank(timestamp) && FindEvent(rows, Fingerprint(e, policy)).None? && Cleared(policy, e) && Complete(e) {
      AdmitShape(policy, rows, units, e, timestamp);
    }
  }

  ghost predicate ClearedDelivery(policy: Policy, a: Action, row: Row)
  {
    a.Deliver? && Cleared(policy, a.e) && Complete(a.e) && row.decision.eventKey == Fingerprint(a.e, policy) &&
    row.decision.unitId == UnitId(a.e) && row.timestamp == a.timestamp
  }

  /** Over any run, every accepted row was written for a delivery that passed all the gates. */
  lemma {:induction false} AcceptedWasCleared(policy: Policy, initial: seq<Unit>, actions: seq<Action>, row: Row)
    requires row in Run(policy, initial, actions).rows && row.decision.accepted
    ensures exists a :: a in actions && ClearedDelivery(policy, a, row)
  {
    if actions != [] {
      var init, last := actions[..|actions| - 1], actions[|actions| - 1];
      var w := Run(policy, initial, init);
      assert actions == init + [last];
      if row in w.rows {
        AcceptedWasCleared(policy, initial, init, row);
        var a :| a in init && ClearedDelivery(policy, a, row);
        assert a in actions;
      } else {
        NewRowWasCleared(policy, w.rows, w.units, last.e, last.timestamp, row);
        assert ClearedDelivery(policy, last, row);
      }
    }
  }

  lemma NewRowWasCleared(policy: Policy, rows: seq<Row>, units: seq<Unit>, e: WorkEvent, timestamp: string, row: Row)
    requires row in DispatchOnce(policy, rows, units, e, timestamp).rows && row !in rows && row.decision.accepted
    ensures Cleared(policy, e) && Complete(e) && row.decision.eventKey == Fingerprint(e, policy)
    ensures row.decision.unitId == UnitId(e) && row.timestamp == timestamp
  {
    StepAddsOneRow(policy, rows, units, e, timestamp);
    RefusedExactly(policy, e);
    if Addressable(e) { AdmitShape(policy, rows, units, e, timestamp); }
  }

  /** An accepted event that called `create_unit` carries the state of the unit it got: the event's own unit, or the
      one that already held the event key. It has left intake unless it held the key of that move before. */
  lemma AdmittedState(policy: Policy, rows: seq<Row>, units: seq<Unit>, e: WorkEvent, timestamp: string)
    requires DispatchOnce(policy, rows, units, e, timestamp).created.Some?
    requires DispatchOnce(policy, rows, units, e, timestamp).outcome.Decided?
    ensures e.number.Some?
    ensures var step := DispatchOnce(policy, rows, units, e, timestamp);
      exists u :: u in step.units && (u.id == UnitId(e) || Fingerprint(e, policy) in u.eventKeys) &&
        (u.state == Intake ==> Fingerprint(e, policy) + ":triaged" in u.eventKeys) && step.outcome.decision.status == In(u.state) && step.outcome.decision.reason == Accepted
  {
    var key, id := Fingerprint(e, policy), UnitId(e);
    CreatedIsAddressed(policy, rows, units, e, timestamp);
    var made := CreateUnit(units, id, key);
    FindUnitMeans(units, id);
    FindHolderMeans(units, key);
    assert made.unit in made.units && (made.unit.id == id || key in made.unit.eventKeys);
    if made.unit.state == Intake {
      var moved := Triage(made.units, id, key + ":triaged").value;
      FindUnitMeans(made.units, id);
      ReplacedIsStored(made.units, moved.unit);
      assert moved.unit in moved.units && moved.unit.id == id;
    }
  }

  lemma {:induction false} ReplacedIsStored(units: seq<Unit>, unit: Unit)
    ensures (exists u :: u in units && u.id == unit.id) ==> unit in ReplaceUnit(units, unit)
  {
    if units != [] && units[0].id != unit.id {
      ReplacedIsStored(units[1..], unit);
      assert units == [units[0]] + units[1..];
    }
  }

  // ---- what ids and fingerprints tell apart ----

  /** Two events have one fingerprint exactly when they agree in everything but the order of their labels. */
  lemma FingerprintExactly(policy: Policy, a: WorkEvent, b: WorkEvent)
    requires Digests(policy.digest)
    ensures Fingerprint(a, policy) == Fingerprint(b, policy) <==>
      a.provider == b.provider && a.kind == b.kind && a.action == b.action && a.repository == b.repository &&
      a.number == b.number && a.title == b.title && multiset(a.labels) == multiset(b.labels)
  {
    if Fingerprint(a, policy) == Fingerprint(b, policy) {
      Text.SamePrefix("forge-event:", policy.digest(IdentityOf(a)), policy.digest(IdentityOf(b)));
      SortKeeps(a.labels, Text.AtMost);
      SortKeeps(b.labels, Text.AtMost);
    }
    if multiset(a.labels) == multiset(b.labels) {
      Text.AtMostIsOrder();
      SortSorted(a.labels, Text.AtMost);
      SortSorted(b.labels, Text.AtMost);
      SortKeeps(a.labels, Text.AtMost);
      SortKeeps(b.labels, Text.AtMost);
      SortedUnique(Sort(a.labels, Text.AtMost), Sort(b.labels, Text.AtMost), Text.AtMost);
    }
  }

  lemma SignedUnique(p: string, m: int, q: string, n: int)
    requires p + [':'] + SignedDecimal(m) == q + [':'] + SignedDecimal(n) && m > 0 && n > 0
    ensures p == q && m == n
  {
    Text.DigitRunUnique(p, ':', Text.Decimal(m), q, ':', Text.Decimal(n));
    assert (p + [':'])[..|p|] == p && (q + [':'])[..|q|] == q;
    Text.DecimalInjective(m, n);
  }

  lemma NoColonPast(x: string, a: string, y: string, b: string)
    requires ':' !in a && x + [':'] + a == y + [':'] + b
    ensures |y| <= |x|
  {
    var s := x + [':'] + a;
    assert (y + [':'] + b)[|y|] == ':';
    assert forall i :: |x| < i < |s| ==> s[i] == a[i - |x| - 1] && a[i - |x| - 1] in a;
  }

  lemma NoColonBefore(a: string, x: string, b: string, y: string)
    requires ':' !in a && a + [':'] + x == b + [':'] + y
    ensures |a| <= |b|
  {
    var s := a + [':'] + x;
    assert (b + [':'] + y)[|b|] == ':';
    assert forall i :: 0 <= i < |a| ==> s[i] == a[i] && a[i] in a;
  }

  lemma SamePlace(a: string, x: string, b: string, y: string)
    requires a + [':'] + x == b + [':'] + y && |a| == |b|
    ensures a == b && x == y
  {
    var s := a + [':'] + x;
    assert a == s[..|a|] && x == s[|a| + 1..];
    assert b == (b + [':'] + y)[..|b|] && y == (b + [':'] + y)[|b| + 1..];
  }

  /** A unit id names one work item, providers and kinds holding no colon. */
  lemma UnitIdsAreApart(a: WorkEvent, b: WorkEvent)
    requires Complete(a) && Complete(b) && UnitId(a) == UnitId(b)
    requires ':' !in a.provider && ':' !in a.kind && ':' !in b.provider && ':' !in b.kind
    ensures a.provider == b.provider && a.repository == b.repository && a.kind == b.kind && a.number == b.number
  {
    var x, y := a.repository + [':'] + a.kind, b.repository + [':'] + b.kind;
    var p, q := a.provider + [':'] + x, b.provider + [':'] + y;
    assert UnitId(a) == p + [':'] + SignedDecimal(a.number.value);
    assert UnitId(b) == q + [':'] + SignedDecimal(b.number.value);
    SignedUnique(p, a.number.value, q, b.number.value);
    NoColonBefore(a.provider, x, b.provider, y);
    NoColonBefore(b.provider, y, a.provider, x);
    SamePlace(a.provider, x, b.provider, y);
    NoColonPast(a.repository, a.kind, b.repository, b.kind);
    NoColonPast(b.repository, b.kind, a.repository, a.kind);
    SamePlace(a.repository, a.kind, b.repository, b.kind);
  }
}
