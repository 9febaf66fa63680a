/** control_center.py: merge-proven incident retirement, and the states a unit durably reached. */
module Retirement {
  import opened Lifecycle
  import opened EventFold
  import opened EventLedger
  import opened Sorting

  // ---- unit statuses narrowed from projections ----

  datatype Status = Status(unit: string, repository: string, change: string, merged: set<string>)

  /** Which values the snapshot withholds before anything joins on them. */
  datatype Withhold = Withhold(repository: string -> bool, reference: string -> bool)

  /** `work_unit_status`, after the snapshot's redaction. Merged references are kept as they are. */
  function StatusOf(p: Projection, withheld: Withhold): Status
  {
    Status(p.unit, if withheld.repository(p.refs.repository) then "" else p.refs.repository,
           if withheld.reference(p.refs.change) then "" else p.refs.change, p.merged)
  }

  datatype Incident = Incident(kind: string, id: string, unit: string, evidence: string, provider: string, rest: string)

  /** Provider declarations by lower-cased repository, and the repository a canonical reference names. */
  datatype Registry = Registry(declared: map<string, set<string>>, lower: string -> string, named: string -> string)

  /** `_change_request_scoped`. */
  predicate ChangeRequestScoped(i: Incident)
  {
    i.kind in {"awaiting-human-merge", "merge-conflict", "branch-behind", "deterministic-ci-failed"} ||
    (i.provider == "github" && i.kind == "unclassified" &&
     (i.id == i.evidence + ":merge-state-blocked" || i.id == i.evidence + ":merge-state-unstable"))
  }

  function Declared(repository: string, reg: Registry): set<string>
  {
    if repository != "" && reg.lower(repository) in reg.declared then reg.declared[reg.lower(repository)] else {}
  }

  /** `_provider_agrees`: the reference's own repository decides first, then the unit's; an ambiguous
      declaration never agrees, and an undeclared repository never disagrees. */
  function ProviderAgrees(provider: string, s: Status, reg: Registry, reference: string): bool
  {
    var first := Declared(reg.named(reference), reg);
    var second := Declared(s.repository, reg);
    provider == "" ||
    (if first != {} then first == {provider} else if second != {} then second == {provider} else true)
  }

  // ---- the merge rule ----

  predicate Carries(s: Status, reference: string)
  {
    reference != "" && (s.change == reference || reference in s.merged)
  }

  type Statuses = map<string, Status>

  predicate Qualifies(unit: string, statuses: Statuses, i: Incident, reg: Registry)
  {
    unit in statuses && Carries(statuses[unit], i.evidence) && ProviderAgrees(i.provider, statuses[unit], reg, i.evidence)
  }

  /** Whether the merge rule retires an incident. */
  ghost predicate Retires(i: Incident, statuses: Statuses, reg: Registry)
  {
    i.evidence != "" && ChangeRequestScoped(i) &&
    if i.unit != "" then
      i.unit in statuses && ProviderAgrees(i.provider, statuses[i.unit], reg, i.evidence) && i.evidence in statuses[i.unit].merged
    else
      (exists u :: Qualifies(u, statuses, i, reg)) &&
      forall u :: Qualifies(u, statuses, i, reg) ==> i.evidence in statuses[u].merged
  }

  type Index = map<string, set<string>>

  predicate Listed(index: Index, ref: string, u: string)
  {
    ref in index && u in index[ref]
  }

  ghost predicate Indexes(index: Index, statuses: Statuses, seen: set<string>)
  {
    forall ref, u :: Listed(index, ref, u) <==> u in seen && u in statuses && Carries(statuses[u], ref)
  }

  method ListCarrier(before: Index, u: string, s: Status) returns (index: Index)
    ensures forall ref, v :: Listed(index, ref, v) <==> Listed(before, ref, v) || (v == u && Carries(s, ref))
  {
    index := before;
    var carried := s.merged + {s.change};
    while carried != {}
      invariant forall ref :: ref in carried ==> ref == s.change || ref in s.merged
      invariant forall ref, v :: Listed(index, ref, v) <==> Listed(before, ref, v) || (v == u && Carries(s, ref) && ref !in carried)
      decreases |carried|
    {
      var ref :| ref in carried;
      ghost var was, pending := index, carried;
      if ref != "" {
        index := index[ref := (if ref in index then index[ref] else {}) + {u}];
      }
      carried := carried - {ref};
      forall r, v ensures Listed(index, r, v) <==> Listed(was, r, v) || (v == u && r == ref && ref != "") {
      }
      forall r, v ensures Listed(index, r, v) <==> Listed(before, r, v) || (v == u && Carries(s, r) && r !in carried) {
        assert Listed(was, r, v) <==> Listed(before, r, v) || (v == u && Carries(s, r) && r !in pending);
      }
    }
  }

  /** The carriers of every reference, current or merged. */
  method IndexCarriers(statuses: Statuses) returns (index: Index)
    ensures Indexes(index, statuses, statuses.Keys)
  {
    index := map[];
    var left := statuses.Keys;
    while left != {}
      invariant left <= statuses.Keys
      invariant Indexes(index, statuses, statuses.Keys - left)
      decreases |left|
    {
      var u :| u in left;
      index := ListCarrier(index, u, statuses[u]);
      left := left - {u};
    }
  }

  method MergeProven(i: Incident, statuses: Statuses, index: Index, reg: Registry) returns (merged: bool)
    requires Indexes(index, statuses, statuses.Keys)
    ensures merged <==> Retires(i, statuses, reg)
  {
    if i.evidence == "" || !ChangeRequestScoped(i) {
      return false;
    }
    if i.unit != "" {
      return i.unit in statuses && ProviderAgrees(i.provider, statuses[i.unit], reg, i.evidence) &&
             i.evidence in statuses[i.unit].merged;
    }
    var carriers := if i.evidence in index then index[i.evidence] else {};
    assert forall u :: u in carriers <==> Listed(index, i.evidence, u);
    assert forall u :: u in carriers <==> u in statuses && Carries(statuses[u], i.evidence);
    var agreeing := set u | u in carriers && ProviderAgrees(i.provider, statuses[u], reg, i.evidence);
    assert forall u :: u in agreeing <==> Qualifies(u, statuses, i, reg);
    merged := agreeing != {} && forall u :: u in agreeing ==> i.evidence in statuses[u].merged;
  }

  /** The retirement loop's first rule: it keeps, in order, exactly what has no merge proof. */
  method RetainUnmerged(incidents: seq<Incident>, statuses: Statuses, reg: Registry) returns (retained: seq<Incident>)
    ensures retained == Filter(incidents, (i: Incident) => !Retires(i, statuses, reg))
  {
    var index := IndexCarriers(statuses);
    retained := [];
    for n := 0 to |incidents|
      invariant retained == Filter(incidents[..n], (i: Incident) => !Retires(i, statuses, reg))
    {
      assert incidents[..n + 1] == incidents[..n] + [incidents[n]];
      FilterConcat(incidents[..n], [incidents[n]], (i: Incident) => !Retires(i, statuses, reg));
      assert [incidents[n]][1..] == [];
      var merged := MergeProven(incidents[n], statuses, index, reg);
      if !merged {
        retained := retained + [incidents[n]];
      }
    }
    assert incidents[..|incidents|] == incidents;
  }

  // ---- proof in the ledger ----

  /** The statuses one project's units have, folded from the ledger. */
  ghost predicate FromLedger(statuses: Statuses, log: seq<Event>, project: string, rules: Rules, withheld: Withhold)
  {
    forall u :: u in statuses ==>
      ProjectionOf(log, (project, u), rules).Folded? &&
      statuses[u] == StatusOf(ProjectionOf(log, (project, u), rules).value, withheld)
  }

  /** The ledger shows `unit` entering `Merged` while `reference` was its change request. */
  ghost predicate LedgerMerge(log: seq<Event>, project: string, unit: string, reference: string)
  {
    MergeOf(UnitEvents(log, (project, unit)), reference)
  }

  lemma MergedIsLedgerMerge(statuses: Statuses, log: seq<Event>, project: string, rules: Rules, withheld: Withhold,
                            u: string, reference: string)
    requires FromLedger(statuses, log, project, rules, withheld) && u in statuses
    ensures reference in statuses[u].merged <==> LedgerMerge(log, project, u, reference) && !rules.leaky(reference)
  {
    ProjectionMeaning(log, (project, u), rules);
  }

  // ---- what agreement and scope mean ----

  /** The registry declares the repository, under its lower-cased name, for exactly these providers. */
  ghost predicate DeclaredFor(repository: string, reg: Registry, providers: set<string>)
  {
    repository != "" && providers != {} &&
    reg.lower(repository) in reg.declared && reg.declared[reg.lower(repository)] == providers
  }

  ghost predicate Undeclared(repository: string, reg: Registry)
  {
    repository == "" || reg.lower(repository) !in reg.declared || reg.declared[reg.lower(repository)] == {}
  }

  /** Whose change request a reference on a unit is: that of the one provider the reference's own repository is
      declared for, failing a declaration that of the one provider the unit's repository is declared for, and with
      neither declared anybody's. A repository declared for several providers identifies none. */
  ghost predicate SameProvider(provider: string, repository: string, reg: Registry, reference: string)
  {
    provider == "" ||
    DeclaredFor(reg.named(reference), reg, {provider}) ||
    (Undeclared(reg.named(reference), reg) && DeclaredFor(repository, reg, {provider})) ||
    (Undeclared(reg.named(reference), reg) && Undeclared(repository, reg))
  }

  lemma AgreementMeans(provider: string, s: Status, reg: Registry, reference: string)
    ensures ProviderAgrees(provider, s, reg, reference) <==> SameProvider(provider, s.repository, reg, reference)
  {
  }

  /** A repository declared for another provider, or for several, keeps an incident with a provider from joining. */
  lemma OtherDeclarationsDisagree(provider: string, s: Status, reg: Registry, reference: string, others: set<string>)
    requires provider != "" && others != {provider}
    requires DeclaredFor(reg.named(reference), reg, others) ||
      (Undeclared(reg.named(reference), reg) && DeclaredFor(s.repository, reg, others))
    ensures !ProviderAgrees(provider, s, reg, reference)
  {
  }

  /** The incident is about merging its change request: one of four kinds, or an unclassified one of GitHub's that is
      named after one of the two merge states of that very request. */
  ghost predicate AboutMerging(i: Incident)
  {
    i.kind == "awaiting-human-merge" || i.kind == "merge-conflict" || i.kind == "branch-behind" ||
    i.kind == "deterministic-ci-failed" ||
    (i.kind == "unclassified" && i.provider == "github" &&
     exists state :: i.id == i.evidence + ":merge-state-" + state && state in {"blocked", "unstable"})
  }

  lemma ScopeMeans(i: Incident)
    ensures ChangeRequestScoped(i) <==> AboutMerging(i)
  {
    var stem := i.evidence + ":merge-state-";
    assert i.evidence + ":merge-state-blocked" == stem + "blocked";
    assert i.evidence + ":merge-state-unstable" == stem + "unstable";
  }

  /** Whether the incident's change request is merged in the ledger by that unit. */
  ghost predicate ProvenMerge(log: seq<Event>, project: string, unit: string, i: Incident, rules: Rules)
  {
    LedgerMerge(log, project, unit, i.evidence) && !rules.leaky(i.evidence)
  }

  /** A named unit's incident is retired exactly on that unit's own merge of that very change request, when the
      registry says that it is the incident's provider's. */
  lemma NamedRetirementIsProven(i: Incident, statuses: Statuses, reg: Registry, log: seq<Event>, project: string,
                                rules: Rules, withheld: Withhold)
    requires FromLedger(statuses, log, project, rules, withheld) && i.unit != ""
    ensures Retires(i, statuses, reg) <==>
      i.evidence != "" && AboutMerging(i) && i.unit in statuses &&
      SameProvider(i.provider, statuses[i.unit].repository, reg, i.evidence) &&
      ProvenMerge(log, project, i.unit, i, rules)
  {
    ScopeMeans(i);
    if i.unit in statuses {
      AgreementMeans(i.provider, statuses[i.unit], reg, i.evidence);
      MergedIsLedgerMerge(statuses, log, project, rules, withheld, i.unit, i.evidence);
    }
  }

  /** The unit's change request, at present or when it merged, is the incident's, and its provider the incident's. */
  ghost predicate Carrier(u: string, statuses: Statuses, i: Incident, reg: Registry, log: seq<Event>, project: string,
                          rules: Rules)
  {
    u in statuses && i.evidence != "" && SameProvider(i.provider, statuses[u].repository, reg, i.evidence) &&
    (statuses[u].change == i.evidence || ProvenMerge(log, project, u, i, rules))
  }

  /** With no unit named, an incident is retired exactly when some unit carries its reference for its provider,
      and the ledger shows the merge for every such unit. */
  lemma UnnamedRetirementIsProven(i: Incident, statuses: Statuses, reg: Registry, log: seq<Event>, project: string,
                                  rules: Rules, withheld: Withhold)
    requires FromLedger(statuses, log, project, rules, withheld) && i.unit == ""
    ensures Retires(i, statuses, reg) <==>
      i.evidence != "" && AboutMerging(i) && (exists u :: Carrier(u, statuses, i, reg, log, project, rules)) &&
      forall u :: Carrier(u, statuses, i, reg, log, project, rules) ==> ProvenMerge(log, project, u, i, rules)
  {
    ScopeMeans(i);
    QualifiedMerges(i, statuses, reg, log, project, rules, withheld);
    CarriersQualify(i, statuses, reg, log, project, rules, withheld);
    if Retires(i, statuses, reg) {
      var q :| Qualifies(q, statuses, i, reg);
      assert Carrier(q, statuses, i, reg, log, project, rules);
      forall u | Carrier(u, statuses, i, reg, log, project, rules) ensures ProvenMerge(log, project, u, i, rules) {
        assert Qualifies(u, statuses, i, reg);
      }
    }
  }

  lemma CarriersQualify(i: Incident, statuses: Statuses, reg: Registry, log: seq<Event>, project: string,
                        rules: Rules, withheld: Withhold)
    requires FromLedger(statuses, log, project, rules, withheld)
    ensures forall u :: Qualifies(u, statuses, i, reg) <==> Carrier(u, statuses, i, reg, log, project, rules)
  {
    forall u ensures Qualifies(u, statuses, i, reg) <==> Carrier(u, statuses, i, reg, log, project, rules) {
      if u in statuses {
        AgreementMeans(i.provider, statuses[u], reg, i.evidence);
        MergedIsLedgerMerge(statuses, log, project, rules, withheld, u, i.evidence);
      }
    }
  }

  /** What a status tells is what the ledger says: the change request and the repository in effect, unless withheld. */
  lemma StatusIsInEffect(statuses: Statuses, log: seq<Event>, project: string, rules: Rules, withheld: Withhold, u: string)
    returns (change: string, repository: string)
    requires FromLedger(statuses, log, project, rules, withheld) && u in statuses
    ensures statuses[u].unit == u
    ensures InEffect(UnitEvents(log, (project, u)), ChangeRef, change)
    ensures InEffect(UnitEvents(log, (project, u)), RepositoryRef, repository)
    ensures statuses[u].change == if withheld.reference(change) then "" else change
    ensures statuses[u].repository == if withheld.repository(repository) then "" else repository
  {
    var p := ProjectionOf(log, (project, u), rules).value;
    BearsScope(log, (project, u), rules);
    ReferenceInEffect(log, (project, u), rules, ChangeRef);
    ReferenceInEffect(log, (project, u), rules, RepositoryRef);
    change, repository := Given(p.refs, ChangeRef), Given(p.refs, RepositoryRef);
  }

  lemma QualifiedMerges(i: Incident, statuses: Statuses, reg: Registry, log: seq<Event>, project: string,
                        rules: Rules, withheld: Withhold)
    requires FromLedger(statuses, log, project, rules, withheld)
    ensures forall u :: Qualifies(u, statuses, i, reg) ==>
      (i.evidence in statuses[u].merged <==> LedgerMerge(log, project, u, i.evidence) && !rules.leaky(i.evidence))
  {
    forall u | Qualifies(u, statuses, i, reg)
      ensures i.evidence in statuses[u].merged <==> LedgerMerge(log, project, u, i.evidence) && !rules.leaky(i.evidence)
    {
      MergedIsLedgerMerge(statuses, log, project, rules, withheld, u, i.evidence);
    }
  }

  /** A later lifecycle restart cannot unmerge: events recorded after the fact never remove the proof. */
  lemma MergeIsPermanent(events: seq<Event>, later: seq<Event>, reference: string)
    requires MergeOf(events, reference)
    ensures MergeOf(events + later, reference)
  {
    var i: nat :| MergesWith(events, i, reference);
    assert (events + later)[..|events|] == events;
    MergesPrefix(events + later, |events|, i, reference);
  }

  // ---- states reached since the last restart ----

  predicate Restarts(s: State)
  {
    s == Intake || s == Triaged
  }

  ghost predicate ReachedSinceRestart(trace: seq<Transition>, s: State)
  {
    exists i :: 0 <= i < |trace| && trace[i].to == s &&
      forall j :: i < j < |trace| ==> trace[j].to != Intake && trace[j].to != Triaged
  }

  /** `_states_seen`: the current state, and every state entered at or after the last restart. */
  method StatesSeen(p: Projection) returns (seen: set<State>)
    ensures forall s :: s in seen <==> s == p.state || ReachedSinceRestart(p.transitions, s)
  {
    seen := {};
    for n := 0 to |p.transitions|
      invariant forall s :: s in seen <==> ReachedSinceRestart(p.transitions[..n], s)
    {
      ghost var init := p.transitions[..n];
      var t := p.transitions[n];
      assert p.transitions[..n + 1] == init + [t];
      ReachedStep(init, t);
      if Restarts(t.to) {
        seen := {};
      }
      seen := seen + {t.to};
    }
    assert p.transitions[..|p.transitions|] == p.transitions;
    seen := seen + {p.state};
  }

  lemma ReachedStep(init: seq<Transition>, t: Transition)
    ensures forall s :: ReachedSinceRestart(init + [t], s) <==> s == t.to || (!Restarts(t.to) && ReachedSinceRestart(init, s))
  {
    var trace := init + [t];
    forall s ensures ReachedSinceRestart(trace, s) <==> s == t.to || (!Restarts(t.to) && ReachedSinceRestart(init, s)) {
      if s == t.to { assert trace[|init|].to == s; }
      if !Restarts(t.to) && ReachedSinceRestart(init, s) {
        var i :| 0 <= i < |init| && init[i].to == s && forall j :: i < j < |init| ==> init[j].to != Intake && init[j].to != Triaged;
        assert trace[i].to == s;
        forall j | i < j < |trace| ensures trace[j].to != Intake && trace[j].to != Triaged { assert j < |init| ==> trace[j] == init[j]; }
      }
      if ReachedSinceRestart(trace, s) && s != t.to {
        var i :| 0 <= i < |trace| && trace[i].to == s && forall j :: i < j < |trace| ==> trace[j].to != Intake && trace[j].to != Triaged;
        assert init[i].to == s && !Restarts(trace[|init|].to);
        forall j | i < j < |init| ensures init[j].to != Intake && init[j].to != Triaged { assert trace[j] == init[j]; }
      }
    }
  }
}
