/** context_builder.py, `build_context_packet`: which evidence a packet takes, and how its bytes are counted. */
module PacketSelection {
  import opened Options
  import opened Sorting
  import Text

  const MAX_PACK_RECORDS: nat := 500
  const OUTPUT_TOKEN_RESERVE: nat := 256
  const PROMPT_BYTES_PER_TOKEN: nat := 1

  /** `rest` stands for every field but the source; `id` is the `evidence_id` computed from them. */
  datatype Record = Record(id: string, sourceId: string, rest: string)

  /** What one build is given, rendered sections being known by their length in bytes. */
  datatype Setting = Setting(
    required: string -> bool,                      // is the source required?
    demanded: seq<string>,                         // the required sources the mission may read
    failed: set<string>,                           // the sources whose retrieval failed
    current: Record -> bool,                       // is the evidence fresh?
    highRisk: bool,                                // is the mission of high or critical risk?
    relevance: Record -> nat,
    render: Record -> nat,                         // the rendered evidence block
    head: seq<nat>,                                // the mandatory sections
    findings: seq<nat>,                            // prior findings: at most one section
    notices: seq<Record> -> Option<seq<nat>>,      // qualification section; `None`: the pack is refused
    budgetBytes: nat,
    maxTokens: nat)

  // ---- the length of a prompt ----

  /** The length of sections joined by a blank line. */
  function JoinedBytes(sections: seq<nat>): nat
  {
    if sections == [] then 0
    else if |sections| == 1 then sections[0]
    else sections[0] + 2 + JoinedBytes(sections[1..])
  }

  /** What sections add behind a prompt that is not empty. */
  function AddedBytes(sections: seq<nat>): nat
  {
    if sections == [] then 0 else 2 + sections[0] + AddedBytes(sections[1..])
  }

  lemma {:induction false} JoinedAppend(a: seq<nat>, b: seq<nat>)
    requires a != []
    ensures JoinedBytes(a + b) == JoinedBytes(a) + AddedBytes(b)
  {
    if |a| > 1 {
      JoinedAppend(a[1..], b);
      assert (a + b)[1..] == a[1..] + b;
    } else if b != [] {
      assert (a + b)[1..] == b;
      JoinedAfterOne(b);
    } else {
      assert a + b == a;
    }
  }

  lemma {:induction false} JoinedAfterOne(b: seq<nat>)
    requires b != []
    ensures 2 + JoinedBytes(b) == AddedBytes(b)
  {
    if |b| > 1 { JoinedAfterOne(b[1..]); }
  }

  lemma {:induction false} AddedConcat(a: seq<nat>, b: seq<nat>)
    ensures AddedBytes(a + b) == AddedBytes(a) + AddedBytes(b)
  {
    if a == [] {
      assert a + b == b;
    } else {
      AddedConcat(a[1..], b);
      assert (a + b)[1..] == a[1..] + b;
    }
  }

  function Rendered(s: Setting, records: seq<Record>): seq<nat>
  {
    if records == [] then []
    else Rendered(s, records[..|records| - 1]) + [s.render(records[|records| - 1])]
  }

  /** The prompt without findings and notices. */
  function BareBytes(s: Setting, records: seq<Record>): nat
  {
    JoinedBytes(s.head + Rendered(s, records))
  }

  /** `len(render_packet_for_prompt(packet))`; `None` when the knowledge layer refuses the pack. */
  function PromptBytes(s: Setting, records: seq<Record>): Option<nat>
  {
    match s.notices(records)
    case None => None
    case Some(notices) => Some(JoinedBytes(s.head + s.findings + Rendered(s, records) + notices))
  }

  lemma BareGrows(s: Setting, records: seq<Record>, r: Record)
    requires s.head != []
    ensures BareBytes(s, records + [r]) == BareBytes(s, records) + 2 + s.render(r)
  {
    assert (records + [r])[..|records|] == records;
    assert s.head + (Rendered(s, records) + [s.render(r)]) == (s.head + Rendered(s, records)) + [s.render(r)];
    JoinedAppend(s.head + Rendered(s, records), [s.render(r)]);
  }

  /** The running count is the prompt exactly but for the findings and the notices. */
  lemma PromptIsBarePlusNotices(s: Setting, records: seq<Record>)
    requires s.head != [] && s.notices(records).Some?
    ensures PromptBytes(s, records).value ==
            BareBytes(s, records) + AddedBytes(s.findings) + AddedBytes(s.notices(records).value)
  {
    var blocks, notices := Rendered(s, records), s.notices(records).value;
    JoinedAppend(s.head, blocks);
    assert s.head + s.findings + blocks + notices == s.head + (s.findings + (blocks + notices));
    JoinedAppend(s.head, s.findings + (blocks + notices));
    AddedConcat(s.findings, blocks + notices);
    AddedConcat(blocks, notices);
  }

  // ---- budgets ----

  function TokenBudget(s: Setting): int
  {
    (s.maxTokens - OUTPUT_TOKEN_RESERVE) * PROMPT_BYTES_PER_TOKEN
  }

  predicate WithinBudgets(s: Setting, bytes: nat)
  {
    bytes <= s.budgetBytes && bytes <= TokenBudget(s)
  }

  // ---- notes ----

  predicate WellFormedId(id: string)
  {
    ' ' !in id
  }

  function RequiredNote(r: Record): string
  {
    "required: " + r.id + " from required source " + r.sourceId
  }

  function SelectedPrefix(r: Record): string
  {
    "selected: " + r.id + " "
  }

  function Scored(s: Setting, r: Record): string
  {
    "(relevance " + Text.Decimal(s.relevance(r)) + ")"
  }

  function SelectedNote(s: Setting, r: Record): string
  {
    SelectedPrefix(r) + Scored(s, r)
  }

  function LimitNote(s: Setting, r: Record): string
  {
    "omitted by record limit: " + r.id + " " + Scored(s, r)
  }

  function BudgetNote(s: Setting, r: Record): string
  {
    "omitted by budget: " + r.id + " " + Scored(s, r)
  }

  function EvictedNote(r: Record): string
  {
    "omitted by budget: " + r.id + " (evicted once qualification notices were counted)"
  }

  lemma WordUnique(lead: string, a: string, b: string, rest: string)
    requires ' ' !in a && ' ' !in b
    requires lead + a + " " <= lead + b + " " + rest
    ensures a == b
  {
    var part, whole, k := lead + a + " ", lead + b + " " + rest, |lead|;
    assert part[k + |a|] == ' ' && whole[k + |b|] == ' ';
    assert forall i :: 0 <= i < |part| ==> part[i] == whole[i];
    assert forall i :: 0 <= i < |a| ==> part[k + i] == a[i] && a[i] in a;
    assert forall i :: 0 <= i < |b| ==> whole[k + i] == b[i] && b[i] in b;
    assert |a| == |b|;
    assert a == part[k..k + |a|] && b == whole[k..k + |b|];
  }

  /** A note names the record it was written for: ids hold no blank. */
  lemma SelectedPrefixNames(s: Setting, a: Record, b: Record)
    requires WellFormedId(a.id) && WellFormedId(b.id)
    ensures SelectedPrefix(a) <= SelectedNote(s, b) <==> a.id == b.id
  {
    if SelectedPrefix(a) <= SelectedNote(s, b) {
      WordUnique("selected: ", a.id, b.id, Scored(s, b));
    }
  }

  lemma OtherNotesNotSelected(s: Setting, a: Record, b: Record)
    ensures !(SelectedPrefix(a) <= RequiredNote(b))
    ensures !(SelectedPrefix(a) <= LimitNote(s, b))
    ensures !(SelectedPrefix(a) <= BudgetNote(s, b))
    ensures !(SelectedPrefix(a) <= EvictedNote(b))
  {
    assert SelectedPrefix(a)[0] == 's';
    assert RequiredNote(b)[0] == 'r' && LimitNote(s, b)[0] == 'o';
    assert BudgetNote(s, b)[0] == 'o' && EvictedNote(b)[0] == 'o';
  }

  // ---- the greedy selection ----

  datatype Selection = Selection(chosen: seq<Record>, bytes: nat, notes: seq<string>)

  predicate Takes(s: Setting, sel: Selection, r: Record)
  {
    |sel.chosen| < MAX_PACK_RECORDS && WithinBudgets(s, sel.bytes + 2 + s.render(r))
  }

  /** The note one candidate gets when its turn comes. */
  function TurnNote(s: Setting, sel: Selection, r: Record): string
  {
    if |sel.chosen| >= MAX_PACK_RECORDS then LimitNote(s, r)
    else if Takes(s, sel, r) then SelectedNote(s, r)
    else BudgetNote(s, r)
  }

  function Consider(s: Setting, sel: Selection, r: Record): Selection
  {
    if Takes(s, sel, r)
    then Selection(sel.chosen + [r], sel.bytes + 2 + s.render(r), sel.notes + [SelectedNote(s, r)])
    else sel.(notes := sel.notes + [TurnNote(s, sel, r)])
  }

  function Start(s: Setting, mandatory: seq<Record>): Selection
  {
    Selection(mandatory, BareBytes(s, mandatory),
      seq(|mandatory|, i requires 0 <= i < |mandatory| => RequiredNote(mandatory[i])))
  }

  /** The selection after every candidate of `scored` has had its turn. */
  function Select(s: Setting, mandatory: seq<Record>, scored: seq<Record>): Selection
  {
    if scored == [] then Start(s, mandatory)
    else Consider(s, Select(s, mandatory, scored[..|scored| - 1]), scored[|scored| - 1])
  }

  /** The optional records selected, before any eviction. */
  function Picked(s: Setting, mandatory: seq<Record>, scored: seq<Record>): seq<Record>
  {
    if scored == [] then []
    else
      var before, r := scored[..|scored| - 1], scored[|scored| - 1];
      Picked(s, mandatory, before) + if Takes(s, Select(s, mandatory, before), r) then [r] else []
  }

  /** What the selection loop keeps: the mandatory evidence, true byte counts, one note a candidate. */
  lemma {:induction false} SelectionIsSound(s: Setting, mandatory: seq<Record>, scored: seq<Record>)
    requires s.head != [] && |mandatory| <= MAX_PACK_RECORDS && WithinBudgets(s, BareBytes(s, mandatory))
    ensures var sel := Select(s, mandatory, scored);
      && sel.chosen == mandatory + Picked(s, mandatory, scored)
      && sel.bytes == BareBytes(s, sel.chosen)
      && WithinBudgets(s, sel.bytes) && |sel.chosen| <= MAX_PACK_RECORDS
      && |sel.notes| == |mandatory| + |scored|
  {
    if scored != [] {
      var before, r := scored[..|scored| - 1], scored[|scored| - 1];
      SelectionIsSound(s, mandatory, before);
      BareGrows(s, Select(s, mandatory, before).chosen, r);
    }
  }

  lemma {:induction false} SelectGrows(s: Setting, mandatory: seq<Record>, scored: seq<Record>, i: nat)
    requires i <= |scored|
    ensures var early, late := Select(s, mandatory, scored[..i]), Select(s, mandatory, scored);
      early.bytes <= late.bytes && early.chosen <= late.chosen && early.notes <= late.notes
    decreases |scored| - i
  {
    if i == |scored| {
      assert scored[..i] == scored;
    } else {
      SelectGrows(s, mandatory, scored, i + 1);
      assert scored[..i + 1][..i] == scored[..i];
    }
  }

  /** The selection is maximal: what was left out would not fit beside what was taken. */
  lemma SelectionIsMaximal(s: Setting, mandatory: seq<Record>, scored: seq<Record>, i: nat)
    requires i < |scored| && !Takes(s, Select(s, mandatory, scored[..i]), scored[i])
    ensures !Takes(s, Select(s, mandatory, scored), scored[i])
  {
    SelectGrows(s, mandatory, scored, i);
  }

  /** The note of each candidate tells what its turn decided. */
  lemma NotesTellTurns(s: Setting, mandatory: seq<Record>, scored: seq<Record>, i: nat)
    requires i < |scored| && |Select(s, mandatory, scored[..i]).notes| == |mandatory| + i
    ensures |Select(s, mandatory, scored).notes| > |mandatory| + i
    ensures Select(s, mandatory, scored).notes[|mandatory| + i] ==
            TurnNote(s, Select(s, mandatory, scored[..i]), scored[i])
  {
    assert scored[..i + 1][..i] == scored[..i];
    SelectGrows(s, mandatory, scored, i + 1);
  }

  lemma {:induction false} PickedDistinct(s: Setting, mandatory: seq<Record>, scored: seq<Record>)
    requires Distinct(scored)
    ensures Distinct(Picked(s, mandatory, scored))
    ensures forall r :: r in Picked(s, mandatory, scored) ==> r in scored
  {
    if scored != [] {
      var before, last := scored[..|scored| - 1], scored[|scored| - 1];
      PickedDistinct(s, mandatory, before);
      assert last !in before;
      assert forall r :: r in before ==> r in scored;
    }
  }

  /** A candidate is picked exactly when its turn takes it. */
  lemma {:induction false} PickedAt(s: Setting, mandatory: seq<Record>, scored: seq<Record>, i: nat)
    requires Distinct(scored) && i < |scored|
    ensures scored[i] in Picked(s, mandatory, scored) <==> Takes(s, Select(s, mandatory, scored[..i]), scored[i])
    decreases |scored|
  {
    var n := |scored| - 1;
    var before := scored[..n];
    PickedDistinct(s, mandatory, before);
    assert scored[n] !in before;
    if i < n {
      assert before[i] == scored[i] && before[..i] == scored[..i];
      PickedAt(s, mandatory, before, i);
    }
  }

  lemma PickedMembers(s: Setting, mandatory: seq<Record>, scored: seq<Record>)
    requires Distinct(scored)
    ensures Distinct(Picked(s, mandatory, scored))
    ensures forall r :: r in Picked(s, mandatory, scored) ==> r in scored
    ensures forall i :: 0 <= i < |scored| ==>
      (scored[i] in Picked(s, mandatory, scored) <==> Takes(s, Select(s, mandatory, scored[..i]), scored[i]))
  {
    PickedDistinct(s, mandatory, scored);
    forall i | 0 <= i < |scored|
      ensures scored[i] in Picked(s, mandatory, scored) <==> Takes(s, Select(s, mandatory, scored[..i]), scored[i])
    {
      PickedAt(s, mandatory, scored, i);
    }
  }
}
