/** context_builder.py, `build_context_packet`: admission, selection, and eviction under two budgets. */
module PacketBudget {
  import opened Options
  import opened Sorting
  import opened PacketSelection
  import Text

  const MAX_PACK_BYTES: nat := 4_000_000

  datatype Outcome =
    | Packet(chosen: seq<Record>, notes: seq<string>, bytes: nat)
    | Blocked
    | Rejected

  // ---- order of the evidence ----

  predicate ById(a: Record, b: Record)
  {
    Text.AtMost(a.id, b.id)
  }

  /** `(-relevance, evidence_id)`. */
  function ByScore(s: Setting): (Record, Record) -> bool
  {
    (a: Record, b: Record) =>
      s.relevance(a) > s.relevance(b) || (s.relevance(a) == s.relevance(b) && Text.AtMost(a.id, b.id))
  }

  function IsRequired(s: Setting): Record -> bool
  {
    (r: Record) => s.required(r.sourceId)
  }

  function IsOptional(s: Setting): Record -> bool
  {
    (r: Record) => !s.required(r.sourceId)
  }

  function Mandatory(s: Setting, admitted: seq<Record>): seq<Record>
  {
    Sort(Filter(admitted, IsRequired(s)), ById)
  }

  function Candidates(s: Setting, admitted: seq<Record>): seq<Record>
  {
    Sort(Filter(admitted, IsOptional(s)), ByScore(s))
  }

  ghost predicate IdsSeparate(records: seq<Record>)
  {
    forall a, b :: a in records && b in records && a.id == b.id ==> a == b
  }

  /** What admission leaves: no record twice, one record an id. */
  ghost predicate Admissible(records: seq<Record>)
  {
    Distinct(records) && IdsSeparate(records) && forall r :: r in records ==> WellFormedId(r.id)
  }

  lemma OrdersArePreorders(s: Setting)
    ensures TotalPreorder(ById) && TotalPreorder(ByScore(s))
  {
    forall a: Record, b: Record ensures ById(a, b) || ById(b, a) {
      Text.AtMostTotal(a.id, b.id);
    }
    forall a: Record, b: Record ensures ByScore(s)(a, b) || ByScore(s)(b, a) {
      Text.AtMostTotal(a.id, b.id);
    }
    forall a: Record, b: Record, c: Record | ById(a, b) && ById(b, c) ensures ById(a, c) {
      Text.AtMostTransitive(a.id, b.id, c.id);
    }
    forall a: Record, b: Record, c: Record | ByScore(s)(a, b) && ByScore(s)(b, c) ensures ByScore(s)(a, c) {
      if s.relevance(a) == s.relevance(c) { Text.AtMostTransitive(a.id, b.id, c.id); }
    }
  }

  /** The evidence in order depends on the set of admitted records alone. */
  lemma OrderedEvidenceUnique(s: Setting, a: seq<Record>, b: seq<Record>)
    requires Admissible(a) && Admissible(b) && forall r :: r in a <==> r in b
    ensures Mandatory(s, a) == Mandatory(s, b) && Candidates(s, a) == Candidates(s, b)
  {
    DistinctSameElements(a, b);
    OrdersArePreorders(s);
    Text.AtMostIsOrder();
    SortedPartUnique(a, b, IsRequired(s), ById);
    SortedPartUnique(a, b, IsOptional(s), ByScore(s));
  }

  lemma SortedPartUnique(a: seq<Record>, b: seq<Record>, keep: Record -> bool, le: (Record, Record) -> bool)
    requires TotalPreorder(le) && multiset(a) == multiset(b) && IdsSeparate(a)
    requires forall x, y :: le(x, y) && le(y, x) ==> x.id == y.id
    ensures Sort(Filter(a, keep), le) == Sort(Filter(b, keep), le)
  {
    var fa, fb := Filter(a, keep), Filter(b, keep);
    FilterMultiset(a, b, keep);
    SortSorted(fa, le);
    SortSorted(fb, le);
    SortKeeps(fa, le);
    SortKeeps(fb, le);
    SortMembers(fa, le);
    FilterMembers(a, keep);
    SortedUnique(Sort(fa, le), Sort(fb, le), le);
  }

  /** Ordering the evidence splits it in two and loses none. */
  lemma EvidenceSplits(s: Setting, admitted: seq<Record>)
    requires Admissible(admitted)
    ensures var m, c := Mandatory(s, admitted), Candidates(s, admitted);
      && Distinct(m) && Distinct(c) && |m| + |c| == |admitted|
      && (forall r :: r in m <==> r in admitted && s.required(r.sourceId))
      && (forall r :: r in c <==> r in admitted && !s.required(r.sourceId))
  {
    FilterMembers(admitted, IsRequired(s));
    FilterMembers(admitted, IsOptional(s));
    FilterDistinct(admitted, IsRequired(s));
    FilterDistinct(admitted, IsOptional(s));
    SortMembers(Filter(admitted, IsRequired(s)), ById);
    SortMembers(Filter(admitted, IsOptional(s)), ByScore(s));
    SortDistinct(Filter(admitted, IsRequired(s)), ById);
    SortDistinct(Filter(admitted, IsOptional(s)), ByScore(s));
    SortKeeps(Filter(admitted, IsRequired(s)), ById);
    SortKeeps(Filter(admitted, IsOptional(s)), ByScore(s));
    FilterHalves(s, admitted);
  }

  lemma {:induction false} FilterHalves(s: Setting, records: seq<Record>)
    ensures |Filter(records, IsRequired(s))| + |Filter(records, IsOptional(s))| == |records|
  {
    if records != [] { FilterHalves(s, records[1..]); }
  }

  // ---- required evidence ----

  /** Why the required evidence is not complete. */
  datatype Reason = RetrievalFailed(source: string) | NoEvidence(source: string) | StaleEvidence(record: Record)

  predicate Supplied(admitted: seq<Record>, source: string)
  {
    exists r :: r in admitted && r.sourceId == source
  }

  /** Every required source the mission may read was retrieved and supplied fresh evidence, and a mission of high
      risk was supplied no stale evidence at all. */
  predicate Complete(s: Setting, admitted: seq<Record>)
  {
    (forall source :: source in s.demanded ==> source !in s.failed && Supplied(admitted, source)) &&
    (forall r :: r in admitted && (s.highRisk || r.sourceId in s.demanded) ==> s.current(r))
  }

  lemma CompleteUnique(s: Setting, a: seq<Record>, b: seq<Record>)
    requires forall r :: r in a <==> r in b
    ensures Complete(s, a) == Complete(s, b)
  {
    assert forall source :: Supplied(a, source) == Supplied(b, source);
  }

  // ---- eviction ----

  /** What eviction makes of one note. */
  function Rewritten(note: string, r: Record): string
  {
    if SelectedPrefix(r) <= note then EvictedNote(r) else note
  }

  /** Every note that says `r` was selected now says it was evicted. */
  function Evict(notes: seq<string>, r: Record): (out: seq<string>)
    ensures |out| == |notes|
  {
    seq(|notes|, i requires 0 <= i < |notes| => Rewritten(notes[i], r))
  }

  /** The packet is built again without its last optional record until it fits. */
  function Settle(s: Setting, mandatory: seq<Record>, picked: seq<Record>, notes: seq<string>): Outcome
    decreases |picked|
  {
    match PromptBytes(s, mandatory + picked)
    case None => Rejected
    case Some(n) =>
      if WithinBudgets(s, n) then Packet(mandatory + picked, notes, n)
      else if picked == [] then Blocked
      else Settle(s, mandatory, picked[..|picked| - 1], Evict(notes, picked[|picked| - 1]))
  }

  predicate Overflows(s: Setting, mandatory: seq<Record>, picked: seq<Record>, j: nat)
    requires j <= |picked|
  {
    var p := PromptBytes(s, mandatory + picked[..j]);
    p.Some? && !WithinBudgets(s, p.value)
  }

  predicate MandatoryFits(s: Setting, mandatory: seq<Record>)
  {
    |mandatory| <= MAX_PACK_RECORDS && WithinBudgets(s, BareBytes(s, mandatory))
  }

  function Assemble(s: Setting, admitted: seq<Record>): Outcome
  {
    var m, c := Mandatory(s, admitted), Candidates(s, admitted);
    if !Complete(s, admitted) || !MandatoryFits(s, m) then Blocked else Settle(s, m, Picked(s, m, c), Select(s, m, c).notes)
  }

  /** The largest number of picked records that fits is kept; what stops the search decides the outcome. */
  lemma {:induction false} SettleKeepsMost(s: Setting, m: seq<Record>, picked: seq<Record>, notes: seq<string>)
    ensures var r := Settle(s, m, picked, notes);
      && (r.Packet? ==> m <= r.chosen <= m + picked && PromptBytes(s, r.chosen) == Some(r.bytes) &&
                        WithinBudgets(s, r.bytes) &&
                        forall j :: |r.chosen| - |m| < j <= |picked| ==> Overflows(s, m, picked, j))
      && (r.Blocked? <==> forall j :: 0 <= j <= |picked| ==> Overflows(s, m, picked, j))
    decreases |picked|
  {
    assert picked[..|picked|] == picked;
    if Overflows(s, m, picked, |picked|) {
      if picked == [] {
        assert m + picked == m;
      } else {
        var fewer := picked[..|picked| - 1];
        SettleKeepsMost(s, m, fewer, Evict(notes, picked[|picked| - 1]));
        assert forall j :: 0 <= j <= |fewer| ==> fewer[..j] == picked[..j];
        assert forall j :: 0 <= j <= |fewer| ==> Overflows(s, m, fewer, j) == Overflows(s, m, picked, j);
        assert m + fewer <= m + picked;
      }
    }
  }

  // ---- notes ----

  /** What the note of candidate `i` says when `kept` are the optional records in the packet. */
  function ExpectedNote(s: Setting, m: seq<Record>, c: seq<Record>, kept: seq<Record>, i: nat): string
    requires i < |c|
  {
    var turn := Select(s, m, c[..i]);
    if c[i] in kept then SelectedNote(s, c[i])
    else if Takes(s, turn, c[i]) then EvictedNote(c[i])
    else TurnNote(s, turn, c[i])
  }

  function RequiredNotes(m: seq<Record>): seq<string>
  {
    seq(|m|, i requires 0 <= i < |m| => RequiredNote(m[i]))
  }

  function ExpectedNotes(s: Setting, m: seq<Record>, c: seq<Record>, kept: seq<Record>): seq<string>
  {
    seq(|c|, i requires 0 <= i < |c| => ExpectedNote(s, m, c, kept, i))
  }

  /** One note a record: the mandatory ones first, and then the candidates in the order of their turns. */
  ghost predicate NotesMatch(s: Setting, m: seq<Record>, c: seq<Record>, kept: seq<Record>, notes: seq<string>)
  {
    notes == RequiredNotes(m) + ExpectedNotes(s, m, c, kept)
  }

  ghost predicate NamesSeparate(c: seq<Record>)
  {
    Distinct(c) && IdsSeparate(c) && forall r :: r in c ==> WellFormedId(r.id)
  }

  lemma TurnIsExpected(s: Setting, m: seq<Record>, c: seq<Record>, i: nat)
    requires i < |c| && Distinct(c)
    ensures ExpectedNote(s, m, c, Picked(s, m, c), i) == TurnNote(s, Select(s, m, c[..i]), c[i])
  {
    PickedMembers(s, m, c);
  }

  lemma FirstNoteAt(s: Setting, m: seq<Record>, c: seq<Record>, i: nat)
    requires s.head != [] && MandatoryFits(s, m) && Distinct(c) && i < |c|
    ensures |Select(s, m, c).notes| == |m| + |c|
    ensures Select(s, m, c).notes[|m| + i] == ExpectedNote(s, m, c, Picked(s, m, c), i)
  {
    SelectionIsSound(s, m, c);
    SelectionIsSound(s, m, c[..i]);
    NotesTellTurns(s, m, c, i);
    TurnIsExpected(s, m, c, i);
  }

  lemma RequiredNotesLead(s: Setting, m: seq<Record>, c: seq<Record>)
    ensures RequiredNotes(m) <= Select(s, m, c).notes
  {
    SelectGrows(s, m, c, 0);
    assert c[..0] == [];
    assert Start(s, m).notes == RequiredNotes(m);
  }

  lemma FirstTurnNotes(s: Setting, m: seq<Record>, c: seq<Record>)
    requires s.head != [] && MandatoryFits(s, m) && NamesSeparate(c)
    ensures |Select(s, m, c).notes| == |m| + |c|
    ensures Select(s, m, c).notes[|m|..] == ExpectedNotes(s, m, c, Picked(s, m, c))
  {
    var turns := Select(s, m, c).notes[|m|..];
    SelectionIsSound(s, m, c);
    forall i | 0 <= i < |c| ensures turns[i] == ExpectedNotes(s, m, c, Picked(s, m, c))[i] {
      FirstNoteAt(s, m, c, i);
    }
  }

  lemma FirstNotesMatch(s: Setting, m: seq<Record>, c: seq<Record>)
    requires s.head != [] && MandatoryFits(s, m) && NamesSeparate(c)
    ensures NotesMatch(s, m, c, Picked(s, m, c), Select(s, m, c).notes)
  {
    RequiredNotesLead(s, m, c);
    FirstTurnNotes(s, m, c);
    HeadAndTail(Select(s, m, c).notes, RequiredNotes(m), |m|);
  }

  lemma HeadAndTail(whole: seq<string>, head: seq<string>, n: nat)
    requires head <= whole && |head| == n
    ensures whole == head + whole[n..]
  {
  }

  /** Only the evicted record's own note starts with its prefix. */
  lemma PrefixFindsNote(s: Setting, m: seq<Record>, c: seq<Record>, kept: seq<Record>, r: Record, i: nat)
    requires NamesSeparate(c) && i < |c| && r in c
    ensures SelectedPrefix(r) <= ExpectedNote(s, m, c, kept, i) <==> c[i] == r && r in kept
  {
    assert c[i] in c;
    SelectedPrefixNames(s, r, c[i]);
    OtherNotesNotSelected(s, r, c[i]);
    if c[i] !in kept {
      assert !Takes(s, Select(s, m, c[..i]), c[i]) ==>
        TurnNote(s, Select(s, m, c[..i]), c[i]) in {LimitNote(s, c[i]), BudgetNote(s, c[i])};
    }
  }

  lemma EvictConcat(a: seq<string>, b: seq<string>, r: Record)
    ensures Evict(a + b, r) == Evict(a, r) + Evict(b, r)
  {
  }

  lemma RequiredNotesStay(s: Setting, m: seq<Record>, r: Record)
    ensures Evict(RequiredNotes(m), r) == RequiredNotes(m)
  {
    forall i | 0 <= i < |m| ensures !(SelectedPrefix(r) <= RequiredNotes(m)[i]) {
      OtherNotesNotSelected(s, r, m[i]);
    }
  }

  lemma ExpectedNoteRewritten(s: Setting, m: seq<Record>, c: seq<Record>, kept: seq<Record>, r: Record, i: nat)
    requires NamesSeparate(c) && i < |c| && r in c && r !in kept
    requires c[i] == r ==> Takes(s, Select(s, m, c[..i]), r)
    ensures Rewritten(ExpectedNote(s, m, c, kept + [r], i), r) == ExpectedNote(s, m, c, kept, i)
  {
    PrefixFindsNote(s, m, c, kept + [r], r, i);
    assert r in kept + [r];
    assert c[i] in kept + [r] <==> c[i] in kept || c[i] == r;
  }

  lemma ExpectedNotesRewritten(s: Setting, m: seq<Record>, c: seq<Record>, kept: seq<Record>, r: Record)
    requires NamesSeparate(c) && r in c && r !in kept
    requires forall i :: 0 <= i < |c| && c[i] == r ==> Takes(s, Select(s, m, c[..i]), c[i])
    ensures Evict(ExpectedNotes(s, m, c, kept + [r]), r) == ExpectedNotes(s, m, c, kept)
  {
    var before, after := ExpectedNotes(s, m, c, kept + [r]), ExpectedNotes(s, m, c, kept);
    forall i | 0 <= i < |c| ensures Rewritten(before[i], r) == after[i] {
      ExpectedNoteRewritten(s, m, c, kept, r, i);
    }
  }

  lemma EvictionRewritesOneNote(s: Setting, m: seq<Record>, c: seq<Record>, kept: seq<Record>, r: Record,
                                notes: seq<string>)
    requires NamesSeparate(c) && NotesMatch(s, m, c, kept + [r], notes) && r in c && r !in kept
    requires forall i :: 0 <= i < |c| && c[i] == r ==> Takes(s, Select(s, m, c[..i]), c[i])
    ensures NotesMatch(s, m, c, kept, Evict(notes, r))
  {
    EvictConcat(RequiredNotes(m), ExpectedNotes(s, m, c, kept + [r]), r);
    RequiredNotesStay(s, m, r);
    ExpectedNotesRewritten(s, m, c, kept, r);
  }

  lemma {:induction false} SettleKeepsNotes(s: Setting, m: seq<Record>, c: seq<Record>, picked: seq<Record>,
                                            notes: seq<string>)
    requires NamesSeparate(c) && NotesMatch(s, m, c, picked, notes)
    requires Distinct(picked) && forall r :: r in picked ==> r in c
    requires forall i :: 0 <= i < |c| && c[i] in picked ==> Takes(s, Select(s, m, c[..i]), c[i])
    ensures var r := Settle(s, m, picked, notes);
      r.Packet? ==> m <= r.chosen && NotesMatch(s, m, c, r.chosen[|m|..], r.notes)
    decreases |picked|
  {
    var p := PromptBytes(s, m + picked);
    if p.Some? {
      if WithinBudgets(s, p.value) {
        assert (m + picked)[|m|..] == picked;
      } else if picked != [] {
        var fewer, r := picked[..|picked| - 1], picked[|picked| - 1];
        assert picked == fewer + [r] && r !in fewer;
        EvictionRewritesOneNote(s, m, c, fewer, r, notes);
        SettleKeepsNotes(s, m, c, fewer, Evict(notes, r));
      }
    }
  }

  // ---- the packet ----

  /** Some note says that `r` was selected. */
  ghost predicate NotedSelected(notes: seq<string>, r: Record)
  {
    exists i :: 0 <= i < |notes| && SelectedPrefix(r) <= notes[i]
  }

  /** A returned packet was built of complete evidence, fits both budgets at its real length, holds every required
      record, notes every record once, and notes as selected exactly the optional records it holds. */
  lemma PacketIsSound(s: Setting, admitted: seq<Record>)
    requires s.head != [] && Admissible(admitted)
    ensures var r := Assemble(s, admitted); r.Packet? ==>
      && Complete(s, admitted) && PromptBytes(s, r.chosen) == Some(r.bytes)
      && WithinBudgets(s, r.bytes) && r.bytes <= s.budgetBytes && r.bytes + 256 <= s.maxTokens
      && |r.chosen| <= MAX_PACK_RECORDS && Distinct(r.chosen)
      && (forall x :: x in r.chosen ==> x in admitted)
      && (forall x :: x in admitted && s.required(x.sourceId) ==> x in r.chosen)
      && |r.notes| == |admitted| && |Mandatory(s, admitted)| <= |r.chosen|
      && NotesMatch(s, Mandatory(s, admitted), Candidates(s, admitted), r.chosen[|Mandatory(s, admitted)|..], r.notes)
      && (forall x :: x in admitted && !s.required(x.sourceId) ==> (NotedSelected(r.notes, x) <==> x in r.chosen))
  {
    var m, c := Mandatory(s, admitted), Candidates(s, admitted);
    var r := Assemble(s, admitted);
    EvidenceSplits(s, admitted);
    if r.Packet? {
      var picked := Picked(s, m, c);
      PickedMembers(s, m, c);
      SelectionIsSound(s, m, c);
      FirstNotesMatch(s, m, c);
      SettleKeepsMost(s, m, picked, Select(s, m, c).notes);
      SettleKeepsNotes(s, m, c, picked, Select(s, m, c).notes);
      DistinctConcat(m, picked);
      PrefixMembers(m, picked, r.chosen);
      forall x | x in c ensures NotedSelected(r.notes, x) <==> x in r.chosen {
        NotesFind(s, m, c, r.chosen[|m|..], r.notes, x);
        assert x in r.chosen[|m|..] <==> x in r.chosen;
      }
    }
  }

  lemma PrefixMembers(m: seq<Record>, picked: seq<Record>, chosen: seq<Record>)
    requires Distinct(m + picked) && m <= chosen <= m + picked
    ensures Distinct(chosen) && forall x :: x in chosen ==> x in m || x in picked
    ensures forall x :: x in m ==> x in chosen
    ensures chosen == m + chosen[|m|..]
  {
    assert forall i :: 0 <= i < |chosen| ==> chosen[i] == (m + picked)[i];
    assert forall i :: 0 <= i < |m| ==> chosen[i] == m[i];
  }

  lemma NotedInEither(a: seq<string>, b: seq<string>, x: Record)
    ensures NotedSelected(a + b, x) <==> NotedSelected(a, x) || NotedSelected(b, x)
  {
    if NotedSelected(a, x) {
      var i :| 0 <= i < |a| && SelectedPrefix(x) <= a[i];
      assert (a + b)[i] == a[i];
    }
    if NotedSelected(b, x) {
      var i :| 0 <= i < |b| && SelectedPrefix(x) <= b[i];
      assert (a + b)[|a| + i] == b[i];
    }
  }

  lemma NotRequiredNoted(s: Setting, m: seq<Record>, x: Record)
    ensures !NotedSelected(RequiredNotes(m), x)
  {
    forall i | 0 <= i < |m| ensures !(SelectedPrefix(x) <= RequiredNotes(m)[i]) {
      OtherNotesNotSelected(s, x, m[i]);
    }
  }

  lemma ExpectedNotesFind(s: Setting, m: seq<Record>, c: seq<Record>, kept: seq<Record>, x: Record)
    requires NamesSeparate(c) && x in c
    ensures NotedSelected(ExpectedNotes(s, m, c, kept), x) <==> x in kept
  {
    var notes := ExpectedNotes(s, m, c, kept);
    forall i | 0 <= i < |c| ensures SelectedPrefix(x) <= notes[i] <==> c[i] == x && x in kept {
      PrefixFindsNote(s, m, c, kept, x, i);
    }
    var k :| 0 <= k < |c| && c[k] == x;
    assert SelectedPrefix(x) <= notes[k] <==> x in kept;
  }

  lemma NotesFind(s: Setting, m: seq<Record>, c: seq<Record>, kept: seq<Record>, notes: seq<string>, x: Record)
    requires NamesSeparate(c) && NotesMatch(s, m, c, kept, notes) && x in c
    ensures NotedSelected(notes, x) <==> x in kept
  {
    NotedInEither(RequiredNotes(m), ExpectedNotes(s, m, c, kept), x);
    NotRequiredNoted(s, m, x);
    ExpectedNotesFind(s, m, c, kept, x);
  }

  // ---- which evidence is preferred ----

  /** The more relevant record comes first, and the smaller id at a tie. */
  predicate Outranks(s: Setting, a: Record, b: Record)
  {
    s.relevance(a) > s.relevance(b) || (s.relevance(a) == s.relevance(b) && Text.AtMost(a.id, b.id))
  }

  lemma CandidatesRank(s: Setting, admitted: seq<Record>, i: nat, j: nat)
    requires i < j < |Candidates(s, admitted)|
    ensures Outranks(s, Candidates(s, admitted)[i], Candidates(s, admitted)[j])
  {
    OrdersArePreorders(s);
    SortSorted(Filter(admitted, IsOptional(s)), ByScore(s));
    assert ByScore(s)(Candidates(s, admitted)[i], Candidates(s, admitted)[j]);
  }

  lemma MandatoryRank(s: Setting, admitted: seq<Record>, i: nat, j: nat)
    requires i < j < |Mandatory(s, admitted)|
    ensures Text.AtMost(Mandatory(s, admitted)[i].id, Mandatory(s, admitted)[j].id)
  {
    OrdersArePreorders(s);
    SortSorted(Filter(admitted, IsRequired(s)), ById);
    assert ById(Mandatory(s, admitted)[i], Mandatory(s, admitted)[j]);
  }

  ghost predicate Ranked(s: Setting, records: seq<Record>)
  {
    forall i, j :: 0 <= i < j < |records| ==> Outranks(s, records[i], records[j])
  }

  lemma {:induction false} PickedRank(s: Setting, m: seq<Record>, scored: seq<Record>)
    requires Ranked(s, scored)
    ensures Ranked(s, Picked(s, m, scored)) && forall r :: r in Picked(s, m, scored) ==> r in scored
  {
    if scored != [] {
      var before, last := scored[..|scored| - 1], scored[|scored| - 1];
      PickedRank(s, m, before);
      forall r | r in Picked(s, m, before) ensures Outranks(s, r, last) && r in scored {
        var i :| 0 <= i < |before| && before[i] == r;
        assert scored[i] == r;
      }
    }
  }

  lemma PrefixBehind(m: seq<Record>, whole: seq<Record>, b: seq<Record>)
    requires m <= whole <= m + b
    ensures whole == m + whole[|m|..] && whole[|m|..] <= b
  {
    assert b == (m + b)[|m|..];
  }

  lemma PrefixRank(s: Setting, kept: seq<Record>, picked: seq<Record>)
    requires Ranked(s, picked) && kept <= picked
    ensures Ranked(s, kept) && forall r :: r in kept ==> r in picked
  {
    assert forall i :: 0 <= i < |kept| ==> kept[i] == picked[i];
  }

  lemma EvidenceRanks(s: Setting, admitted: seq<Record>)
    requires Admissible(admitted)
    ensures var m, c := Mandatory(s, admitted), Candidates(s, admitted);
      && Ranked(s, c) && Distinct(c) && IdsSeparate(c)
      && (forall k, l :: 0 <= k < l < |m| ==> Text.AtMost(m[k].id, m[l].id))
      && (forall r :: r in m ==> s.required(r.sourceId))
      && (forall r :: r in c <==> r in admitted && !s.required(r.sourceId))
  {
    var m, c := Mandatory(s, admitted), Candidates(s, admitted);
    EvidenceSplits(s, admitted);
    forall k, l | 0 <= k < l < |c| ensures Outranks(s, c[k], c[l]) { CandidatesRank(s, admitted, k, l); }
    forall k, l | 0 <= k < l < |m| ensures Text.AtMost(m[k].id, m[l].id) { MandatoryRank(s, admitted, k, l); }
  }

  /** What a packet holds: the mandatory evidence, and a beginning of what was picked. */
  lemma PacketParts(s: Setting, admitted: seq<Record>) returns (kept: seq<Record>)
    requires s.head != [] && Admissible(admitted) && Assemble(s, admitted).Packet?
    ensures var m, c := Mandatory(s, admitted), Candidates(s, admitted);
      MandatoryFits(s, m) && Assemble(s, admitted).chosen == m + kept && kept <= Picked(s, m, c) &&
      Ranked(s, kept) && forall r :: r in kept ==> r in c
  {
    var m, c := Mandatory(s, admitted), Candidates(s, admitted);
    PacketGivesBackLeast(s, admitted);
    kept := Assemble(s, admitted).chosen[|m|..];
    PrefixBehind(m, Assemble(s, admitted).chosen, Picked(s, m, c));
    EvidenceRanks(s, admitted);
    PickedRank(s, m, c);
    PrefixRank(s, kept, Picked(s, m, c));
  }

  lemma PartsRank(s: Setting, m: seq<Record>, kept: seq<Record>, i: nat, j: nat)
    requires forall k, l :: 0 <= k < l < |m| ==> Text.AtMost(m[k].id, m[l].id)
    requires Ranked(s, kept) && i < j < |m + kept|
    requires (forall r :: r in m ==> s.required(r.sourceId)) && forall r :: r in kept ==> !s.required(r.sourceId)
    ensures var a, b := (m + kept)[i], (m + kept)[j];
      && (s.required(b.sourceId) ==> s.required(a.sourceId) && Text.AtMost(a.id, b.id))
      && (!s.required(a.sourceId) ==> Outranks(s, a, b))
  {
    var whole := m + kept;
    assert forall k :: 0 <= k < |m| ==> whole[k] == m[k] && m[k] in m;
    assert forall k :: |m| <= k < |whole| ==> whole[k] == kept[k - |m|] && kept[k - |m|] in kept;
  }

  /** The required records of a packet come first, by id, and the others after them from the most to the least
      relevant, by id at a tie. */
  lemma PacketIsRanked(s: Setting, admitted: seq<Record>, i: nat, j: nat)
    requires s.head != [] && Admissible(admitted) && Assemble(s, admitted).Packet?
    requires i < j < |Assemble(s, admitted).chosen|
    ensures var a, b := Assemble(s, admitted).chosen[i], Assemble(s, admitted).chosen[j];
      && (s.required(b.sourceId) ==> s.required(a.sourceId) && Text.AtMost(a.id, b.id))
      && (!s.required(a.sourceId) ==>
            s.relevance(a) > s.relevance(b) || (s.relevance(a) == s.relevance(b) && Text.AtMost(a.id, b.id)))
  {
    var kept := PacketParts(s, admitted);
    EvidenceRanks(s, admitted);
    PartsRank(s, Mandatory(s, admitted), kept, i, j);
  }

  /** Beside these records the record is one too many, or too long for the byte or the token budget. */
  predicate DoesNotFit(s: Setting, beside: seq<Record>, x: Record)
  {
    |beside| >= 500 || BareBytes(s, beside) + 2 + s.render(x) > s.budgetBytes ||
    BareBytes(s, beside) + 2 + s.render(x) + 256 > s.maxTokens
  }

  /** What is picked from some turn on. */
  lemma {:induction false} PickedFrom(s: Setting, m: seq<Record>, c: seq<Record>, k: nat) returns (later: seq<Record>)
    requires k <= |c|
    ensures Picked(s, m, c) == Picked(s, m, c[..k]) + later
    ensures forall r :: r in later ==> r in c[k..]
    decreases |c|
  {
    if k == |c| {
      assert c[..k] == c;
      later := [];
    } else {
      var init, last := c[..|c| - 1], c[|c| - 1];
      assert init[..k] == c[..k] && c[k..] == init[k..] + [last];
      var between := PickedFrom(s, m, init, k);
      var own := if Takes(s, Select(s, m, init), last) then [last] else [];
      later := between + own;
      Associate(Picked(s, m, c[..k]), between, own);
    }
  }

  lemma Associate(a: seq<Record>, b: seq<Record>, c: seq<Record>)
    ensures (a + b) + c == a + (b + c)
  {
  }

  /** What was picked before a candidate's turn, at its turn, and after it. */
  lemma PickedAround(s: Setting, m: seq<Record>, c: seq<Record>, i: nat) returns (later: seq<Record>)
    requires i < |c|
    ensures Picked(s, m, c) ==
      Picked(s, m, c[..i]) + (if Takes(s, Select(s, m, c[..i]), c[i]) then [c[i]] else []) + later
    ensures forall r :: r in later ==> r in c[i + 1..]
  {
    later := PickedFrom(s, m, c, i + 1);
    assert c[..i + 1][..i] == c[..i];
  }

  lemma {:induction false} PickedWithin(s: Setting, m: seq<Record>, c: seq<Record>)
    ensures forall r :: r in Picked(s, m, c) ==> r in c
  {
    if c != [] {
      PickedWithin(s, m, c[..|c| - 1]);
      assert c == c[..|c| - 1] + [c[|c| - 1]];
    }
  }

  lemma NotAmong(c: seq<Record>, i: nat, j: nat)
    requires Distinct(c) && i < j < |c|
    ensures c[j] !in c[..i] && c[i] != c[j]
  {
  }

  /** A record that is not kept though one behind it is was not taken at its turn. */
  lemma LeftOutAhead(c: seq<Record>, i: nat, j: nat, earlier: seq<Record>, own: seq<Record>, later: seq<Record>,
                     kept: seq<Record>)
    requires Distinct(c) && i < j < |c| && (forall r :: r in earlier ==> r in c[..i])
    requires (own == [] || own == [c[i]]) && kept <= earlier + own + later && c[j] in kept && c[i] !in kept
    ensures own == [] && earlier <= kept
    ensures forall t :: |earlier| <= t < |kept| ==> kept[t] in later
  {
    var picked := earlier + own + later;
    NotAmong(c, i, j);
    assert forall q :: 0 <= q < |earlier| ==> picked[q] == earlier[q] && earlier[q] in earlier;
    var p :| 0 <= p < |kept| && kept[p] == c[j];
    assert |earlier| <= p;
    assert kept[|earlier|] in kept && kept[|earlier|] == picked[|earlier|];
    assert forall t :: |earlier| <= t < |kept| ==> kept[t] == later[t - |earlier|];
  }

  lemma NotTaken(s: Setting, m: seq<Record>, c: seq<Record>, i: nat)
    requires s.head != [] && MandatoryFits(s, m) && i < |c| && !Takes(s, Select(s, m, c[..i]), c[i])
    ensures DoesNotFit(s, m + Picked(s, m, c[..i]), c[i])
  {
    SelectionIsSound(s, m, c[..i]);
  }

  lemma RankedAround(s: Setting, c: seq<Record>, i: nat)
    requires Ranked(s, c) && i < |c|
    ensures forall r :: r in c[..i] ==> Outranks(s, r, c[i])
    ensures forall r :: r in c[i + 1..] ==> Outranks(s, c[i], r)
  {
  }

  lemma RankedBefore(s: Setting, c: seq<Record>, i: nat, j: nat)
    requires Ranked(s, c) && IdsSeparate(c) && i < |c| && j < |c| && c[i] != c[j] && Outranks(s, c[i], c[j])
    ensures i < j
  {
    assert c[i] in c && c[j] in c;
    if Outranks(s, c[j], c[i]) { Text.AtMostAntisymmetric(c[i].id, c[j].id); }
  }

  /** How the kept records lie around one that was left out. */
  lemma KeptAround(s: Setting, m: seq<Record>, c: seq<Record>, kept: seq<Record>, i: nat, j: nat) returns (k: nat)
    requires s.head != [] && MandatoryFits(s, m) && Ranked(s, c) && Distinct(c) && i < j < |c|
    requires kept <= Picked(s, m, c) && c[j] in kept && c[i] !in kept
    ensures k <= |kept| && DoesNotFit(s, m + kept[..k], c[i])
    ensures forall t :: 0 <= t < k ==> Outranks(s, kept[t], c[i])
    ensures forall t :: k <= t < |kept| ==> Outranks(s, c[i], kept[t])
  {
    var earlier := Picked(s, m, c[..i]);
    var own := if Takes(s, Select(s, m, c[..i]), c[i]) then [c[i]] else [];
    var later := PickedAround(s, m, c, i);
    PickedWithin(s, m, c[..i]);
    LeftOutAhead(c, i, j, earlier, own, later, kept);
    NotTaken(s, m, c, i);
    RankedAround(s, c, i);
    k := |earlier|;
    assert kept[..k] == earlier;
    assert forall t :: 0 <= t < k ==> kept[t] == earlier[t] && earlier[t] in earlier;
  }

  lemma AroundWhole(s: Setting, m: seq<Record>, kept: seq<Record>, x: Record, k: nat)
    requires k <= |kept| && forall r :: r in m ==> s.required(r.sourceId)
    requires forall t :: 0 <= t < k ==> Outranks(s, kept[t], x)
    requires forall t :: k <= t < |kept| ==> Outranks(s, x, kept[t])
    ensures (m + kept)[..|m| + k] == m + kept[..k]
    ensures forall l :: 0 <= l < |m + kept| && !s.required((m + kept)[l].sourceId) ==>
      (l < |m| + k ==> Outranks(s, (m + kept)[l], x)) && (l >= |m| + k ==> Outranks(s, x, (m + kept)[l]))
  {
    var whole := m + kept;
    assert forall l :: 0 <= l < |m| ==> whole[l] == m[l] && m[l] in m;
    assert forall l :: |m| <= l < |whole| ==> whole[l] == kept[l - |m|];
  }

  /** Nothing less relevant takes the place of a record that would have fitted: an optional record left out, with one
      behind it kept, does not fit beside the records of the packet that come before it. */
  lemma LeftOutDoesNotFit(s: Setting, admitted: seq<Record>, x: Record, y: Record) returns (k: nat)
    requires s.head != [] && Admissible(admitted) && Assemble(s, admitted).Packet?
    requires x in admitted && !s.required(x.sourceId) && x !in Assemble(s, admitted).chosen
    requires y in Assemble(s, admitted).chosen && !s.required(y.sourceId)
    requires s.relevance(x) > s.relevance(y) || (s.relevance(x) == s.relevance(y) && Text.AtMost(x.id, y.id))
    ensures var chosen := Assemble(s, admitted).chosen;
      k <= |chosen| && DoesNotFit(s, chosen[..k], x) &&
      forall l :: 0 <= l < |chosen| && !s.required(chosen[l].sourceId) ==>
        (l < k ==> Outranks(s, chosen[l], x)) && (l >= k ==> Outranks(s, x, chosen[l]))
  {
    var kept := PacketParts(s, admitted);
    EvidenceRanks(s, admitted);
    k := LeftOutOfParts(s, Mandatory(s, admitted), Candidates(s, admitted), kept, x, y);
  }

  lemma LeftOutOfParts(s: Setting, m: seq<Record>, c: seq<Record>, kept: seq<Record>, x: Record, y: Record)
    returns (k: nat)
    requires s.head != [] && MandatoryFits(s, m) && Ranked(s, c) && Distinct(c) && IdsSeparate(c)
    requires kept <= Picked(s, m, c) && (forall r :: r in m ==> s.required(r.sourceId))
    requires x in c && !s.required(y.sourceId) && x !in m + kept && y in m + kept && Outranks(s, x, y)
    ensures k <= |m + kept| && DoesNotFit(s, (m + kept)[..k], x)
    ensures forall l :: 0 <= l < |m + kept| && !s.required((m + kept)[l].sourceId) ==>
      (l < k ==> Outranks(s, (m + kept)[l], x)) && (l >= k ==> Outranks(s, x, (m + kept)[l]))
  {
    InKept(s, m, kept, x, y);
    var i, j := PlacesOf(s, m, c, kept, x, y);
    k := KeptAround(s, m, c, kept, i, j);
    AroundWhole(s, m, kept, x, k);
    k := |m| + k;
  }

  lemma InKept(s: Setting, m: seq<Record>, kept: seq<Record>, x: Record, y: Record)
    requires (forall r :: r in m ==> s.required(r.sourceId)) && !s.required(y.sourceId)
    requires y in m + kept && x !in m + kept
    ensures y in kept && x !in kept
  {
    assert forall r :: r in kept ==> r in m + kept;
  }

  lemma PlacesOf(s: Setting, m: seq<Record>, c: seq<Record>, kept: seq<Record>, x: Record, y: Record)
    returns (i: nat, j: nat)
    requires Ranked(s, c) && IdsSeparate(c) && kept <= Picked(s, m, c) && x in c && Outranks(s, x, y)
    requires y in kept && x !in kept
    ensures i < j < |c| && c[i] == x && c[j] == y
  {
    PickedWithin(s, m, c);
    var p :| 0 <= p < |kept| && kept[p] == y;
    assert Picked(s, m, c)[p] == y && Picked(s, m, c)[p] in Picked(s, m, c);
    i :| 0 <= i < |c| && c[i] == x;
    j :| 0 <= j < |c| && c[j] == y;
    RankedBefore(s, c, i, j);
  }

  lemma FitsMeans(s: Setting, m: seq<Record>)
    ensures MandatoryFits(s, m) <==>
      |m| <= 500 && BareBytes(s, m) <= s.budgetBytes && BareBytes(s, m) + 256 <= s.maxTokens
  {
  }

  /** Nothing is given back for no reason: with one more of the records it gave back the packet overflows,
      and a build is blocked exactly when the evidence is not complete, or the mandatory evidence or every such
      packet overflows. */
  lemma PacketGivesBackLeast(s: Setting, admitted: seq<Record>)
    requires s.head != [] && Admissible(admitted)
    ensures var m := Mandatory(s, admitted);
      var picked := Picked(s, m, Candidates(s, admitted));
      var r := Assemble(s, admitted);
      && (r.Packet? ==> m <= r.chosen <= m + picked &&
                        forall j :: |r.chosen| - |m| < j <= |picked| ==> Overflows(s, m, picked, j))
      && (r.Blocked? <==> !Complete(s, admitted) || |m| > 500 ||
                          BareBytes(s, m) > s.budgetBytes || BareBytes(s, m) + 256 > s.maxTokens ||
                          forall j :: 0 <= j <= |picked| ==> Overflows(s, m, picked, j))
  {
    var m, c := Mandatory(s, admitted), Candidates(s, admitted);
    FitsMeans(s, m);
    if Complete(s, admitted) && MandatoryFits(s, m) {
      SettleKeepsMost(s, m, Picked(s, m, c), Select(s, m, c).notes);
      assert Assemble(s, admitted) == Settle(s, m, Picked(s, m, c), Select(s, m, c).notes);
    }
  }

  /** With no findings and no qualification notices the running count is the prompt, so nothing is evicted. */
  lemma NothingEvictedWithoutNotices(s: Setting, admitted: seq<Record>)
    requires s.head != [] && Admissible(admitted) && s.findings == []
    requires forall records :: s.notices(records) == Some([])
    requires Complete(s, admitted) && MandatoryFits(s, Mandatory(s, admitted))
    ensures var m := Mandatory(s, admitted);
      var sel := Select(s, m, Candidates(s, admitted));
      Assemble(s, admitted) == Packet(sel.chosen, sel.notes, sel.bytes)
  {
    var m, c := Mandatory(s, admitted), Candidates(s, admitted);
    SelectionIsSound(s, m, c);
    assert s.notices(Select(s, m, c).chosen) == Some([]);
    PromptIsBarePlusNotices(s, Select(s, m, c).chosen);
  }

  // ---- the loops ----

  datatype Admission = Admitted(records: seq<Record>) | Refused

  ghost predicate Conflicting(records: seq<Record>)
  {
    exists a, b :: a in records && b in records && a.id == b.id && a != b
  }

  /** The admission loop: refuses a flawed record or two that share an id, and otherwise keeps each
      record that is not excluded once. */
  method Admit(records: seq<Record>, flawed: Record -> bool, excluded: Record -> bool) returns (r: Admission)
    ensures r.Refused? <==> (exists x :: x in records && flawed(x)) || Conflicting(records)
    ensures r.Admitted? ==> Distinct(r.records) && IdsSeparate(r.records)
    ensures r.Admitted? ==> forall x :: x in r.records <==> x in records && !excluded(x)
  {
    var seen: map<string, Record> := map[];
    var admitted: seq<Record> := [];
    for i := 0 to |records|
      invariant forall x :: x in records[..i] ==> !flawed(x) && x.id in seen && seen[x.id] == x
      invariant forall id :: id in seen ==> seen[id] in records[..i] && seen[id].id == id
      invariant forall x :: x in admitted <==> x in records[..i] && !excluded(x)
      invariant Distinct(admitted)
    {
      var record := records[i];
      if flawed(record) {
        return Refused;
      }
      assert records[..i + 1] == records[..i] + [record];
      if record.id in seen {
        if seen[record.id] != record {
          return Refused;
        }
      } else {
        seen := seen[record.id := record];
        if !excluded(record) {
          admitted := admitted + [record];
        }
      }
    }
    assert records[..|records|] == records;
    r := Admitted(admitted);
  }

  /** `chosen.remove(evicted)` drops the first equal record. */
  function RemoveFirst(records: seq<Record>, r: Record): seq<Record>
    requires r in records
  {
    if records[0] == r then records[1..] else [records[0]] + RemoveFirst(records[1..], r)
  }

  lemma {:induction false} RemoveFirstDropsLast(records: seq<Record>, r: Record)
    requires r !in records
    ensures r in records + [r] && RemoveFirst(records + [r], r) == records
  {
    if records == [] {
      assert ([] + [r])[1..] == [];
    } else {
      RemoveFirstDropsLast(records[1..], r);
      assert (records + [r])[1..] == records[1..] + [r];
    }
  }

  /** The selection loop. */
  method SelectEvidence(s: Setting, mandatory: seq<Record>, scored: seq<Record>)
    returns (chosen: seq<Record>, notes: seq<string>)
    requires s.head != [] && MandatoryFits(s, mandatory)
    ensures chosen == mandatory + Picked(s, mandatory, scored)
    ensures notes == Select(s, mandatory, scored).notes
  {
    var selectionBudget := if s.budgetBytes <= TokenBudget(s) then s.budgetBytes else TokenBudget(s);
    var rendered: nat := BareBytes(s, mandatory);
    chosen := mandatory;
    notes := seq(|mandatory|, i requires 0 <= i < |mandatory| => RequiredNote(mandatory[i]));
    for i := 0 to |scored|
      invariant Selection(chosen, rendered, notes) == Select(s, mandatory, scored[..i])
    {
      var record := scored[i];
      assert scored[..i + 1][..i] == scored[..i];
      if |chosen| >= MAX_PACK_RECORDS {
        notes := notes + [LimitNote(s, record)];
      } else {
        var block := 2 + s.render(record);
        if rendered + block <= selectionBudget {
          chosen := chosen + [record];
          rendered := rendered + block;
          notes := notes + [SelectedNote(s, record)];
        } else {
          notes := notes + [BudgetNote(s, record)];
        }
      }
    }
    assert scored[..|scored|] == scored;
    SelectionIsSound(s, mandatory, scored);
  }

  /** The required-source loop: one reason for each thing that is missing. */
  method RequiredReasons(s: Setting, admitted: seq<Record>) returns (reasons: seq<Reason>)
    ensures forall x :: RetrievalFailed(x) in reasons <==> x in s.demanded && x in s.failed
    ensures forall x :: NoEvidence(x) in reasons <==> x in s.demanded && !Supplied(admitted, x)
    ensures forall r :: StaleEvidence(r) in reasons <==> r in admitted && r.sourceId in s.demanded && !s.current(r)
  {
    reasons := [];
    for i := 0 to |s.demanded|
      invariant forall x :: RetrievalFailed(x) in reasons <==> x in s.demanded[..i] && x in s.failed
      invariant forall x :: NoEvidence(x) in reasons <==> x in s.demanded[..i] && !Supplied(admitted, x)
      invariant forall r :: StaleEvidence(r) in reasons <==>
        r in admitted && r.sourceId in s.demanded[..i] && !s.current(r)
    {
      var source := s.demanded[i];
      assert s.demanded[..i + 1] == s.demanded[..i] + [source];
      var failed := if source in s.failed then [RetrievalFailed(source)] else [];
      var lacking := [NoEvidence(source)];
      if Supplied(admitted, source) {
        lacking := StaleReasons(s, admitted, source);
      }
      reasons := reasons + failed + lacking;
    }
    assert s.demanded[..|s.demanded|] == s.demanded;
  }

  /** The stale records of one source. */
  method StaleReasons(s: Setting, admitted: seq<Record>, source: string) returns (reasons: seq<Reason>)
    ensures forall reason :: reason in reasons <==>
      reason.StaleEvidence? && reason.record in admitted && reason.record.sourceId == source && !s.current(reason.record)
  {
    reasons := [];
    for i := 0 to |admitted|
      invariant forall reason :: reason in reasons <==>
        reason.StaleEvidence? && reason.record in admitted[..i] && reason.record.sourceId == source &&
        !s.current(reason.record)
    {
      assert admitted[..i + 1] == admitted[..i] + [admitted[i]];
      if admitted[i].sourceId == source && !s.current(admitted[i]) {
        reasons := reasons + [StaleEvidence(admitted[i])];
      }
    }
    assert admitted[..|admitted|] == admitted;
  }

  lemma NoReasonsMeansComplete(s: Setting, admitted: seq<Record>, reasons: seq<Reason>)
    requires forall x :: RetrievalFailed(x) in reasons <==> x in s.demanded && x in s.failed
    requires forall x :: NoEvidence(x) in reasons <==> x in s.demanded && !Supplied(admitted, x)
    requires forall r :: StaleEvidence(r) in reasons <==> r in admitted && r.sourceId in s.demanded && !s.current(r)
    ensures Complete(s, admitted) <==>
            reasons == [] && (s.highRisk ==> forall r :: r in admitted ==> s.current(r))
  {
    if reasons != [] {
      var reason := reasons[0];
      assert reason in reasons;
      match reason
      case RetrievalFailed(x) =>
      case NoEvidence(x) =>
      case StaleEvidence(r) =>
    }
  }

  /** The checks of the evidence, then ordering, selecting, and evicting until the packet fits. */
  method AssemblePacket(s: Setting, admitted: seq<Record>) returns (r: Outcome)
    requires s.head != [] && Admissible(admitted)
    ensures r == Assemble(s, admitted)
  {
    var reasons := RequiredReasons(s, admitted);
    NoReasonsMeansComplete(s, admitted, reasons);
    if reasons != [] {
      return Blocked;
    }
    if s.highRisk && exists r :: r in admitted && !s.current(r) {
      return Blocked;
    }
    var mandatory, scored := Mandatory(s, admitted), Candidates(s, admitted);
    if !MandatoryFits(s, mandatory) {
      return Blocked;
    }
    var chosen, notes := SelectEvidence(s, mandatory, scored);
    EvidenceSplits(s, admitted);
    PickedMembers(s, mandatory, scored);
    assert chosen[|mandatory|..] == Picked(s, mandatory, scored);
    r := EvictUntilItFits(s, mandatory, chosen[|mandatory|..], notes);
  }

  /** The eviction loop, from the packet with everything that was picked. */
  method EvictUntilItFits(s: Setting, mandatory: seq<Record>, picked: seq<Record>, first: seq<string>)
    returns (r: Outcome)
    requires Distinct(picked)
    requires forall x :: x in mandatory ==> s.required(x.sourceId)
    requires forall x :: x in picked ==> !s.required(x.sourceId)
    ensures r == Settle(s, mandatory, picked, first)
  {
    var chosen, notes := mandatory + picked, first;
    var optional := Filter(chosen, IsOptional(s));
    OptionalPart(s, mandatory, picked);
    while true
      invariant chosen == mandatory + optional && optional <= picked
      invariant Settle(s, mandatory, picked, first) == Settle(s, mandatory, optional, notes)
      decreases |optional|
    {
      var size := PromptBytes(s, chosen);
      if size.None? {
        return Rejected;
      }
      if WithinBudgets(s, size.value) {
        return Packet(chosen, notes, size.value);
      }
      if optional == [] {
        return Blocked;
      }
      var evicted := optional[|optional| - 1];
      var fewer := optional[..|optional| - 1];
      LastGoesBack(mandatory, picked, optional);
      chosen := RemoveFirst(chosen, evicted);
      optional := fewer;
      notes := Evict(notes, evicted);
    }
  }

  lemma LastGoesBack(m: seq<Record>, picked: seq<Record>, optional: seq<Record>)
    requires Distinct(picked) && optional <= picked && optional != []
    requires forall r :: r in picked ==> r !in m
    ensures var fewer, last := optional[..|optional| - 1], optional[|optional| - 1];
      fewer <= picked && last in m + optional && RemoveFirst(m + optional, last) == m + fewer
  {
    var fewer, last := optional[..|optional| - 1], optional[|optional| - 1];
    assert last == picked[|optional| - 1] && last !in fewer;
    assert m + optional == (m + fewer) + [last];
    RemoveFirstDropsLast(m + fewer, last);
  }

  lemma OptionalPart(s: Setting, m: seq<Record>, picked: seq<Record>)
    requires forall r :: r in m ==> s.required(r.sourceId)
    requires forall r :: r in picked ==> !s.required(r.sourceId)
    ensures Filter(m + picked, IsOptional(s)) == picked
  {
    FilterConcat(m, picked, IsOptional(s));
    FilterNone(m, IsOptional(s));
    FilterAll(picked, IsOptional(s));
  }

  lemma {:induction false} FilterNone(records: seq<Record>, keep: Record -> bool)
    requires forall r :: r in records ==> !keep(r)
    ensures Filter(records, keep) == []
  {
    if records != [] { FilterNone(records[1..], keep); }
  }

  lemma {:induction false} FilterAll(records: seq<Record>, keep: Record -> bool)
    requires forall r :: r in records ==> keep(r)
    ensures Filter(records, keep) == records
  {
    if records != [] { FilterAll(records[1..], keep); }
  }

  /** `build_context_packet`: the packet depends on the set of records retrieved, never on their order or
      repetition. */
  method BuildContextPacket(s: Setting, records: seq<Record>, flawed: Record -> bool, excluded: Record -> bool)
    returns (r: Outcome)
    requires s.head != [] && forall x :: x in records ==> WellFormedId(x.id)
    ensures !(1 <= s.budgetBytes <= 4_000_000) ==> r == Rejected
    ensures 1 <= s.budgetBytes <= 4_000_000 && s.maxTokens <= 256 ==> r == Blocked
    ensures 1 <= s.budgetBytes <= 4_000_000 && s.maxTokens > 256 ==>
      if (exists x :: x in records && flawed(x)) || Conflicting(records) then r == Rejected
      else forall a :: Admissible(a) && (forall x :: x in a <==> x in records && !excluded(x)) ==> r == Assemble(s, a)
  {
    if !(1 <= s.budgetBytes <= MAX_PACK_BYTES) {
      return Rejected;
    }
    if TokenBudget(s) < 1 {
      return Blocked;
    }
    var admission := Admit(records, flawed, excluded);
    if admission.Refused? {
      return Rejected;
    }
    var admitted := admission.records;
    r := AssemblePacket(s, admitted);
    forall a | Admissible(a) && forall x :: x in a <==> x in records && !excluded(x)
      ensures r == Assemble(s, a)
    {
      OrderedEvidenceUnique(s, admitted, a);
      CompleteUnique(s, admitted, a);
    }
  }
}
