/** git_diff.py, `_paths_from_name_status`: the NUL-separated name-status listing, parsed exactly. */
module GitDiff {
  import opened Sorting
  import Text

  newtype byte = x: int | 0 <= x < 256
  type Bytes = seq<byte>

  const NUL: byte := 0

  /** One listed change: a status, then one path, or two for a rename or copy. */
  datatype Change = Change(status: Bytes, paths: seq<Bytes>)

  /** `[ACDMRT][0-9]*`. */
  predicate KnownStatus(s: Bytes)
  {
    s != [] && s[0] in {65, 67, 68, 77, 82, 84} && forall i :: 1 <= i < |s| ==> 48 <= s[i] <= 57
  }

  function PathCount(status: Bytes): nat
    requires status != []
  {
    if status[0] == 82 || status[0] == 67 then 2 else 1
  }

  predicate ValidChange(c: Change)
  {
    KnownStatus(c.status) && |c.paths| == PathCount(c.status) &&
    forall i :: 0 <= i < |c.paths| ==> c.paths[i] != [] && NUL !in c.paths[i]
  }

  ghost predicate ValidChanges(cs: seq<Change>)
  {
    forall c :: c in cs ==> ValidChange(c)
  }

  /** How git prints a listing under `-z`: every field closed by a NUL. */
  function Printed(cs: seq<Change>): Bytes
  {
    if cs == [] then [] else Closed([cs[0].status] + cs[0].paths) + Printed(cs[1..])
  }

  function Closed(fields: seq<Bytes>): Bytes
  {
    if fields == [] then [] else fields[0] + [NUL] + Closed(fields[1..])
  }

  // ---- splitting on NUL ----

  function Split(raw: Bytes): (fields: seq<Bytes>)
    ensures fields != []
  {
    if raw == [] then [[]]
    else if raw[0] == NUL then [[]] + Split(raw[1..])
    else
      var rest := Split(raw[1..]);
      [[raw[0]] + rest[0]] + rest[1..]
  }

  lemma {:induction false} SplitOfClosed(field: Bytes, rest: Bytes)
    requires NUL !in field
    ensures Split(field + [NUL] + rest) == [field] + Split(rest)
  {
    var raw := field + [NUL] + rest;
    if field == [] {
      assert raw[0] == NUL && raw[1..] == rest;
    } else {
      assert field[0] in field && raw[0] == field[0];
      assert raw[1..] == field[1..] + [NUL] + rest;
      SplitOfClosed(field[1..], rest);
      assert [field[0]] + field[1..] == field;
    }
  }

  lemma {:induction false} SplitIsNulFree(raw: Bytes)
    ensures forall i :: 0 <= i < |Split(raw)| ==> NUL !in Split(raw)[i]
  {
    if raw != [] {
      SplitIsNulFree(raw[1..]);
    }
  }

  function Joined(fields: seq<Bytes>): Bytes
  {
    if fields == [] then [] else if |fields| == 1 then fields[0] else fields[0] + [NUL] + Joined(fields[1..])
  }

  /** Splitting loses nothing: joining the fields with NULs gives the listing back. */
  lemma {:induction false} SplitRejoins(raw: Bytes)
    ensures Joined(Split(raw)) == raw
  {
    if raw != [] {
      var rest := Split(raw[1..]);
      SplitRejoins(raw[1..]);
      if raw[0] == NUL {
        JoinedEmptyHead(rest);
      } else {
        JoinedHead(raw[0], rest);
      }
    }
  }

  lemma JoinedEmptyHead(fields: seq<Bytes>)
    requires fields != []
    ensures Joined([[]] + fields) == [NUL] + Joined(fields)
  {
    assert ([[]] + fields)[1..] == fields;
  }

  lemma JoinedHead(b: byte, fields: seq<Bytes>)
    requires fields != []
    ensures Joined([[b] + fields[0]] + fields[1..]) == [b] + Joined(fields)
  {
    var longer := [[b] + fields[0]] + fields[1..];
    assert longer[1..] == fields[1..];
    assert [b] + fields[0] + [NUL] + Joined(fields[1..]) == [b] + (fields[0] + [NUL] + Joined(fields[1..]));
  }

  lemma {:induction false} JoinedCloses(fields: seq<Bytes>)
    ensures Joined(fields + [[]]) == Closed(fields)
  {
    if fields != [] {
      JoinedCloses(fields[1..]);
      assert (fields + [[]])[1..] == fields[1..] + [[]];
    }
  }

  // ---- the fields as changes ----

  datatype Parse = Changes(list: seq<Change>) | Malformed

  predicate AllNonEmpty(fields: seq<Bytes>)
  {
    forall i :: 0 <= i < |fields| ==> fields[i] != []
  }

  function ParseFields(fields: seq<Bytes>): Parse
    decreases |fields|
  {
    if fields == [] then Malformed
    else if fields[0] == [] then if |fields| == 1 then Changes([]) else Malformed
    else if !KnownStatus(fields[0]) then Malformed
    else
      var n := PathCount(fields[0]);
      if 1 + n > |fields| || !AllNonEmpty(fields[1..1 + n]) then Malformed
      else
        var rest := ParseFields(fields[1 + n..]);
        if rest.Malformed? then Malformed else Changes([Change(fields[0], fields[1..1 + n])] + rest.list)
  }

  function FieldsOf(cs: seq<Change>): seq<Bytes>
  {
    if cs == [] then [] else [cs[0].status] + cs[0].paths + FieldsOf(cs[1..])
  }

  lemma {:induction false} ParseMeans(fields: seq<Bytes>)
    requires forall i :: 0 <= i < |fields| ==> NUL !in fields[i]
    ensures var p := ParseFields(fields);
      p.Changes? ==> ValidChanges(p.list) && fields == FieldsOf(p.list) + [[]]
    decreases |fields|
  {
    var p := ParseFields(fields);
    if p.Changes? && fields[0] != [] {
      var n := PathCount(fields[0]);
      var rest := fields[1 + n..];
      ParseMeans(rest);
      var c := Change(fields[0], fields[1..1 + n]);
      assert p.list[0] == c && p.list[1..] == ParseFields(rest).list;
      assert ValidChange(c);
      var head, more := [fields[0]] + fields[1..1 + n], FieldsOf(ParseFields(rest).list);
      assert fields == head + rest;
      assert FieldsOf(p.list) == head + more;
      assert head + (more + [[]]) == (head + more) + [[]];
    }
  }

  lemma ParseStep(c: Change, rest: seq<Bytes>)
    requires ValidChange(c)
    ensures ParseFields([c.status] + c.paths + rest) == match ParseFields(rest)
      case Malformed => Malformed
      case Changes(list) => Changes([c] + list)
  {
    var fields := [c.status] + c.paths + rest;
    var n := |c.paths|;
    assert fields[0] == c.status && fields[1..1 + n] == c.paths && fields[1 + n..] == rest;
  }

  lemma {:induction false} FieldsParse(cs: seq<Change>)
    requires ValidChanges(cs)
    ensures ParseFields(FieldsOf(cs) + [[]]) == Changes(cs)
  {
    if cs != [] {
      var rest := FieldsOf(cs[1..]) + [[]];
      FieldsParse(cs[1..]);
      ParseStep(cs[0], rest);
      assert FieldsOf(cs) + [[]] == [cs[0].status] + cs[0].paths + rest;
      assert [cs[0]] + cs[1..] == cs;
    }
  }

  lemma {:induction false} ClosedConcat(a: seq<Bytes>, b: seq<Bytes>)
    ensures Closed(a + b) == Closed(a) + Closed(b)
  {
    if a == [] {
      assert a + b == b;
    } else {
      ClosedConcat(a[1..], b);
      assert (a + b)[1..] == a[1..] + b;
    }
  }

  lemma {:induction false} PrintedIsClosed(cs: seq<Change>)
    ensures Printed(cs) == Closed(FieldsOf(cs))
  {
    if cs != [] {
      PrintedIsClosed(cs[1..]);
      ClosedConcat([cs[0].status] + cs[0].paths, FieldsOf(cs[1..]));
    }
  }

  lemma {:induction false} SplitOfFields(fields: seq<Bytes>)
    requires forall i :: 0 <= i < |fields| ==> NUL !in fields[i]
    ensures Split(Closed(fields)) == fields + [[]]
  {
    if fields != [] {
      SplitOfFields(fields[1..]);
      SplitOfClosed(fields[0], Closed(fields[1..]));
      assert fields == [fields[0]] + fields[1..];
    }
  }

  lemma {:induction false} FieldsAreNulFree(cs: seq<Change>)
    requires ValidChanges(cs)
    ensures forall i :: 0 <= i < |FieldsOf(cs)| ==> NUL !in FieldsOf(cs)[i]
  {
    if cs != [] {
      assert cs[0] in cs && forall c :: c in cs[1..] ==> c in cs;
      FieldsAreNulFree(cs[1..]);
      forall i | 0 <= i < |cs[0].status| ensures cs[0].status[i] != NUL { }
    }
  }

  /** The parser is the inverse of the printer, and rejects everything the printer cannot produce. */
  lemma ParserInvertsPrinter(raw: Bytes, cs: seq<Change>)
    ensures ValidChanges(cs) && raw == Printed(cs) <==> ParseFields(Split(raw)) == Changes(cs)
  {
    if ValidChanges(cs) && raw == Printed(cs) {
      PrintedIsClosed(cs);
      FieldsAreNulFree(cs);
      SplitOfFields(FieldsOf(cs));
      FieldsParse(cs);
    }
    if ParseFields(Split(raw)) == Changes(cs) {
      SplitIsNulFree(raw);
      ParseMeans(Split(raw));
      SplitRejoins(raw);
      JoinedCloses(FieldsOf(cs));
      PrintedIsClosed(cs);
    }
  }

  // ---- the paths ----

  function PathsOf(cs: seq<Change>, decode: Bytes -> string): set<string>
  {
    if cs == [] then {} else Decoded(cs[0].paths, decode) + PathsOf(cs[1..], decode)
  }

  function Decoded(paths: seq<Bytes>, decode: Bytes -> string): set<string>
  {
    set i | 0 <= i < |paths| :: decode(paths[i])
  }

  datatype Listing = Paths(paths: seq<string>) | GitDiffError

  ghost predicate SortedSet(s: seq<string>, elements: set<string>)
  {
    Sorted(s, Text.AtMost) && Distinct(s) && forall x :: x in s <==> x in elements
  }

  method SortSet(elements: set<string>) returns (s: seq<string>)
    ensures SortedSet(s, elements)
  {
    var left := elements;
    s := [];
    while left != {}
      invariant left <= elements && Distinct(s)
      invariant forall x :: x in s <==> x in elements && x !in left
      decreases |left|
    {
      var x :| x in left;
      s := s + [x];
      left := left - {x};
    }
    Text.AtMostIsOrder();
    SortSorted(s, Text.AtMost);
    SortMembers(s, Text.AtMost);
    SortDistinct(s, Text.AtMost);
    s := Sort(s, Text.AtMost);
  }

  lemma PathsUnfold(fields: seq<Bytes>, decode: Bytes -> string)
    requires fields != [] && fields[0] != [] && KnownStatus(fields[0])
    requires var n := PathCount(fields[0]); 1 + n <= |fields| && AllNonEmpty(fields[1..1 + n])
    ensures var n := PathCount(fields[0]);
      var whole, rest := ParseFields(fields), ParseFields(fields[1 + n..]);
      && (whole.Changes? <==> rest.Changes?)
      && (whole.Changes? ==>
            PathsOf(whole.list, decode) == Decoded(fields[1..1 + n], decode) + PathsOf(rest.list, decode))
  {
    var n := PathCount(fields[0]);
    var whole, rest := ParseFields(fields), ParseFields(fields[1 + n..]);
    if rest.Changes? {
      assert whole.list[0].paths == fields[1..1 + n] && whole.list[1..] == rest.list;
    }
  }

  /** `rest` is what is still to be parsed of `whole`, and `paths` are those of the part before it. */
  predicate Ahead(whole: Parse, paths: set<string>, rest: Parse, decode: Bytes -> string)
  {
    (whole.Changes? <==> rest.Changes?) &&
    (whole.Changes? ==> PathsOf(whole.list, decode) == paths + PathsOf(rest.list, decode))
  }

  lemma AheadStep(whole: Parse, paths: set<string>, fields: seq<Bytes>, decode: Bytes -> string)
    requires Ahead(whole, paths, ParseFields(fields), decode)
    requires fields != [] && fields[0] != [] && KnownStatus(fields[0])
    requires var n := PathCount(fields[0]); 1 + n <= |fields| && AllNonEmpty(fields[1..1 + n])
    ensures var n := PathCount(fields[0]);
      Ahead(whole, paths + Decoded(fields[1..1 + n], decode), ParseFields(fields[1 + n..]), decode)
  {
    PathsUnfold(fields, decode);
  }

  lemma RejectedHead(fields: seq<Bytes>)
    requires fields != [] && fields[0] != []
    ensures !KnownStatus(fields[0]) ==> ParseFields(fields) == Malformed
    ensures var n := PathCount(fields[0]);
      1 + n > |fields| || !AllNonEmpty(fields[1..1 + n]) ==> ParseFields(fields) == Malformed
  {
  }

  lemma EndOfFields(fields: seq<Bytes>)
    requires fields == [] || fields[0] == []
    ensures ParseFields(fields) == if |fields| == 1 then Changes([]) else Malformed
  {
  }

  datatype Found = Found(paths: set<string>) | NotFound

  /** The loop over the fields, and the check of what is left behind it. */
  method CollectPaths(fields: seq<Bytes>, decode: Bytes -> string) returns (r: Found)
    requires fields != []
    ensures r == match ParseFields(fields)
      case Malformed => NotFound
      case Changes(list) => Found(PathsOf(list, decode))
  {
    var paths: set<string> := {};
    var index := 0;
    ghost var whole := ParseFields(fields);
    assert fields[0..] == fields;
    while index < |fields| && fields[index] != []
      invariant 0 <= index <= |fields|
      invariant Ahead(whole, paths, ParseFields(fields[index..]), decode)
      decreases |fields| - index
    {
      ghost var rest := fields[index..];
      var status := fields[index];
      assert rest[0] == status;
      RejectedHead(rest);
      if !KnownStatus(status) {
        return NotFound;
      }
      var n := PathCount(status);
      if index + 1 + n > |fields| {
        return NotFound;
      }
      var values := fields[index + 1..index + 1 + n];
      assert values == rest[1..1 + n];
      if !AllNonEmpty(values) {
        return NotFound;
      }
      assert fields[index + 1 + n..] == rest[1 + n..];
      AheadStep(whole, paths, rest, decode);
      paths := paths + Decoded(values, decode);
      index := index + 1 + n;
    }
    EndOfFields(fields[index..]);
    if index != |fields| - 1 || fields[index] != [] {
      return NotFound;
    }
    r := Found(paths);
  }

  /** `_paths_from_name_status`: accepts exactly the printed listings, and returns precisely their
      paths, both sides of a rename or copy, sorted and without repeats. */
  method PathsFromNameStatus(raw: Bytes, decode: Bytes -> string) returns (r: Listing)
    ensures r.Paths? <==> exists cs :: ValidChanges(cs) && raw == Printed(cs)
    ensures forall cs :: ValidChanges(cs) && raw == Printed(cs) ==> r.Paths? && SortedSet(r.paths, PathsOf(cs, decode))
  {
    var found := CollectPaths(Split(raw), decode);
    ParserTotal(raw);
    if found.NotFound? {
      return GitDiffError;
    }
    var sorted := SortSet(found.paths);
    r := Paths(sorted);
  }

  lemma ParserTotal(raw: Bytes)
    ensures (exists cs :: ValidChanges(cs) && raw == Printed(cs)) <==> ParseFields(Split(raw)).Changes?
    ensures forall cs :: ValidChanges(cs) && raw == Printed(cs) ==> ParseFields(Split(raw)) == Changes(cs)
  {
    forall cs | ValidChanges(cs) && raw == Printed(cs) ensures ParseFields(Split(raw)) == Changes(cs) {
      ParserInvertsPrinter(raw, cs);
    }
    if ParseFields(Split(raw)).Changes? { ParserInvertsPrinter(raw, ParseFields(Split(raw)).list); }
  }

  /** A rename or a copy lists two paths, and an addition, deletion, modification or type change one. */
  lemma ChangesHaveTheirPaths(c: Change)
    requires ValidChange(c)
    ensures c.status[0] in {'R' as int as byte, 'C' as int as byte} <==> |c.paths| == 2
    ensures c.status[0] in {'A' as int as byte, 'D' as int as byte, 'M' as int as byte, 'T' as int as byte} <==>
      |c.paths| == 1
  {
  }

  /** Every such change is listed and read back, whatever its score and its paths. */
  lemma ChangesAreAccepted(letter: char, score: Bytes, paths: seq<Bytes>)
    requires letter in {'A', 'C', 'D', 'M', 'R', 'T'} && |paths| == if letter in {'R', 'C'} then 2 else 1
    requires forall i :: 0 <= i < |score| ==> '0' as int <= score[i] as int <= '9' as int
    requires forall i :: 0 <= i < |paths| ==> paths[i] != [] && NUL !in paths[i]
    ensures var c := Change([letter as int as byte] + score, paths);
      ValidChange(c) && ParseFields(Split(Printed([c]))) == Changes([c])
  {
    var c := Change([letter as int as byte] + score, paths);
    assert ValidChanges([c]);
    ParserInvertsPrinter(Printed([c]), [c]);
  }

  /** The paths listed are all the paths of all the changes. */
  lemma {:induction false} PathsAreAll(cs: seq<Change>, decode: Bytes -> string, p: string)
    ensures p in PathsOf(cs, decode) <==> exists c, q :: c in cs && q in c.paths && p == decode(q)
  {
    if cs != [] {
      PathsAreAll(cs[1..], decode, p);
      assert cs == [cs[0]] + cs[1..];
      if p in Decoded(cs[0].paths, decode) {
        var i :| 0 <= i < |cs[0].paths| && p == decode(cs[0].paths[i]);
        assert cs[0] in cs && cs[0].paths[i] in cs[0].paths;
      }
      if c, q :| c in cs && q in c.paths && p == decode(q) {
        if c == cs[0] {
          var i :| 0 <= i < |cs[0].paths| && cs[0].paths[i] == q;
        } else {
          assert c in cs[1..];
        }
      }
    }
  }

  /** Fields are closed by the zero byte alone. */
  lemma ZeroSeparates(b: byte)
    ensures Split([b]) == if b == 0 then [[], []] else [[b]]
  {
    var raw, none := [b], [];
    assert raw[1..] == none && Split(none) == [[]];
    assert [raw[0]] + none == raw;
  }
}
