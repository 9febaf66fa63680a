/** infra_recovery.py, `render_retry_comment`: the JSON text inside a marker, and what it can be mistaken for. */
module RetryPayload {
  import opened RetryBudget
  import opened RetrySummary
  import Json
  import Text

  // ---- `json.dumps` strings: ASCII only ----

  function Hex4(n: nat): string
    requires n < 65536
  {
    [Json.Hex(n / 4096), Json.Hex(n / 256 % 16), Json.Hex(n / 16 % 16), Json.Hex(n % 16)]
  }

  function Hex4Value(text: string): int
    requires |text| >= 4
  {
    ((Json.HexValue(text[0]) * 16 + Json.HexValue(text[1])) * 16 + Json.HexValue(text[2])) * 16 + Json.HexValue(text[3])
  }

  lemma Hex4Reads(n: nat, rest: string)
    requires n < 65536
    ensures Hex4Value(Hex4(n) + rest) == n
  {
    HexReads(n / 4096);
    HexReads(n / 256 % 16);
    HexReads(n / 16 % 16);
    HexReads(n % 16);
    var text := Hex4(n) + rest;
    assert text[..4] == Hex4(n);
    NibblesAddUp(n);
  }

  lemma HexReads(n: nat)
    requires n < 16
    ensures Json.HexValue(Json.Hex(n)) == n
  {
  }

  lemma NibblesAddUp(n: nat)
    ensures ((n / 4096 * 16 + n / 256 % 16) * 16 + n / 16 % 16) * 16 + n % 16 == n
  {
    var a := n / 16;
    var b := a / 16;
    var c := b / 16;
    assert n == 16 * a + n % 16 && a == 16 * b + a % 16 && b == 16 * c + b % 16;
    assert n / 256 == b;
    assert n / 4096 == c;
  }

  const LEAD: string := ['\\', 'u']

  /** Everything outside blank to tilde is escaped, by surrogates when it takes two. */
  function Escape(c: char): (e: string)
    ensures e != [] && e[0] != '"'
  {
    if c <= '~' then Json.Escape(c)
    else if c as int < 65536 then LEAD + Hex4(c as int)
    else
      var v := c as int - 65536;
      LEAD + Hex4(55296 + v / 1024) + (LEAD + Hex4(56320 + v % 1024))
  }

  /** The character an escaped text starts with. */
  function Unescape(text: string): int
    requires text != []
  {
    if |text| < 6 || text[..2] != LEAD then Json.Unescape(text)
    else
      var first := Hex4Value(text[2..]);
      if 55296 <= first < 56320 && |text| >= 12
      then 65536 + (first - 55296) * 1024 + Hex4Value(text[8..]) - 56320
      else first
  }

  lemma UnescapeShort(c: char, rest: string)
    requires c <= '~'
    ensures Unescape(Escape(c) + rest) == c as int
  {
    var e := Json.Escape(c);
    var text := e + rest;
    Json.UnescapeEscape(c, rest);
    if |text| >= 6 && text[..2] == LEAD {
      assert text[0] == '\\' && text[1] == 'u';
      assert e[0] == '\\' && |e| >= 2 && e[1] == 'u';
      assert c < ' ' && text[2] == '0' && text[3] == '0';
      assert text[2..][2] == text[4] && text[2..][3] == text[5];
      assert Json.HexValue('0') == 0;
    }
  }

  lemma UnitReads(n: nat, rest: string)
    requires n < 65536
    ensures |LEAD + Hex4(n) + rest| == 6 + |rest| && (LEAD + Hex4(n) + rest)[..2] == LEAD
    ensures (LEAD + Hex4(n) + rest)[2..] == Hex4(n) + rest && Hex4Value((LEAD + Hex4(n) + rest)[2..]) == n
  {
    Hex4Reads(n, rest);
    assert (LEAD + Hex4(n) + rest)[2..] == Hex4(n) + rest;
  }

  lemma UnescapeWide(c: char, rest: string)
    requires '~' < c && c as int < 65536
    ensures Unescape(Escape(c) + rest) == c as int
  {
    UnitReads(c as int, rest);
    assert !(55296 <= c as int < 56320);
  }

  lemma PairReads(high: nat, low: nat, rest: string)
    requires 55296 <= high < 56320 && low < 65536
    ensures Unescape(LEAD + Hex4(high) + (LEAD + Hex4(low) + rest)) == 65536 + (high - 55296) * 1024 + low - 56320
  {
    var tail := LEAD + Hex4(low) + rest;
    var text := LEAD + Hex4(high) + tail;
    UnitReads(high, tail);
    UnitReads(low, rest);
    assert text[8..] == tail[2..];
  }

  lemma UnescapePair(c: char, rest: string)
    requires c as int >= 65536
    ensures Unescape(Escape(c) + rest) == c as int
  {
    var v := c as int - 65536;
    Halves(v);
    var high, low := 55296 + v / 1024, 56320 + v % 1024;
    assert Escape(c) == LEAD + Hex4(high) + (LEAD + Hex4(low));
    Text.Regroup(LEAD + Hex4(high), LEAD + Hex4(low), rest);
    PairReads(high, low, rest);
  }

  lemma Halves(v: int)
    requires 0 <= v < 1048576
    ensures 0 <= v / 1024 < 1024 && v == v / 1024 * 1024 + v % 1024
  {
  }

  lemma UnescapeEscape(c: char, rest: string)
    ensures Unescape(Escape(c) + rest) == c as int
  {
    if c <= '~' {
      UnescapeShort(c, rest);
    } else if c as int < 65536 {
      UnescapeWide(c, rest);
    } else {
      UnescapePair(c, rest);
    }
  }

  lemma EscapeUnique(c: char, more: string, d: char, other: string)
    requires Escape(c) + more == Escape(d) + other
    ensures c == d && more == other
  {
    UnescapeEscape(c, more);
    UnescapeEscape(d, other);
    assert c == d;
    Text.SamePrefix(Escape(c), more, other);
  }

  function Escaped(s: string): string
  {
    if s == [] then [] else Escape(s[0]) + Escaped(s[1..])
  }

  lemma EscapedStep(s: string, r: string)
    requires s != []
    ensures Escaped(s) + r == Escape(s[0]) + (Escaped(s[1..]) + r)
  {
    Text.Regroup(Escape(s[0]), Escaped(s[1..]), r);
  }

  lemma EscapedHead(s: string, r: string)
    ensures (Escaped(s) + (['"'] + r))[0] == '"' <==> s == []
  {
    if s != [] {
      assert (Escaped(s) + (['"'] + r))[0] == Escape(s[0])[0];
    }
  }

  lemma EscapedHeads(s: string, r: string, t: string, u: string)
    requires s != [] && t != [] && Escaped(s) + r == Escaped(t) + u
    ensures s[0] == t[0] && Escaped(s[1..]) + r == Escaped(t[1..]) + u
  {
    EscapedStep(s, r);
    EscapedStep(t, u);
    EscapeUnique(s[0], Escaped(s[1..]) + r, t[0], Escaped(t[1..]) + u);
  }

  lemma {:induction false} EscapedUnique(s: string, r: string, t: string, u: string)
    requires Escaped(s) + (['"'] + r) == Escaped(t) + (['"'] + u)
    ensures s == t && r == u
  {
    EscapedHead(s, r);
    EscapedHead(t, u);
    if s == [] {
      assert Escaped(s) + (['"'] + r) == ['"'] + r && Escaped(t) + (['"'] + u) == ['"'] + u;
      Text.SamePrefix(['"'], r, u);
    } else {
      EscapedHeads(s, ['"'] + r, t, ['"'] + u);
      EscapedUnique(s[1..], r, t[1..], u);
      assert s == [s[0]] + s[1..] && t == [t[0]] + t[1..];
    }
  }

  // ---- text as strings between gaps ----

  /** A quoted string and the plain text up to the next quote. */
  datatype Piece = Piece(quote: string, gap: string)

  function Flat(pieces: seq<Piece>): string
  {
    if pieces == [] then []
    else ['"'] + (Escaped(pieces[0].quote) + (['"'] + (pieces[0].gap + Flat(pieces[1..]))))
  }

  predicate PlainGap(gap: string)
  {
    '"' !in gap && '>' !in gap
  }

  ghost predicate PlainGaps(pieces: seq<Piece>)
  {
    forall i :: 0 <= i < |pieces| ==> PlainGap(pieces[i].gap)
  }

  function UpToQuote(s: string): nat
  {
    if s == [] || s[0] == '"' then 0 else 1 + UpToQuote(s[1..])
  }

  lemma {:induction false} GapEnds(a: string, more: string)
    requires '"' !in a && (more != [] ==> more[0] == '"')
    ensures UpToQuote(a + more) == |a|
  {
    if a == [] {
      assert a + more == more;
    } else {
      assert a[0] in a && (a + more)[1..] == a[1..] + more;
      GapEnds(a[1..], more);
    }
  }

  lemma GapUnique(a: string, more: string, b: string, other: string)
    requires '"' !in a && '"' !in b && (more != [] ==> more[0] == '"') && (other != [] ==> other[0] == '"')
    requires a + more == b + other
    ensures a == b && more == other
  {
    GapEnds(a, more);
    GapEnds(b, other);
    Text.SuffixUnique(a, more, b, other);
  }

  /** The pieces can be read back off the text. */
  lemma {:induction false} FlatUnique(a: seq<Piece>, b: seq<Piece>)
    requires PlainGaps(a) && PlainGaps(b) && Flat(a) == Flat(b)
    ensures a == b
  {
    if a != [] {
      var ra, rb := a[0].gap + Flat(a[1..]), b[0].gap + Flat(b[1..]);
      Text.SamePrefix(['"'], Escaped(a[0].quote) + (['"'] + ra), Escaped(b[0].quote) + (['"'] + rb));
      EscapedUnique(a[0].quote, ra, b[0].quote, rb);
      GapUnique(a[0].gap, Flat(a[1..]), b[0].gap, Flat(b[1..]));
      FlatUnique(a[1..], b[1..]);
      assert a == [a[0]] + a[1..] && b == [b[0]] + b[1..];
    }
  }

  // ---- stopping short ----

  /** Inside `json` a brace is followed, after blanks, by a comment close: a lazy match stops short there. */
  predicate StopsShort(json: string)
  {
    json != "" && ((json[0] == '}' && CLOSE <= Skip(json[1..])) || StopsShort(json[1..]))
  }

  function SkipBlanks(s: string): string
  {
    if s != "" && s[0] == ' ' then SkipBlanks(s[1..]) else s
  }

  /** The field holds a brace, any number of blanks, and a comment close. */
  predicate Breaks(s: string)
  {
    s != "" && ((s[0] == '}' && CLOSE <= SkipBlanks(s[1..])) || Breaks(s[1..]))
  }

  lemma {:induction false} SkipStops(x: string, c: char, y: string)
    requires !Text.IsSpace(c) && c != '-' && c != '>'
    ensures CLOSE <= Skip(x + ([c] + y)) <==> CLOSE <= Skip(x)
  {
    if x == "" {
      assert x + ([c] + y) == [c] + y;
    } else {
      assert (x + ([c] + y))[1..] == x[1..] + ([c] + y);
      if Text.IsSpace(x[0]) {
        SkipStops(x[1..], c, y);
      } else {
        CloseStops(x, c, y);
      }
    }
  }

  lemma CloseStops(x: string, c: char, y: string)
    requires c != '-' && c != '>'
    ensures CLOSE <= x + ([c] + y) <==> CLOSE <= x
  {
    var w := x + ([c] + y);
    if |x| >= 3 {
      assert w[..3] == x[..3];
    } else {
      assert w[|x|] == c && CLOSE[|x|] != c;
    }
  }

  /** A character that is no part of the pattern separates what is before it from what is after. */
  lemma {:induction false} StopsApart(x: string, c: char, y: string)
    requires !Text.IsSpace(c) && c != '-' && c != '>' && c != '}'
    ensures StopsShort(x + ([c] + y)) <==> StopsShort(x) || StopsShort(y)
  {
    if x == "" {
      assert x + ([c] + y) == [c] + y && ([c] + y)[1..] == y;
    } else {
      assert (x + ([c] + y))[1..] == x[1..] + ([c] + y);
      StopsApart(x[1..], c, y);
      SkipStops(x[1..], c, y);
    }
  }

  lemma {:induction false} NoGreaterNoStop(s: string)
    requires '>' !in s
    ensures !StopsShort(s)
  {
    if s != "" {
      NoGreaterNoStop(s[1..]);
      SkipKeepsChars(s[1..]);
    }
  }

  lemma {:induction false} SkipKeepsChars(s: string)
    ensures forall c :: c in Skip(s) ==> c in s
    ensures '>' !in s ==> !(CLOSE <= Skip(s))
  {
    if s != "" && Text.IsSpace(s[0]) { SkipKeepsChars(s[1..]); }
    if CLOSE <= Skip(s) { assert Skip(s)[2] == '>'; }
  }

  // ---- escaping keeps exactly the breaks made of plain blanks ----

  lemma EscapeShape(c: char)
    ensures c in {'}', ' ', '-', '>'} ==> Escape(c) == [c]
    ensures c !in {'}', ' ', '-', '>'} ==>
      Escape(c)[0] !in {'}', ' ', '-', '>'} && !Text.IsSpace(Escape(c)[0]) && '}' !in Escape(c) && '>' !in Escape(c)
  {
    if c > '~' {
      LongEscapeShape(c);
    }
  }

  lemma HexShape(n: nat)
    requires n < 16
    ensures Json.Hex(n) != '}' && Json.Hex(n) != '>'
  {
  }

  lemma Hex4Shape(n: nat)
    requires n < 65536
    ensures '}' !in Hex4(n) && '>' !in Hex4(n)
  {
    HexShape(n / 4096);
    HexShape(n / 256 % 16);
    HexShape(n / 16 % 16);
    HexShape(n % 16);
  }

  lemma UnitShape(n: nat)
    requires n < 65536
    ensures var u := LEAD + Hex4(n); u[0] == '\\' && '}' !in u && '>' !in u
  {
    Hex4Shape(n);
  }

  lemma LongEscapeShape(c: char)
    requires c > '~'
    ensures Escape(c)[0] == '\\' && '}' !in Escape(c) && '>' !in Escape(c)
  {
    if c as int < 65536 { UnitShape(c as int); } else { PairEscapeShape(c); }
  }

  lemma PairEscapeShape(c: char)
    requires c as int >= 65536
    ensures Escape(c)[0] == '\\' && '}' !in Escape(c) && '>' !in Escape(c)
  {
    var v := c as int - 65536;
    var high, low := 55296 + v / 1024, 56320 + v % 1024;
    assert Escape(c) == LEAD + Hex4(high) + (LEAD + Hex4(low));
    PairShape(high, low);
  }

  lemma PairShape(high: nat, low: nat)
    requires high < 65536 && low < 65536
    ensures var u := LEAD + Hex4(high) + (LEAD + Hex4(low)); u[0] == '\\' && '}' !in u && '>' !in u
  {
    UnitShape(high);
    UnitShape(low);
    ShapesJoin(LEAD + Hex4(high), LEAD + Hex4(low));
  }

  lemma ShapesJoin(a: string, b: string)
    requires '}' !in a && '>' !in a && '}' !in b && '>' !in b
    ensures '}' !in a + b && '>' !in a + b
  {
  }

  lemma {:induction false} EscapedClose(s: string)
    ensures CLOSE <= Escaped(s) <==> CLOSE <= s
  {
    assert CLOSE == ['-', '-', '>'];
    StartsPlain(s, "-->");
  }

  /** An escaped text starts with plain pattern characters exactly when the text does. */
  lemma {:induction false} StartsPlain(s: string, p: string)
    requires forall i :: 0 <= i < |p| ==> p[i] in {'-', '>'}
    ensures p <= Escaped(s) <==> p <= s
  {
    if p != "" && s != "" {
      EscapeShape(s[0]);
      StartsPlain(s[1..], p[1..]);
      var e := Escaped(s);
      PrefixStep(p, e);
      PrefixStep(p, s);
      if s[0] in {'-', '>'} {
        assert e == [s[0]] + Escaped(s[1..]);
      } else {
        assert e[0] == Escape(s[0])[0];
      }
    }
  }

  lemma PrefixStep(p: string, s: string)
    requires p != "" && s != ""
    ensures p <= s <==> p[0] == s[0] && p[1..] <= s[1..]
  {
    if p <= s {
      assert s[..|p|] == p;
      assert s[1..][..|p| - 1] == p[1..];
    }
    if p[0] == s[0] && p[1..] <= s[1..] {
      assert forall i :: 1 <= i < |p| ==> p[i] == p[1..][i - 1] == s[1..][i - 1] == s[i];
    }
  }

  lemma {:induction false} EscapedSkip(s: string)
    ensures CLOSE <= Skip(Escaped(s)) <==> CLOSE <= SkipBlanks(s)
  {
    if s != "" {
      EscapeShape(s[0]);
      if s[0] == ' ' {
        assert Escaped(s)[0] == ' ' && Escaped(s)[1..] == Escaped(s[1..]);
        EscapedSkip(s[1..]);
      } else {
        assert Escaped(s)[0] == Escape(s[0])[0];
        EscapedClose(s);
      }
    }
  }

  lemma {:induction false} NoBraceStops(e: string, rest: string)
    requires '}' !in e
    ensures StopsShort(e + rest) <==> StopsShort(rest)
  {
    if e == "" {
      assert e + rest == rest;
    } else {
      assert e[0] in e && (e + rest)[1..] == e[1..] + rest;
      NoBraceStops(e[1..], rest);
    }
  }

  lemma {:induction false} EscapedBreaks(s: string)
    ensures StopsShort(Escaped(s)) <==> Breaks(s)
  {
    if s != "" {
      EscapedBreaks(s[1..]);
      EscapeShape(s[0]);
      if s[0] == '}' {
        EscapedSkip(s[1..]);
        assert Escaped(s)[0] == '}' && Escaped(s)[1..] == Escaped(s[1..]);
      } else {
        NoBraceStops(Escape(s[0]), Escaped(s[1..]));
      }
    }
  }

  ghost predicate AnyBreaks(pieces: seq<Piece>)
  {
    exists i :: 0 <= i < |pieces| && Breaks(pieces[i].quote)
  }

  /** Only a quoted string can make the text stop short. */
  lemma {:induction false} FlatStops(pieces: seq<Piece>)
    requires PlainGaps(pieces)
    ensures StopsShort(Flat(pieces)) <==> AnyBreaks(pieces)
  {
    if pieces != [] {
      var p, rest := pieces[0], pieces[1..];
      FlatStops(rest);
      EscapedBreaks(p.quote);
      StopsApart("", '"', Escaped(p.quote) + (['"'] + (p.gap + Flat(rest))));
      StopsApart(Escaped(p.quote), '"', p.gap + Flat(rest));
      NoGreaterNoStop(p.gap);
      GapStops(p.gap, rest);
      assert AnyBreaks(pieces) <==> Breaks(p.quote) || AnyBreaks(rest) by {
        if i :| 0 <= i < |rest| && Breaks(rest[i].quote) { assert pieces[i + 1] == rest[i]; }
        if i :| 0 <= i < |pieces| && Breaks(pieces[i].quote) { assert i == 0 || rest[i - 1] == pieces[i]; }
      }
      assert "" + (['"'] + (Escaped(p.quote) + (['"'] + (p.gap + Flat(rest))))) == Flat(pieces);
    }
  }

  lemma GapStops(gap: string, rest: seq<Piece>)
    requires !StopsShort(gap)
    ensures StopsShort(gap + Flat(rest)) <==> StopsShort(Flat(rest))
  {
    if rest == [] {
      assert gap + Flat(rest) == gap;
    } else {
      var more := Escaped(rest[0].quote) + (['"'] + (rest[0].gap + Flat(rest[1..])));
      StopsApart(gap, '"', more);
      StopsApart("", '"', more);
      assert "" + (['"'] + more) == Flat(rest);
    }
  }

  // ---- the payload ----

  /** What one recorded decision says; `log` is the error excerpt a block quotes. */
  datatype Report = Report(target: Target, key: string, timestamp: string, attempts: int, maxAttempts: int,
                           jobs: seq<int>, exhausted: bool, log: string)

  /** A member of the payload, with the text up to the next key; `Last` closes the object. */
  datatype Member =
    | Num(key: string, n: int)
    | Str(key: string, value: string)
    | Raw(key: string, gap: string)
    | Last(key: string, value: string)

  function PiecesOf(m: Member): seq<Piece>
  {
    match m
    case Num(key, n) => [Piece(key, ": " + Int(n) + ", ")]
    case Str(key, value) => [Piece(key, ": "), Piece(value, ", ")]
    case Raw(key, gap) => [Piece(key, gap)]
    case Last(key, value) => [Piece(key, ": "), Piece(value, "}")]
  }

  function Pieces(members: seq<Member>): seq<Piece>
  {
    if members == [] then [] else PiecesOf(members[0]) + Pieces(members[1..])
  }

  function JobList(jobs: seq<int>): string
  {
    if jobs == [] then "" else if |jobs| == 1 then Int(jobs[0]) else Int(jobs[0]) + ", " + JobList(jobs[1..])
  }

  /** How the payload spells its keys and its constants. */
  datatype Names = Names(
    attempts: string, blocker: string, cls: string, external: string, eventKey: string, headSha: string,
    lastErrorSummary: string, maxAttempts: string, nextAction: string, blocked: string, pullRequestNumber: string,
    repository: string, retryJobIds: string, runId: string, schemaVersion: string, status: string,
    exhausted: string, retrying: string, timestamp: string, userActionRequired: string)

  const NAMES := Names(
    "attempts", "blocker", "class", "external_" + "infrastructure", "eventKey", "headSha",
    "lastErrorSummary", "maxAttempts", "nextAction", "blocked_exhausted", "pullRequestNumber",
    "repository", "retryJobIds", "runId", "schemaVersion", "status",
    "exhausted", "retrying", "timestamp", "userActionRequired")

  /** `build_blocker`, its members sorted by key. */
  function Blocker(r: Report, n: Names): seq<Member>
  {
    [Raw(n.blocker, ": {"), Num(n.attempts, r.attempts), Str(n.cls, n.external), Str(n.headSha, r.target.head),
     Str(n.lastErrorSummary, SanitizeSummary(r.log)), Num(n.maxAttempts, r.maxAttempts), Str(n.nextAction, n.blocked),
     Num(n.pullRequestNumber, r.target.pr), Str(n.repository, r.target.repository), Num(n.runId, r.target.run),
     Raw(n.userActionRequired, ": false}, ")]
  }

  function Tail(r: Report, n: Names): seq<Member>
  {
    [Str(n.eventKey, r.key), Str(n.headSha, r.target.head), Num(n.maxAttempts, r.maxAttempts),
     Num(n.pullRequestNumber, r.target.pr), Str(n.repository, r.target.repository),
     Raw(n.retryJobIds, ": [" + JobList(r.jobs) + "], "), Num(n.runId, r.target.run), Num(n.schemaVersion, 1),
     Str(n.status, if r.exhausted then n.exhausted else n.retrying), Last(n.timestamp, r.timestamp)]
  }

  function Members(r: Report, n: Names): seq<Member>
  {
    [Num(n.attempts, r.attempts)] + ((if r.exhausted then Blocker(r, n) else []) + Tail(r, n))
  }

  /** `json.dumps(payload, sort_keys=True)`; the source spells it with `NAMES`. */
  function PayloadText(r: Report, n: Names): string
  {
    "{" + Flat(Pieces(Members(r, n)))
  }

  // ---- the payload is readable ----

  lemma {:induction false} DecimalIsPlain(n: nat)
    ensures PlainGap(Text.Decimal(n))
  {
    var d := Text.Decimal(n);
    forall c | c in d ensures c != '"' && c != '>' {
      var i :| 0 <= i < |d| && d[i] == c;
    }
  }

  lemma IntIsPlain(n: int)
    ensures PlainGap(Int(n)) && PlainGap(": " + Int(n) + ", ")
  {
    DecimalIsPlain(if n < 0 then -n else n);
  }

  lemma {:induction false} JobsArePlain(jobs: seq<int>)
    ensures PlainGap(JobList(jobs))
  {
    if jobs != [] {
      IntIsPlain(jobs[0]);
      JobsArePlain(jobs[1..]);
    }
  }

  predicate PlainMember(m: Member)
  {
    PlainGap(m.key) && (m.Raw? ==> PlainGap(m.gap))
  }

  lemma PlainPieces(m: Member)
    requires PlainMember(m)
    ensures PlainGaps(PiecesOf(m))
  {
    if m.Num? { IntIsPlain(m.n); }
  }

  lemma {:induction false} MembersArePlain(members: seq<Member>)
    requires forall i :: 0 <= i < |members| ==> PlainMember(members[i])
    ensures PlainGaps(Pieces(members))
  {
    if members != [] {
      PlainPieces(members[0]);
      MembersArePlain(members[1..]);
    }
  }

  predicate IsLetter(c: char)
  {
    'a' <= c <= 'z'
  }

  /** All the rest relies on: names that need no escape, and a few that can be told apart. */
  predicate PlainNames(n: Names)
  {
    PlainGap(n.attempts) && PlainGap(n.blocker) && PlainGap(n.cls) && PlainGap(n.external) && PlainGap(n.eventKey) &&
    PlainGap(n.headSha) && PlainGap(n.lastErrorSummary) && PlainGap(n.maxAttempts) && PlainGap(n.nextAction) &&
    PlainGap(n.blocked) && PlainGap(n.pullRequestNumber) && PlainGap(n.repository) && PlainGap(n.retryJobIds) &&
    PlainGap(n.runId) && PlainGap(n.schemaVersion) && PlainGap(n.status) && PlainGap(n.exhausted) &&
    PlainGap(n.retrying) && PlainGap(n.timestamp) && PlainGap(n.userActionRequired) && n.blocker != n.eventKey &&
    n.cls != n.eventKey && n.cls != n.blocker && n.attempts != "" && IsLetter(n.attempts[0])
  }

  lemma BlockerIsPlain(r: Report, n: Names)
    requires PlainNames(n)
    ensures forall i :: 0 <= i < |Blocker(r, n)| ==> PlainMember(Blocker(r, n)[i])
  {
    assert PlainGap(": {") && PlainGap(": false}, ");
  }

  lemma TailIsPlain(r: Report, n: Names)
    requires PlainNames(n)
    ensures forall i :: 0 <= i < |Tail(r, n)| ==> PlainMember(Tail(r, n)[i])
  {
    JobsArePlain(r.jobs);
    assert PlainGap(": [" + JobList(r.jobs) + "], ");
  }

  lemma PayloadIsPlain(r: Report, n: Names)
    requires PlainNames(n)
    ensures forall i :: 0 <= i < |Members(r, n)| ==> PlainMember(Members(r, n)[i])
    ensures PlainGaps(Pieces(Members(r, n)))
  {
    BlockerIsPlain(r, n);
    TailIsPlain(r, n);
    MembersArePlain(Members(r, n));
  }

  // ---- which payloads stop short ----

  lemma {:induction false} NoGreaterNoBreak(s: string)
    requires '>' !in s
    ensures !Breaks(s)
  {
    if s != "" {
      NoGreaterNoBreak(s[1..]);
      SkipBlanksKeepsChars(s[1..]);
    }
  }

  lemma {:induction false} SkipBlanksKeepsChars(s: string)
    ensures '>' !in s ==> !(CLOSE <= SkipBlanks(s))
  {
    if s != "" && s[0] == ' ' {
      SkipBlanksKeepsChars(s[1..]);
    } else if CLOSE <= s {
      assert s[2] == '>';
    }
  }

  lemma {:induction false} NoCloseNoBreak(s: string)
    requires !Contains(s, CLOSE)
    ensures !Breaks(s)
  {
    if s != "" {
      NoCloseNoBreak(s[1..]);
      SkipBlanksHasNone(s[1..]);
    }
  }

  lemma {:induction false} SkipBlanksHasNone(s: string)
    requires !Contains(s, CLOSE)
    ensures !Contains(SkipBlanks(s), CLOSE)
  {
    if s != "" && s[0] == ' ' { SkipBlanksHasNone(s[1..]); }
  }

  lemma AnyBreaksConcat(a: seq<Piece>, b: seq<Piece>)
    ensures AnyBreaks(a + b) <==> AnyBreaks(a) || AnyBreaks(b)
  {
    var c := a + b;
    if i :| 0 <= i < |a| && Breaks(a[i].quote) { assert c[i] == a[i]; }
    if i :| 0 <= i < |b| && Breaks(b[i].quote) { assert c[|a| + i] == b[i]; }
    if i :| 0 <= i < |c| && Breaks(c[i].quote) { assert c[i] == if i < |a| then a[i] else b[i - |a|]; }
  }

  /** What a member quotes beside its key. */
  predicate MemberBreaks(m: Member)
  {
    match m
    case Str(_, value) => Breaks(value)
    case Last(_, value) => Breaks(value)
    case _ => false
  }

  ghost predicate SomeBreaks(members: seq<Member>)
  {
    exists i :: 0 <= i < |members| && MemberBreaks(members[i])
  }

  lemma OneMemberBreaks(m: Member)
    requires PlainMember(m)
    ensures AnyBreaks(PiecesOf(m)) <==> MemberBreaks(m)
  {
    NoGreaterNoBreak(m.key);
    if m.Str? || m.Last? { assert PiecesOf(m)[1].quote == m.value; }
  }

  lemma {:induction false} MembersBreak(members: seq<Member>)
    requires forall i :: 0 <= i < |members| ==> PlainMember(members[i])
    ensures AnyBreaks(Pieces(members)) <==> SomeBreaks(members)
  {
    if members != [] {
      var m, rest := members[0], members[1..];
      MembersBreak(rest);
      OneMemberBreaks(m);
      AnyBreaksConcat(PiecesOf(m), Pieces(rest));
      SomeBreaksConcat([m], rest);
      assert members == [m] + rest && SomeBreaks([m]) <==> MemberBreaks([m][0]);
    }
  }

  lemma SomeBreaksConcat(a: seq<Member>, b: seq<Member>)
    ensures SomeBreaks(a + b) <==> SomeBreaks(a) || SomeBreaks(b)
  {
    var c := a + b;
    if i :| 0 <= i < |a| && MemberBreaks(a[i]) { assert c[i] == a[i]; }
    if i :| 0 <= i < |b| && MemberBreaks(b[i]) { assert c[|a| + i] == b[i]; }
    if i :| 0 <= i < |c| && MemberBreaks(c[i]) { assert c[i] == if i < |a| then a[i] else b[i - |a|]; }
  }

  lemma BlockerBreaks(r: Report, n: Names)
    requires PlainNames(n)
    ensures SomeBreaks(Blocker(r, n)) <==>
      Breaks(r.target.head) || Breaks(SanitizeSummary(r.log)) || Breaks(r.target.repository)
  {
    NoGreaterNoBreak(n.external);
    NoGreaterNoBreak(n.blocked);
    var b := Blocker(r, n);
    assert MemberBreaks(b[3]) <==> Breaks(r.target.head);
    assert MemberBreaks(b[4]) <==> Breaks(SanitizeSummary(r.log));
    assert MemberBreaks(b[8]) <==> Breaks(r.target.repository);
  }

  lemma TailBreaks(r: Report, n: Names)
    requires PlainNames(n)
    ensures SomeBreaks(Tail(r, n)) <==>
      Breaks(r.key) || Breaks(r.target.head) || Breaks(r.target.repository) || Breaks(r.timestamp)
  {
    NoGreaterNoBreak(n.exhausted);
    NoGreaterNoBreak(n.retrying);
    var t := Tail(r, n);
    assert MemberBreaks(t[0]) <==> Breaks(r.key);
    assert MemberBreaks(t[1]) <==> Breaks(r.target.head);
    assert MemberBreaks(t[4]) <==> Breaks(r.target.repository);
    assert MemberBreaks(t[9]) <==> Breaks(r.timestamp);
  }

  lemma MembersOfPayloadBreak(r: Report, n: Names)
    requires PlainNames(n)
    ensures SomeBreaks(Members(r, n)) <==> (r.exhausted && SomeBreaks(Blocker(r, n))) || SomeBreaks(Tail(r, n))
  {
    var middle := if r.exhausted then Blocker(r, n) else [];
    SomeBreaksConcat(middle, Tail(r, n));
    SomeBreaksConcat([Num(n.attempts, r.attempts)], middle + Tail(r, n));
    assert !SomeBreaks([Num(n.attempts, r.attempts)]);
  }

  /** A payload text stops a lazy match short exactly when one of its free strings breaks it: the excerpt never
      does, whatever the log was. */
  lemma PayloadStops(r: Report, n: Names)
    requires PlainNames(n) && IsSha(r.target.head)
    ensures StopsShort(PayloadText(r, n)) <==> Breaks(r.key) || Breaks(r.target.repository) || Breaks(r.timestamp)
  {
    PayloadIsPlain(r, n);
    MembersBreak(Members(r, n));
    FlatStops(Pieces(Members(r, n)));
    NoBraceStops("{", Flat(Pieces(Members(r, n))));
    SummaryIsInert(r.log);
    NoCloseNoBreak(SanitizeSummary(r.log));
    ShaIsPlain(r.target.head);
    MembersOfPayloadBreak(r, n);
    BlockerBreaks(r, n);
    TailBreaks(r, n);
  }

  lemma ShaIsPlain(head: string)
    requires IsSha(head)
    ensures !Breaks(head)
  {
    assert '>' !in head;
    NoGreaterNoBreak(head);
  }

  // ---- a payload is determined by its text ----

  lemma IntInjective(a: int, b: int)
    requires Int(a) == Int(b)
    ensures a == b
  {
    var s, t := Text.Decimal(if a < 0 then -a else a), Text.Decimal(if b < 0 then -b else b);
    assert Text.IsDigit(s[0]) && Text.IsDigit(t[0]);
    assert a < 0 ==> Int(a)[0] == '-' && Int(a)[1..] == s;
    assert b < 0 ==> Int(b)[0] == '-' && Int(b)[1..] == t;
    Text.DecimalInjective(if a < 0 then -a else a, if b < 0 then -b else b);
  }

  predicate SameShape(m: Member, o: Member)
  {
    m.key == o.key && (m.Num? <==> o.Num?) && (m.Str? <==> o.Str?) && (m.Raw? <==> o.Raw?)
  }

  lemma MemberUnique(m: Member, o: Member)
    requires SameShape(m, o) && PiecesOf(m) == PiecesOf(o)
    ensures m == o
  {
    if m.Num? {
      var a, b := ": " + Int(m.n) + ", ", ": " + Int(o.n) + ", ";
      assert PiecesOf(m)[0].gap == a && PiecesOf(o)[0].gap == b;
      Text.SuffixUnique(": " + Int(m.n), ", ", ": " + Int(o.n), ", ");
      Text.SamePrefix(": ", Int(m.n), Int(o.n));
      IntInjective(m.n, o.n);
    } else if m.Raw? {
      assert PiecesOf(m)[0].gap == m.gap && PiecesOf(o)[0].gap == o.gap;
    } else {
      assert PiecesOf(m)[1].quote == m.value && PiecesOf(o)[1].quote == o.value;
    }
  }

  ghost predicate Alike(a: seq<Member>, b: seq<Member>)
  {
    |a| == |b| && forall i :: 0 <= i < |a| ==> SameShape(a[i], b[i])
  }

  lemma {:induction false} MembersUnique(a: seq<Member>, b: seq<Member>)
    requires Alike(a, b)
    requires Pieces(a) == Pieces(b)
    ensures a == b
  {
    if a != [] {
      var x, y := PiecesOf(a[0]), PiecesOf(b[0]);
      assert SameShape(a[0], b[0]) && |x| == |y|;
      assert x == Pieces(a)[..|x|] && y == Pieces(b)[..|x|];
      assert Pieces(a[1..]) == Pieces(a)[|x|..] && Pieces(b[1..]) == Pieces(b)[|x|..];
      MemberUnique(a[0], b[0]);
      MembersUnique(a[1..], b[1..]);
      assert a == [a[0]] + a[1..] && b == [b[0]] + b[1..];
    }
  }

  lemma SecondKey(r: Report, n: Names)
    ensures |Pieces(Members(r, n))| > 1
    ensures Pieces(Members(r, n))[1].quote == if r.exhausted then n.blocker else n.eventKey
  {
    var members := Members(r, n);
    assert members[1..] == (if r.exhausted then Blocker(r, n) else []) + Tail(r, n);
    assert members[1..][0] == members[1];
    assert Pieces(members) == PiecesOf(members[0]) + (PiecesOf(members[1]) + Pieces(members[1..][1..]));
  }

  /** Two reports with one payload text agree on everything that is read back. */
  lemma PayloadUnique(r: Report, s: Report, n: Names)
    requires PlainNames(n) && PayloadText(r, n) == PayloadText(s, n)
    ensures r.target == s.target && r.key == s.key && r.attempts == s.attempts && r.exhausted == s.exhausted
    ensures r.timestamp == s.timestamp
  {
    PayloadIsPlain(r, n);
    PayloadIsPlain(s, n);
    Text.SamePrefix("{", Flat(Pieces(Members(r, n))), Flat(Pieces(Members(s, n))));
    FlatUnique(Pieces(Members(r, n)), Pieces(Members(s, n)));
    SecondKey(r, n);
    SecondKey(s, n);
    SameMembers(r, s, n);
    TailFields(r, s, n);
  }

  lemma BlockersAlike(r: Report, s: Report, n: Names)
    ensures Alike(Blocker(r, n), Blocker(s, n))
  {
  }

  lemma TailsAlike(r: Report, s: Report, n: Names)
    ensures Alike(Tail(r, n), Tail(s, n))
  {
  }

  lemma AlikeConcat(a: seq<Member>, b: seq<Member>, c: seq<Member>, d: seq<Member>)
    requires Alike(a, b) && Alike(c, d)
    ensures Alike(a + c, b + d)
  {
  }

  lemma SameMembers(r: Report, s: Report, n: Names)
    requires r.exhausted == s.exhausted && Pieces(Members(r, n)) == Pieces(Members(s, n))
    ensures Tail(r, n) == Tail(s, n) && r.attempts == s.attempts
  {
    var x, y := if r.exhausted then Blocker(r, n) else [], if s.exhausted then Blocker(s, n) else [];
    var u, v := [Num(n.attempts, r.attempts)], [Num(n.attempts, s.attempts)];
    BlockersAlike(r, s, n);
    TailsAlike(r, s, n);
    AlikeConcat(x, y, Tail(r, n), Tail(s, n));
    AlikeConcat(u, v, x + Tail(r, n), y + Tail(s, n));
    MembersUnique(Members(r, n), Members(s, n));
    SplitsEqual(u, x, Tail(r, n), v, y, Tail(s, n));
    assert u[0] == v[0];
  }

  lemma SplitsEqual<T>(a: seq<T>, b: seq<T>, c: seq<T>, x: seq<T>, y: seq<T>, z: seq<T>)
    requires |a| == |x| && |b| == |y| && a + (b + c) == x + (y + z)
    ensures a == x && b == y && c == z
  {
    var s, t := a + (b + c), x + (y + z);
    assert a == s[..|a|] && x == t[..|a|];
    assert b + c == s[|a|..] && y + z == t[|a|..];
    assert b == (b + c)[..|b|] && y == (y + z)[..|b|];
    assert c == (b + c)[|b|..] && z == (y + z)[|b|..];
  }

  lemma TailFields(r: Report, s: Report, n: Names)
    requires Tail(r, n) == Tail(s, n)
    ensures r.target == s.target && r.key == s.key && r.timestamp == s.timestamp
  {
    var a, b := Tail(r, n), Tail(s, n);
    assert a[0].value == r.key && b[0].value == s.key;
    assert a[1].value == r.target.head && b[1].value == s.target.head;
    assert a[3].n == r.target.pr && b[3].n == s.target.pr;
    assert a[4].value == r.target.repository && b[4].value == s.target.repository;
    assert a[6].n == r.target.run && b[6].n == s.target.run;
    assert a[9].value == r.timestamp && b[9].value == s.timestamp;
  }

  // ---- what the payload says ----

  /** The members that are read back, under their keys, and the schema they are read with. */
  lemma PayloadSays(r: Report, n: Names)
    ensures var ms := Members(r, n);
      && Num(n.attempts, r.attempts) in ms && Num(n.maxAttempts, r.maxAttempts) in ms
      && Str(n.repository, r.target.repository) in ms && Num(n.pullRequestNumber, r.target.pr) in ms
      && Num(n.runId, r.target.run) in ms && Str(n.headSha, r.target.head) in ms
      && Str(n.eventKey, r.key) in ms && Num(n.schemaVersion, 1) in ms && Last(n.timestamp, r.timestamp) in ms
      && Str(n.status, if r.exhausted then n.exhausted else n.retrying) in ms
      && (Str(n.lastErrorSummary, SanitizeSummary(r.log)) in ms || !r.exhausted)
  {
    var ms, t, b := Members(r, n), Tail(r, n), Blocker(r, n);
    assert Num(n.attempts, r.attempts) == ms[0];
    assert forall m :: m in t ==> m in ms;
    assert r.exhausted ==> forall m :: m in b ==> m in ms;
    assert t[0] in t && t[1] in t && t[2] in t && t[3] in t && t[4] in t;
    assert t[6] in t && t[7] in t && t[8] in t && t[9] in t;
    assert b[4] in b;
  }

  /** Job ids stand in their order, a comma and a blank between. */
  lemma {:induction false} JobsAreJoined(jobs: seq<int>, last: int)
    ensures JobList(jobs + [last]) == if jobs == [] then Int(last) else JobList(jobs) + ", " + Int(last)
  {
    if jobs != [] {
      JobsAreJoined(jobs[1..], last);
      assert (jobs + [last])[1..] == jobs[1..] + [last];
    }
  }

  // ---- no payload is the start of another ----

  /** Only the last gap closes the object. */
  ghost predicate Closing(pieces: seq<Piece>)
  {
    pieces != [] && pieces[|pieces| - 1].gap == "}" &&
    forall i :: 0 <= i < |pieces| - 1 ==> pieces[i].gap != "" && pieces[i].gap[0] != '}'
  }

  lemma FlatHeads(a: seq<Piece>, b: seq<Piece>, z: string)
    requires a != [] && b != [] && Flat(a) + z == Flat(b)
    ensures a[0].quote == b[0].quote
    ensures a[0].gap + (Flat(a[1..]) + z) == b[0].gap + Flat(b[1..])
  {
    var ra, rb := a[0].gap + (Flat(a[1..]) + z), b[0].gap + Flat(b[1..]);
    NestedConcat(['"'], Escaped(a[0].quote), a[0].gap, Flat(a[1..]), z);
    Text.SamePrefix(['"'], Escaped(a[0].quote) + (['"'] + ra), Escaped(b[0].quote) + (['"'] + rb));
    EscapedUnique(a[0].quote, ra, b[0].quote, rb);
  }

  lemma LastGap(b: seq<Piece>, z: string)
    requires Closing(b) && "}" + z == b[0].gap + Flat(b[1..])
    ensures z == ""
  {
    assert (b[0].gap + Flat(b[1..]))[0] == b[0].gap[0];
    assert ("}" + z)[0] == '}';
    assert |b| == 1 && b[1..] == [];
    assert "}" + "" == b[0].gap + Flat(b[1..]);
    Text.SamePrefix("}", z, "");
  }

  lemma GapsAgree(a: seq<Piece>, b: seq<Piece>, z: string)
    requires PlainGaps(a) && PlainGaps(b) && |a| > 1 && b != []
    requires a[0].gap + (Flat(a[1..]) + z) == b[0].gap + Flat(b[1..])
    ensures Flat(a[1..]) + z == Flat(b[1..]) && |b| > 1
  {
    assert Flat(a[1..])[0] == '"' && (Flat(a[1..]) + z)[0] == '"';
    GapUnique(a[0].gap, Flat(a[1..]) + z, b[0].gap, Flat(b[1..]));
  }

  lemma ClosingTail(a: seq<Piece>)
    requires PlainGaps(a) && Closing(a) && |a| > 1
    ensures PlainGaps(a[1..]) && Closing(a[1..])
  {
  }

  lemma {:induction false} FlatPrefixFree(a: seq<Piece>, b: seq<Piece>, z: string)
    requires PlainGaps(a) && PlainGaps(b) && Closing(a) && Closing(b) && Flat(a) + z == Flat(b)
    ensures z == ""
  {
    FlatHeads(a, b, z);
    if |a| > 1 {
      GapsAgree(a, b, z);
      ClosingTail(a);
      ClosingTail(b);
      FlatPrefixFree(a[1..], b[1..], z);
    } else {
      assert a[1..] == [] && Flat(a[1..]) + z == z;
      LastGap(b, z);
    }
  }

  lemma NestedConcat(q: string, e: string, g: string, f: string, h: string)
    ensures q + (e + (q + (g + (f + h)))) == (q + (e + (q + (g + f)))) + h
  {
    Text.Regroup(g, f, h);
    Text.Regroup(q, g + f, h);
    Text.Regroup(e, q + (g + f), h);
    Text.Regroup(q, e + (q + (g + f)), h);
  }

  predicate Open(m: Member)
  {
    !m.Last? && (m.Raw? ==> m.gap != "" && m.gap[0] == ':')
  }

  lemma {:induction false} MembersClose(members: seq<Member>)
    requires members != [] && members[|members| - 1].Last?
    requires forall i :: 0 <= i < |members| - 1 ==> Open(members[i])
    ensures Closing(Pieces(members))
  {
    if |members| > 1 {
      MembersClose(members[1..]);
    } else {
      assert members[1..] == [];
    }
  }

  lemma PayloadCloses(r: Report, n: Names)
    ensures Closing(Pieces(Members(r, n)))
  {
    assert forall i :: 0 <= i < |Blocker(r, n)| ==> Open(Blocker(r, n)[i]);
    assert forall i :: 0 <= i < |Tail(r, n)| - 1 ==> Open(Tail(r, n)[i]);
    MembersClose(Members(r, n));
  }

  lemma PayloadPrefixFree(r: Report, s: Report, n: Names, k: nat)
    requires PlainNames(n) && k < |PayloadText(s, n)|
    ensures PayloadText(r, n) != PayloadText(s, n)[..k]
  {
    var a, b := Pieces(Members(r, n)), Pieces(Members(s, n));
    var z := PayloadText(s, n)[k..];
    PayloadIsPlain(r, n);
    PayloadIsPlain(s, n);
    PayloadCloses(r, n);
    PayloadCloses(s, n);
    if PayloadText(r, n) == PayloadText(s, n)[..k] {
      Text.Regroup("{", Flat(a), z);
      Text.SamePrefix("{", Flat(a) + z, Flat(b));
      FlatPrefixFree(a, b, z);
    }
  }

  // ---- no payload is a part of another ----

  lemma {:induction false} QuotesAreEscaped(s: string, k: nat)
    requires k < |Escaped(s)| && Escaped(s)[k] == '"'
    ensures k > 0 && Escaped(s)[k - 1] == '\\'
  {
    var e, more := Escape(s[0]), Escaped(s[1..]);
    assert Escaped(s) == e + more;
    if k < |e| {
      QuoteInEscape(s[0], k);
    } else {
      assert more[k - |e|] == '"';
      QuotesAreEscaped(s[1..], k - |e|);
    }
  }

  lemma QuoteInEscape(c: char, k: nat)
    requires k < |Escape(c)| && Escape(c)[k] == '"'
    ensures k > 0 && Escape(c)[k - 1] == '\\'
  {
    if c > '~' { LongEscapeHasNoQuote(c); }
  }

  lemma LongEscapeHasNoQuote(c: char)
    requires c > '~'
    ensures '"' !in Escape(c)
  {
    if c as int < 65536 {
      UnitHasNoQuote(c as int);
    } else {
      var v := c as int - 65536;
      UnitHasNoQuote(55296 + v / 1024);
      UnitHasNoQuote(56320 + v % 1024);
      assert Escape(c) == LEAD + Hex4(55296 + v / 1024) + (LEAD + Hex4(56320 + v % 1024));
    }
  }

  lemma UnitHasNoQuote(n: nat)
    requires n < 65536
    ensures '"' !in LEAD + Hex4(n)
  {
    HexIsNoQuote(n / 4096);
    HexIsNoQuote(n / 256 % 16);
    HexIsNoQuote(n / 16 % 16);
    HexIsNoQuote(n % 16);
  }

  lemma HexIsNoQuote(n: nat)
    requires n < 16
    ensures Json.Hex(n) != '"'
  {
  }

  /** An object's beginning: a brace, a quote, and the first letter of a name. */
  predicate Opens(w: string)
  {
    |w| >= 3 && w[0] == '{' && w[1] == '"' && IsLetter(w[2])
  }

  predicate EndsOpen(gap: string)
  {
    gap != "" && gap[|gap| - 1] == '{'
  }

  ghost predicate NoLetterFirst(pieces: seq<Piece>)
  {
    forall i :: 0 <= i < |pieces| ==> pieces[i].gap != "" && !IsLetter(pieces[i].gap[0])
  }

  function QuoteOf(p: Piece): string
  {
    ['"'] + (Escaped(p.quote) + ['"'])
  }

  lemma FlatHead(p: Piece, rest: seq<Piece>)
    ensures Flat([p] + rest) == QuoteOf(p) + (p.gap + Flat(rest))
  {
    assert ([p] + rest)[0] == p && ([p] + rest)[1..] == rest;
    NestedHead(Escaped(p.quote), p.gap, Flat(rest));
  }

  /** An object begins behind the quoted string of a piece: at the end of its gap, or past it. */
  lemma ObjectPastQuote(p: Piece, f: string, i: nat)
    requires PlainGap(p.gap) && p.gap != "" && !IsLetter(p.gap[0])
    requires var w := QuoteOf(p) + (p.gap + f); i <= |w| && Opens(w[i..])
    ensures var w, past := QuoteOf(p) + (p.gap + f), i - |QuoteOf(p)| - |p.gap|;
      if past < 0 then EndsOpen(p.gap) && w[i..] == "{" + f else past <= |f| && w[i..] == f[past..]
  {
    var w, j := QuoteOf(p) + (p.gap + f), i - |QuoteOf(p)|;
    NoObjectInQuote(p.quote, p.gap + f, i);
    assert w[i..] == (p.gap + f)[j..];
    if j < |p.gap| {
      BraceEndsGap(p.gap, f, j);
    } else {
      assert (p.gap + f)[j..] == f[j - |p.gap|..];
    }
  }

  lemma ObjectPastPiece(p: Piece, rest: seq<Piece>, i: nat)
    requires PlainGap(p.gap) && p.gap != "" && !IsLetter(p.gap[0])
    requires i <= |Flat([p] + rest)| && Opens(Flat([p] + rest)[i..])
    ensures var past := i - |QuoteOf(p)| - |p.gap|;
      if past < 0 then EndsOpen(p.gap) && Flat([p] + rest)[i..] == "{" + Flat(rest)
      else past <= |Flat(rest)| && Flat([p] + rest)[i..] == Flat(rest)[past..]
  {
    FlatHead(p, rest);
    ObjectPastQuote(p, Flat(rest), i);
  }

  /** An object begins in a gap that ends with its brace, and in no quoted string. */
  lemma {:induction false} ObjectsOpenInGaps(pieces: seq<Piece>, i: nat) returns (k: nat)
    requires PlainGaps(pieces) && NoLetterFirst(pieces) && i <= |Flat(pieces)| && Opens(Flat(pieces)[i..])
    ensures k < |pieces| && EndsOpen(pieces[k].gap) && Flat(pieces)[i..] == "{" + Flat(pieces[k + 1..])
  {
    var p, rest := pieces[0], pieces[1..];
    assert pieces == [p] + rest;
    ObjectPastPiece(p, rest, i);
    if i < |QuoteOf(p)| + |p.gap| {
      k := 0;
    } else {
      k := ObjectsOpenInGaps(rest, i - |QuoteOf(p)| - |p.gap|);
      assert pieces[k + 2..] == rest[k + 1..];
      k := k + 1;
    }
  }

  lemma NestedHead(e: string, gap: string, f: string)
    ensures ['"'] + (e + (['"'] + (gap + f))) == (['"'] + (e + ['"'])) + (gap + f)
  {
    Text.Regroup(e, ['"'], gap + f);
    Text.Regroup(['"'], e + ['"'], gap + f);
  }

  lemma NoObjectInQuote(quote: string, more: string, i: nat)
    requires more != "" && !IsLetter(more[0])
    requires i <= |Escaped(quote)| + 2 + |more| && Opens(((['"'] + (Escaped(quote) + ['"'])) + more)[i..])
    ensures i >= |Escaped(quote)| + 2
  {
    var e := Escaped(quote);
    forall k | 0 <= k < |e| && e[k] == '"' ensures k > 0 && e[k - 1] == '\\' { QuotesAreEscaped(quote, k); }
    NoObjectInString(e, more, i);
  }

  lemma NoObjectInString(e: string, more: string, i: nat)
    requires more != "" && !IsLetter(more[0]) && forall k :: 0 <= k < |e| && e[k] == '"' ==> k > 0 && e[k - 1] == '\\'
    requires i <= |e| + 2 + |more| && Opens(((['"'] + (e + ['"'])) + more)[i..])
    ensures i >= |e| + 2
  {
    var w := (['"'] + (e + ['"'])) + more;
    var v := w[i..];
    assert w[0] == '"' && w[|e| + 1] == '"' && w[|e| + 2] == more[0];
    assert forall k :: 0 <= k < |e| ==> w[k + 1] == e[k];
    assert w[i] == v[0] && w[i + 1] == v[1] && w[i + 2] == v[2];
  }

  lemma BraceEndsGap(gap: string, f: string, g: nat)
    requires '"' !in gap && g < |gap| && Opens((gap + f)[g..])
    ensures EndsOpen(gap) && (gap + f)[g..] == "{" + f
  {
    var w := (gap + f)[g..];
    assert w == gap[g..] + f && '"' !in gap[g..];
    assert w[0] == gap[g];
  }

  predicate Quiet(m: Member)
  {
    m.Raw? ==> m.gap != "" && !IsLetter(m.gap[0]) && !EndsOpen(m.gap)
  }

  ghost predicate QuietPieces(pieces: seq<Piece>)
  {
    NoLetterFirst(pieces) && forall i :: 0 <= i < |pieces| ==> !EndsOpen(pieces[i].gap)
  }

  lemma QuietOnes(m: Member)
    requires Quiet(m)
    ensures QuietPieces(PiecesOf(m))
  {
    if m.Num? {
      var gap := ": " + Int(m.n) + ", ";
      assert gap[0] == ':' && gap[|gap| - 1] == ' ';
    }
  }

  lemma {:induction false} QuietMembers(members: seq<Member>)
    requires forall i :: 0 <= i < |members| ==> Quiet(members[i])
    ensures QuietPieces(Pieces(members))
  {
    if members != [] {
      QuietOnes(members[0]);
      QuietMembers(members[1..]);
    }
  }

  lemma TailIsQuiet(r: Report, n: Names)
    ensures forall i :: 0 <= i < |Tail(r, n)| ==> Quiet(Tail(r, n)[i])
  {
    var gap := ": [" + JobList(r.jobs) + "], ";
    assert gap[0] == ':' && gap[|gap| - 1] == ' ';
  }

  /** The pieces of a block: its attempts, the brace, the blocker's attempts and class, and no other brace. */
  lemma BlockPieces(r: Report, n: Names)
    requires r.exhausted
    ensures var ps := Pieces(Members(r, n));
      |ps| > 3 && NoLetterFirst(ps) && ps[3].quote == n.cls &&
      forall k :: 0 <= k < |ps| && EndsOpen(ps[k].gap) ==> k == 1
  {
    var rest := Blocker(r, n)[1..] + Tail(r, n);
    assert Members(r, n) == [Num(n.attempts, r.attempts)] + ([Raw(n.blocker, ": {")] + rest);
    InsideIsQuiet(r, n, rest);
    PiecesOfThree(Num(n.attempts, r.attempts), Raw(n.blocker, ": {"), rest);
    QuietOnes(Num(n.attempts, r.attempts));
    var opening := Piece(n.blocker, ": {");
    assert opening.gap[0] == ':';
    OnlySecondOpens(PiecesOf(Num(n.attempts, r.attempts))[0], opening, Pieces(rest));
  }

  lemma OnlySecondOpens(first: Piece, second: Piece, rest: seq<Piece>)
    requires QuietPieces([first]) && NoLetterFirst([second]) && QuietPieces(rest)
    ensures var ps := [first, second] + rest;
      NoLetterFirst(ps) && forall k :: 0 <= k < |ps| && EndsOpen(ps[k].gap) ==> k == 1
  {
    assert [first][0] == first && [second][0] == second;
  }

  lemma PiecesOfThree(first: Member, opening: Member, rest: seq<Member>)
    requires first.Num? && opening.Raw?
    ensures Pieces([first] + ([opening] + rest)) == [PiecesOf(first)[0], PiecesOf(opening)[0]] + Pieces(rest)
  {
    assert ([first] + ([opening] + rest))[1..] == [opening] + rest && ([opening] + rest)[1..] == rest;
    assert Pieces([opening] + rest) == PiecesOf(opening) + Pieces(rest);
  }

  lemma InsideIsQuiet(r: Report, n: Names, rest: seq<Member>)
    requires rest == Blocker(r, n)[1..] + Tail(r, n)
    ensures QuietPieces(Pieces(rest)) && |Pieces(rest)| > 1 && Pieces(rest)[1].quote == n.cls
  {
    assert rest[0].Num? && rest[1] == Str(n.cls, n.external) && rest[1..][0] == rest[1];
    assert Pieces(rest) == PiecesOf(rest[0]) + (PiecesOf(rest[1]) + Pieces(rest[1..][1..]));
    TailIsQuiet(r, n);
    BlockerIsQuiet(r, n);
    QuietMembers(rest);
  }

  lemma BlockerIsQuiet(r: Report, n: Names)
    ensures forall i :: 1 <= i < |Blocker(r, n)| ==> Quiet(Blocker(r, n)[i])
  {
    var gap := ": false}, ";
    assert gap[0] == ':' && gap[|gap| - 1] == ' ';
  }

  lemma RetryPieces(r: Report, n: Names)
    requires !r.exhausted
    ensures QuietPieces(Pieces(Members(r, n)))
  {
    TailIsQuiet(r, n);
    QuietMembers(Members(r, n));
  }

  /** A payload text begins an object with its first name. */
  lemma PayloadOpens(r: Report, n: Names, rest: string)
    requires PlainNames(n)
    ensures Opens(PayloadText(r, n) + rest)
  {
    var ps := Pieces(Members(r, n));
    assert ps[0] == Piece(n.attempts, ": " + Int(r.attempts) + ", ");
    assert Escaped(n.attempts)[0] == Escape(n.attempts[0])[0] == n.attempts[0];
    var t := PayloadText(r, n);
    assert t[0] == '{' && t[1] == '"' && t[2] == n.attempts[0];
  }

  lemma NotInsideBlock(r: Report, s: Report, n: Names, z: string)
    requires PlainNames(n) && s.exhausted
    ensures |Pieces(Members(s, n))| > 3
    ensures Flat(Pieces(Members(r, n))) + z != Flat(Pieces(Members(s, n))[2..])
  {
    BlockPieces(s, n);
    var a, b := Pieces(Members(r, n)), Pieces(Members(s, n))[2..];
    PayloadIsPlain(r, n);
    PayloadIsPlain(s, n);
    SecondKey(r, n);
    if Flat(a) + z == Flat(b) {
      SecondQuotes(a, b, z);
    }
  }

  lemma SecondQuotes(a: seq<Piece>, b: seq<Piece>, z: string)
    requires PlainGaps(a) && PlainGaps(b) && |a| > 1 && |b| > 1 && Flat(a) + z == Flat(b)
    ensures a[1].quote == b[1].quote
  {
    FlatHeads(a, b, z);
    GapsAgree(a, b, z);
    FlatHeads(a[1..], b[1..], z);
  }

  /** What is cut out of a payload text, anywhere, is no payload text. */
  lemma PayloadPartFree(r: Report, s: Report, n: Names, i: nat, j: nat)
    requires PlainNames(n) && i <= j <= |PayloadText(s, n)| && j - i < |PayloadText(s, n)|
    ensures PayloadText(r, n) != PayloadText(s, n)[i..j]
  {
    if i == 0 {
      PayloadPrefixFree(r, s, n, j);
    } else if PayloadText(r, n) == PayloadText(s, n)[i..j] {
      Cut(PayloadText(s, n), i, j);
      Past("{", Flat(Pieces(Members(s, n))), i);
      NotInside(r, s, n, i - 1, PayloadText(s, n)[j..]);
    }
  }

  lemma Cut(t: string, i: nat, j: nat)
    requires i <= j <= |t|
    ensures t[i..] == t[i..j] + t[j..]
  {
  }

  lemma Past(a: string, b: string, i: nat)
    requires |a| <= i <= |a + b|
    ensures (a + b)[i..] == b[i - |a|..]
  {
  }

  lemma NotInside(r: Report, s: Report, n: Names, i: nat, z: string)
    requires PlainNames(n) && i <= |Flat(Pieces(Members(s, n)))|
    ensures PayloadText(r, n) + z != Flat(Pieces(Members(s, n)))[i..]
  {
    var a, b := Flat(Pieces(Members(r, n))), Pieces(Members(s, n));
    PayloadOpens(r, n, z);
    if PayloadText(r, n) + z == Flat(b)[i..] {
      OnlyTheBlockerOpens(s, n, i);
      NotInsideBlock(r, s, n, z);
      Text.Regroup("{", a, z);
      Text.SamePrefix("{", a + z, Flat(b[2..]));
    }
  }

  /** The one object that begins inside a payload is the blocker of a block. */
  lemma OnlyTheBlockerOpens(s: Report, n: Names, i: nat)
    requires PlainNames(n) && i <= |Flat(Pieces(Members(s, n)))| && Opens(Flat(Pieces(Members(s, n)))[i..])
    ensures s.exhausted && |Pieces(Members(s, n))| > 3
    ensures Flat(Pieces(Members(s, n)))[i..] == "{" + Flat(Pieces(Members(s, n))[2..])
  {
    PayloadIsPlain(s, n);
    if s.exhausted { BlockPieces(s, n); } else { RetryPieces(s, n); }
    var k := ObjectsOpenInGaps(Pieces(Members(s, n)), i);
  }

  // ---- the source's spelling ----

  lemma ShortNamesArePlain()
    ensures PlainGap("blocker") && PlainGap("class") && PlainGap("headSha") && PlainGap("runId") && PlainGap("status")
  {
  }

  lemma EightLetterNamesArePlain()
    ensures PlainGap("attempts") && PlainGap("eventKey") && PlainGap("retrying")
  {
  }

  lemma MiddleNamesArePlain()
    ensures PlainGap("repository") && PlainGap("nextAction") && PlainGap("exhausted") && PlainGap("timestamp")
  {
  }

  lemma LongNamesArePlain()
    ensures PlainGap("maxAttempts") && PlainGap("retryJobIds") && PlainGap("schemaVersion")
  {
  }

  lemma LongerNamesArePlain()
    ensures PlainGap("lastErrorSummary") && PlainGap("blocked_exhausted")
  {
  }

  lemma LongestNamesArePlain()
    ensures PlainGap("pullRequestNumber") && PlainGap("userActionRequired")
  {
  }

  lemma ExternalIsPlain()
    ensures PlainGap("external_" + "infrastructure")
  {
    assert PlainGap("external_") && PlainGap("infrastructure");
  }

  lemma SourceNamesArePlain()
    ensures PlainNames(NAMES)
  {
    ShortNamesArePlain();
    EightLetterNamesArePlain();
    MiddleNamesArePlain();
    LongNamesArePlain();
    LongerNamesArePlain();
    LongestNamesArePlain();
    ExternalIsPlain();
    assert |NAMES.blocker| != |NAMES.eventKey| && |NAMES.cls| != |NAMES.eventKey| && |NAMES.cls| != |NAMES.blocker|;
    assert NAMES.attempts[0] == 'a';
  }
}
