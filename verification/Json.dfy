/** harness.py, `_json_domain` and `canonical_json`: bounded JSON values and their RFC 8785 form. */
module Json {
  import opened Sorting
  import Text

  const MAX_DEPTH: nat := 32
  const MAX_SAFE_INTEGER: int := 9007199254740991

  /** Python keeps `1` and `1.0` apart; their canonical form does not. */
  datatype Number = Integer(i: int) | Float(r: real) | NonFinite

  datatype Json =
    | Null
    | Bool(b: bool)
    | Num(n: Number)
    | Str(s: string)
    | Arr(items: seq<Json>)
    | Obj(fields: seq<Field>)

  /** A member of an object, in the order it was read. */
  datatype Field = Field(key: string, value: Json)

  predicate InRange(i: int)
  {
    -MAX_SAFE_INTEGER <= i <= MAX_SAFE_INTEGER
  }

  predicate NumberInDomain(n: Number)
  {
    match n
    case Integer(i) => InRange(i)
    case Float(r) => r == r.Floor as real ==> InRange(r.Floor)
    case NonFinite => false
  }

  /** `_json_domain`; `encodable` is what UTF-8 can encode. */
  predicate InDomain(v: Json, depth: nat, encodable: string -> bool)
    decreases v
  {
    depth <= MAX_DEPTH &&
    match v
    case Null => true
    case Bool(_) => true
    case Num(n) => NumberInDomain(n)
    case Str(s) => encodable(s)
    case Arr(items) => forall i :: 0 <= i < |items| ==> InDomain(items[i], depth + 1, encodable)
    case Obj(fields) =>
      forall i :: 0 <= i < |fields| ==>
        depth + 1 <= MAX_DEPTH && encodable(fields[i].key) && InDomain(fields[i].value, depth + 1, encodable)
  }

  // ---- strings, section 3.2.2.2 of RFC 8785 ----

  function Hex(n: nat): char
    requires n < 16
  {
    if n < 10 then '0' + n as char else 'a' + (n - 10) as char
  }

  function HexValue(c: char): int
  {
    if c <= '9' then c as int - '0' as int else c as int - 'a' as int + 10
  }

  function Escape(c: char): (e: string)
    ensures e != [] && e[0] != '"'
  {
    if c == '"' then "\\\""
    else if c == '\\' then "\\\\"
    else if c == '\U{8}' then "\\b"
    else if c == '\t' then "\\t"
    else if c == '\n' then "\\n"
    else if c == '\U{c}' then "\\f"
    else if c == '\r' then "\\r"
    else if c < ' ' then ['\\', 'u', '0', '0', Hex(c as int / 16), Hex(c as int % 16)]
    else [c]
  }

  /** The character an escaped text starts with. */
  function Unescape(text: string): int
    requires text != []
  {
    if text[0] != '\\' || |text| == 1 then text[0] as int
    else if text[1] == 'b' then 8
    else if text[1] == 't' then 9
    else if text[1] == 'n' then 10
    else if text[1] == 'f' then 12
    else if text[1] == 'r' then 13
    else if text[1] != 'u' then text[1] as int
    else if |text| < 6 then -1
    else HexValue(text[4]) * 16 + HexValue(text[5])
  }

  lemma UnescapeEscape(c: char, rest: string)
    ensures Unescape(Escape(c) + rest) == c as int
  {
  }

  function Escaped(s: string): string
  {
    if s == [] then [] else Escape(s[0]) + Escaped(s[1..])
  }

  function Quoted(s: string): string
  {
    ['"'] + Escaped(s) + ['"']
  }

  lemma EscapedHead(s: string, r: string)
    ensures (Escaped(s) + ['"'] + r)[0] == '"' <==> s == []
  {
    if s != [] {
      assert (Escaped(s) + ['"'] + r)[0] == Escape(s[0])[0];
    }
  }

  lemma {:induction false} EscapedUnique(s: string, t: string, r: string, u: string)
    requires Escaped(s) + ['"'] + r == Escaped(t) + ['"'] + u
    ensures s == t
  {
    EscapedHead(s, r);
    EscapedHead(t, u);
    if s != [] {
      EscapedStep(s, r);
      EscapedStep(t, u);
      EscapeUnique(s[0], t[0], Escaped(s[1..]) + ['"'] + r, Escaped(t[1..]) + ['"'] + u);
      EscapedUnique(s[1..], t[1..], r, u);
      assert s == [s[0]] + s[1..] && t == [t[0]] + t[1..];
    }
  }

  lemma EscapedStep(s: string, r: string)
    requires s != []
    ensures Escaped(s) + ['"'] + r == Escape(s[0]) + (Escaped(s[1..]) + ['"'] + r)
  {
    var e, more := Escape(s[0]), Escaped(s[1..]);
    Text.Regroup(e, more, ['"']);
    Text.Regroup(e, more + ['"'], r);
  }

  lemma EscapeUnique(c: char, d: char, more: string, other: string)
    requires Escape(c) + more == Escape(d) + other
    ensures c == d && more == other
  {
    UnescapeEscape(c, more);
    UnescapeEscape(d, other);
    Text.SuffixUnique(Escape(c), more, Escape(d), other);
  }

  /** A quoted string ends where it ends, whatever follows. */
  lemma QuotedUnique(s: string, t: string, r: string, u: string)
    requires Quoted(s) + r == Quoted(t) + u
    ensures s == t && r == u
  {
    QuotedTail(s, r);
    QuotedTail(t, u);
    Text.SamePrefix(['"'], Escaped(s) + ['"'] + r, Escaped(t) + ['"'] + u);
    EscapedUnique(s, t, r, u);
    Text.SamePrefix(Quoted(s), r, u);
  }

  lemma QuotedTail(s: string, r: string)
    ensures Quoted(s) + r == ['"'] + (Escaped(s) + ['"'] + r)
  {
    var q, e := ['"'], Escaped(s);
    Text.Regroup(q, e, q);
    Text.Regroup(q, e + q, r);
  }

  // ---- canonical text ----

  predicate NumberChar(c: char)
  {
    Text.IsDigit(c) || c in {'-', '+', '.', 'e'}
  }

  /** What is asked of the number renderer: some text in the characters JSON numbers are written in. */
  ghost predicate RendersNumbers(number: Number -> string)
  {
    forall n :: number(n) != [] && forall i :: 0 <= i < |number(n)| ==> NumberChar(number(n)[i])
  }

  /** An object member on its way to the text: its key and its canonical value. */
  datatype Entry = Entry(key: string, text: string)

  predicate ByKey(a: Entry, b: Entry)
  {
    Text.AtMost(a.key, b.key)
  }

  function EntryText(e: Entry): string
  {
    Quoted(e.key) + [':'] + e.text
  }

  function EntryTexts(entries: seq<Entry>): seq<string>
  {
    if entries == [] then [] else [EntryText(entries[0])] + EntryTexts(entries[1..])
  }

  /** The texts after the first, and the bracket that closes them. */
  function Continued(texts: seq<string>, close: char): string
  {
    if texts == [] then [close] else [','] + texts[0] + Continued(texts[1..], close)
  }

  function Enclosed(open: char, texts: seq<string>, close: char): string
  {
    if texts == [] then [open, close] else [open] + texts[0] + Continued(texts[1..], close)
  }

  /** The canonical text of a value; `number` is how section 3.2.2.3 of RFC 8785 renders numbers. */
  function Canonical(v: Json, number: Number -> string): string
    decreases v
  {
    match v
    case Null => "null"
    case Bool(b) => if b then "true" else "false"
    case Num(n) => number(n)
    case Str(s) => Quoted(s)
    case Arr(items) => Enclosed('[', Texts(items, number), ']')
    case Obj(fields) => Enclosed('{', EntryTexts(Sort(Entries(fields, number), ByKey)), '}')
  }

  function Texts(items: seq<Json>, number: Number -> string): (texts: seq<string>)
    decreases items
    ensures |texts| == |items|
    ensures forall i :: 0 <= i < |items| ==> texts[i] == Canonical(items[i], number)
  {
    if items == [] then [] else [Canonical(items[0], number)] + Texts(items[1..], number)
  }

  function Entries(fields: seq<Field>, number: Number -> string): (entries: seq<Entry>)
    decreases fields
    ensures |entries| == |fields|
    ensures forall i :: 0 <= i < |fields| ==>
      entries[i] == Entry(fields[i].key, Canonical(fields[i].value, number))
  {
    if fields == [] then []
    else [Entry(fields[0].key, Canonical(fields[0].value, number))] + Entries(fields[1..], number)
  }

  // ---- unique decoding ----

  /** What may follow a value: nothing, a comma, or a closing bracket. */
  predicate Stops(rest: string)
  {
    rest == [] || rest[0] in {',', ']', '}'}
  }

  /** Neither text can be mistaken for the start of the other. */
  ghost predicate Apart(a: string, b: string)
  {
    forall r, u :: Stops(r) && Stops(u) && a + r == b + u ==> a == b
  }

  predicate StartsValue(a: string)
  {
    a != [] && (a[0] in {'n', 't', 'f', '"', '[', '{'} || NumberChar(a[0]))
  }

  lemma {:induction false} CanonicalStarts(v: Json, number: Number -> string)
    requires RendersNumbers(number)
    ensures StartsValue(Canonical(v, number))
  {
    if v.Num? { assert number(v.n) != []; }
  }

  lemma ApartHeads(a: string, more: string, b: string, other: string)
    requires Apart(a, b) && Stops(more) && Stops(other) && a + more == b + other
    ensures a == b && more == other
  {
    assert more == (a + more)[|a|..] && other == (b + other)[|b|..];
  }

  lemma ContinuedStep(a: seq<string>, close: char, r: string)
    requires close in {']', '}'}
    ensures Stops(Continued(a, close) + r)
    ensures (Continued(a, close) + r)[0] == if a == [] then close else ','
    ensures a != [] ==> (Continued(a, close) + r)[1..] == a[0] + (Continued(a[1..], close) + r)
  {
  }

  lemma {:induction false} ContinuedUnique(a: seq<string>, b: seq<string>, close: char, r: string, u: string)
    requires close in {']', '}'}
    requires forall i, j :: 0 <= i < |a| && 0 <= j < |b| ==> Apart(a[i], b[j])
    requires Continued(a, close) + r == Continued(b, close) + u
    ensures a == b
  {
    ContinuedStep(a, close, r);
    ContinuedStep(b, close, u);
    if a != [] {
      ContinuedTail(a, b, close, r, u);
      ContinuedUnique(a[1..], b[1..], close, r, u);
      assert a == [a[0]] + a[1..] && b == [b[0]] + b[1..];
    }
  }

  /** Past the separator: the first texts agree, and so does what follows them. */
  lemma ContinuedTail(a: seq<string>, b: seq<string>, close: char, r: string, u: string)
    requires close in {']', '}'} && a != [] && b != [] && Apart(a[0], b[0])
    requires a[0] + (Continued(a[1..], close) + r) == b[0] + (Continued(b[1..], close) + u)
    ensures a[0] == b[0] && Continued(a[1..], close) + r == Continued(b[1..], close) + u
  {
    ContinuedStep(a[1..], close, r);
    ContinuedStep(b[1..], close, u);
    ApartHeads(a[0], Continued(a[1..], close) + r, b[0], Continued(b[1..], close) + u);
  }

  lemma EnclosedStep(open: char, a: seq<string>, close: char, r: string)
    requires close in {']', '}'} && forall i :: 0 <= i < |a| ==> StartsValue(a[i])
    ensures |Enclosed(open, a, close) + r| > 1
    ensures (Enclosed(open, a, close) + r)[1] == close <==> a == []
    ensures a != [] ==> (Enclosed(open, a, close) + r)[1..] == a[0] + (Continued(a[1..], close) + r)
  {
    if a == [] {
      assert Enclosed(open, a, close)[1] == close;
    } else {
      var more := Continued(a[1..], close);
      assert Enclosed(open, a, close) + r == [open] + (a[0] + (more + r));
      assert StartsValue(a[0]);
    }
  }

  lemma EnclosedUnique(open: char, a: seq<string>, b: seq<string>, close: char, r: string, u: string)
    requires close in {']', '}'}
    requires forall i, j :: 0 <= i < |a| && 0 <= j < |b| ==> Apart(a[i], b[j])
    requires forall i :: 0 <= i < |a| ==> StartsValue(a[i])
    requires forall i :: 0 <= i < |b| ==> StartsValue(b[i])
    requires Enclosed(open, a, close) + r == Enclosed(open, b, close) + u
    ensures a == b
  {
    EnclosedStep(open, a, close, r);
    EnclosedStep(open, b, close, u);
    if a != [] {
      ContinuedTail(a, b, close, r, u);
      ContinuedUnique(a[1..], b[1..], close, r, u);
      assert a == [a[0]] + a[1..] && b == [b[0]] + b[1..];
    }
  }

  /** How many characters a number token takes. */
  function NumberRun(text: string): nat
  {
    if text == [] || !NumberChar(text[0]) then 0 else 1 + NumberRun(text[1..])
  }

  lemma {:induction false} NumberRunStops(a: string, r: string)
    requires Stops(r) && forall i :: 0 <= i < |a| ==> NumberChar(a[i])
    ensures NumberRun(a + r) == |a|
  {
    if a == [] {
      assert a + r == r;
    } else {
      assert NumberChar(a[0]);
      NumberRunStops(a[1..], r);
      assert (a + r)[1..] == a[1..] + r;
    }
  }

  lemma NumbersApart(m: Number, n: Number, number: Number -> string)
    requires RendersNumbers(number)
    ensures Apart(number(m), number(n))
  {
    var a, b := number(m), number(n);
    forall r, u | Stops(r) && Stops(u) && a + r == b + u ensures a == b {
      NumberRunStops(a, r);
      NumberRunStops(b, u);
      Text.SuffixUnique(a, r, b, u);
    }
  }

  ghost predicate EntriesSeparate(d: seq<Entry>, e: seq<Entry>)
  {
    forall i, j :: 0 <= i < |d| && 0 <= j < |e| ==> Apart(d[i].text, e[j].text)
  }

  lemma EntriesUnique(d: Entry, e: Entry, r: string, u: string)
    requires Apart(d.text, e.text) && Stops(r) && Stops(u) && EntryText(d) + r == EntryText(e) + u
    ensures d == e
  {
    var more, other := [':'] + (d.text + r), [':'] + (e.text + u);
    EntryTail(d, r);
    EntryTail(e, u);
    QuotedUnique(d.key, e.key, more, other);
    Text.SamePrefix([':'], d.text + r, e.text + u);
  }

  lemma EntryTail(e: Entry, r: string)
    ensures EntryText(e) + r == Quoted(e.key) + ([':'] + (e.text + r))
  {
    var q := Quoted(e.key);
    Text.Regroup(q + [':'], e.text, r);
    Text.Regroup(q, [':'], e.text + r);
  }

  lemma EntriesApart(d: Entry, e: Entry)
    requires Apart(d.text, e.text)
    ensures Apart(EntryText(d), EntryText(e))
    ensures EntryText(d) == EntryText(e) ==> d == e
  {
    forall r, u | Stops(r) && Stops(u) && EntryText(d) + r == EntryText(e) + u ensures d == e {
      EntriesUnique(d, e, r, u);
    }
    assert EntryText(d) + [] == EntryText(d) && EntryText(e) + [] == EntryText(e);
  }

  lemma {:induction false} EntryTextsAt(entries: seq<Entry>)
    ensures |EntryTexts(entries)| == |entries|
    ensures forall i :: 0 <= i < |entries| ==> EntryTexts(entries)[i] == EntryText(entries[i])
  {
    if entries != [] { EntryTextsAt(entries[1..]); }
  }

  /** Entry lists with equal texts are equal. */
  lemma EntryTextsUnique(d: seq<Entry>, e: seq<Entry>)
    requires EntriesSeparate(d, e)
    requires EntryTexts(d) == EntryTexts(e)
    ensures d == e
  {
    EntryTextsAt(d);
    EntryTextsAt(e);
    forall i | 0 <= i < |d| ensures d[i] == e[i] {
      EntriesApart(d[i], e[i]);
      assert EntryTexts(d)[i] == EntryTexts(e)[i];
    }
  }

  /** Canonical texts can be told apart however they are followed: the encoding decodes in one way. */
  lemma {:induction false} CanonicalApart(v: Json, w: Json, number: Number -> string)
    requires RendersNumbers(number)
    ensures Apart(Canonical(v, number), Canonical(w, number))
    decreases v
  {
    var a, b := Canonical(v, number), Canonical(w, number);
    CanonicalStarts(v, number);
    CanonicalStarts(w, number);
    if v.Num? && w.Num? {
      NumbersApart(v.n, w.n, number);
    } else if v.Str? && w.Str? {
      forall r, u | Stops(r) && Stops(u) && a + r == b + u ensures a == b {
        QuotedUnique(v.s, w.s, r, u);
      }
    } else if v.Arr? && w.Arr? {
      ArraysApart(v, w, number);
    } else if v.Obj? && w.Obj? {
      ObjectsApart(v, w, number);
    } else {
      KindsApart(v, w, number);
    }
  }

  lemma KindsApart(v: Json, w: Json, number: Number -> string)
    requires RendersNumbers(number)
    requires !(v.Num? && w.Num?) && !(v.Str? && w.Str?) && !(v.Arr? && w.Arr?) && !(v.Obj? && w.Obj?)
    ensures Apart(Canonical(v, number), Canonical(w, number))
  {
    var a, b := Canonical(v, number), Canonical(w, number);
    CanonicalStarts(v, number);
    CanonicalStarts(w, number);
    if v.Num? { assert NumberChar(number(v.n)[0]); }
    if w.Num? { assert NumberChar(number(w.n)[0]); }
    forall r, u | Stops(r) && Stops(u) && a + r == b + u ensures a == b {
      assert a[0] == (a + r)[0] && b[0] == (b + u)[0];
    }
  }

  lemma ArraysApart(v: Json, w: Json, number: Number -> string)
    requires RendersNumbers(number) && v.Arr? && w.Arr?
    ensures Apart(Canonical(v, number), Canonical(w, number))
    ensures Canonical(v, number) == Canonical(w, number) ==> Texts(v.items, number) == Texts(w.items, number)
    decreases v, 0
  {
    var a, b := Texts(v.items, number), Texts(w.items, number);
    forall i, j | 0 <= i < |a| && 0 <= j < |b| ensures Apart(a[i], b[j]) {
      CanonicalApart(v.items[i], w.items[j], number);
    }
    forall i | 0 <= i < |a| ensures StartsValue(a[i]) { CanonicalStarts(v.items[i], number); }
    forall i | 0 <= i < |b| ensures StartsValue(b[i]) { CanonicalStarts(w.items[i], number); }
    forall r, u | Stops(r) && Stops(u) && Enclosed('[', a, ']') + r == Enclosed('[', b, ']') + u ensures a == b {
      EnclosedUnique('[', a, b, ']', r, u);
    }
    assert Enclosed('[', a, ']') + [] == Enclosed('[', a, ']');
    assert Enclosed('[', b, ']') + [] == Enclosed('[', b, ']');
  }

  lemma EntryListsApart(d: seq<Entry>, e: seq<Entry>)
    requires EntriesSeparate(d, e)
    ensures var a, b := Enclosed('{', EntryTexts(d), '}'), Enclosed('{', EntryTexts(e), '}');
      Apart(a, b) && (a == b ==> d == e)
  {
    var a, b := EntryTexts(d), EntryTexts(e);
    EntryTextsAt(d);
    EntryTextsAt(e);
    forall i, j | 0 <= i < |a| && 0 <= j < |b| ensures Apart(a[i], b[j]) {
      EntriesApart(d[i], e[j]);
    }
    forall r, u | Stops(r) && Stops(u) && Enclosed('{', a, '}') + r == Enclosed('{', b, '}') + u ensures a == b {
      EnclosedUnique('{', a, b, '}', r, u);
    }
    assert Enclosed('{', a, '}') + [] == Enclosed('{', a, '}');
    assert Enclosed('{', b, '}') + [] == Enclosed('{', b, '}');
    if a == b {
      EntryTextsUnique(d, e);
    }
  }

  lemma ObjectsApart(v: Json, w: Json, number: Number -> string)
    requires RendersNumbers(number) && v.Obj? && w.Obj?
    ensures Apart(Canonical(v, number), Canonical(w, number))
    ensures Canonical(v, number) == Canonical(w, number) ==>
      multiset(Entries(v.fields, number)) == multiset(Entries(w.fields, number))
    decreases v, 0
  {
    var x, y := Entries(v.fields, number), Entries(w.fields, number);
    forall k, l | 0 <= k < |x| && 0 <= l < |y| ensures Apart(x[k].text, y[l].text) {
      CanonicalApart(v.fields[k].value, w.fields[l].value, number);
    }
    SortedEntriesApart(x, y);
    EntryListsApart(Sort(x, ByKey), Sort(y, ByKey));
    SortKeeps(x, ByKey);
    SortKeeps(y, ByKey);
  }

  lemma SortedEntriesApart(x: seq<Entry>, y: seq<Entry>)
    requires EntriesSeparate(x, y)
    ensures EntriesSeparate(Sort(x, ByKey), Sort(y, ByKey))
  {
    var d, e := Sort(x, ByKey), Sort(y, ByKey);
    SortMembers(x, ByKey);
    SortMembers(y, ByKey);
    forall i, j | 0 <= i < |d| && 0 <= j < |e| ensures Apart(d[i].text, e[j].text) {
      assert d[i] in x && e[j] in y;
    }
  }

  // ---- the choices that make the text canonical ----

  /** Only what must be escaped is, in the short form where there is one, and in lower-case hexadecimal elsewhere. */
  lemma EscapesAreMinimal(c: char)
    ensures (c >= ' ' && c != '"' && c != '\\') <==> Escape(c) == [c]
    ensures |Escape(c)| == 2 <==> c in {'"', '\\', '\U{8}', '\t', '\n', '\U{c}', '\r'}
    ensures |Escape(c)| in {1, 2, 6}
    ensures |Escape(c)| == 6 ==> forall i :: 2 <= i < 6 ==> Text.IsDigit(Escape(c)[i]) || 'a' <= Escape(c)[i] <= 'f'
  {
  }

  lemma LiteralTexts(number: Number -> string)
    ensures Canonical(Null, number) == "null"
    ensures Canonical(Bool(true), number) == "true" && Canonical(Bool(false), number) == "false"
  {
  }

  // ---- the bounds of the domain ----

  function Nested(k: nat): Json
  {
    if k == 0 then Null else Arr([Nested(k - 1)])
  }

  /** Arrays may be nested 32 deep, counted from the place they stand at, and no deeper. */
  lemma {:induction false} NestingIsBounded(k: nat, depth: nat, encodable: string -> bool)
    ensures InDomain(Nested(k), depth, encodable) <==> depth + k <= 32
  {
    if k > 0 {
      NestingIsBounded(k - 1, depth + 1, encodable);
      var items := Nested(k).items;
      assert items[0] == Nested(k - 1);
      assert InDomain(Nested(k), depth, encodable) ==> InDomain(items[0], depth + 1, encodable);
    }
  }

  /** Numbers are finite, and whole ones within the range a double holds exactly, however they are held; texts and keys
      are what UTF-8 can encode. */
  lemma DomainBounds(i: int, s: string, depth: nat, encodable: string -> bool)
    requires depth < 32
    ensures InDomain(Num(Integer(i)), depth, encodable) <==> -0x1F_FFFF_FFFF_FFFF <= i <= 0x1F_FFFF_FFFF_FFFF
    ensures InDomain(Num(Float(i as real)), depth, encodable) <==> -0x1F_FFFF_FFFF_FFFF <= i <= 0x1F_FFFF_FFFF_FFFF
    ensures !InDomain(Num(NonFinite), depth, encodable)
    ensures InDomain(Str(s), depth, encodable) <==> encodable(s)
    ensures InDomain(Obj([Field(s, Null)]), depth, encodable) <==> encodable(s)
  {
    assert (i as real).Floor == i;
    var fields := [Field(s, Null)];
    assert fields[0] == Field(s, Null);
    assert InDomain(Obj(fields), depth, encodable) ==> encodable(fields[0].key);
  }
}
