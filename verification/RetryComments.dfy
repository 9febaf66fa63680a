/** infra_recovery.py: retry evidence written into pull-request comments and read back from them. */
module RetryComments {
  import opened Options
  import opened RetryBudget
  import opened RetryPayload
  import opened RetryRuns
  import opened RetrySummary
  import Text

  // ---- what a comment carries ----

  const MARKER := "forge-transient-retry"

  /** The prose of a comment, around the one excerpt it quotes; it differs from comment to comment. */
  datatype Wording = Wording(retry: string, before: string, after: string)

  predicate Harmless(w: Wording)
  {
    '<' !in w.retry && '<' !in w.before && '<' !in w.after && (w.after != "" ==> w.after[0] != '!' && w.after[0] != '-')
  }

  function Prose(r: Report, w: Wording): string
  {
    if r.exhausted then w.before + SanitizeSummary(r.log) + w.after else w.retry
  }

  /** `render_retry_comment`, for a retry or a block. */
  function Render(r: Report, n: Names, w: Wording): Option<string>
  {
    if Text.Blank(r.key) || Text.Blank(r.timestamp) || Contains(r.key, CLOSE) then None
    else Some("<!-- " + MARKER + " " + PayloadText(r, n) + " -->\n" + Prose(r, w))
  }

  // ---- reading markers ----

  datatype Taken = Taken(text: string, rest: string) | Nothing

  /** `.*?\}` followed by `\s*-->`, lazily: up to the first brace that a close follows. */
  function UpToClose(s: string): (r: Taken)
    ensures r.Taken? ==> |r.rest| < |s|
  {
    if s == "" then Nothing
    else if s[0] == '}' && CLOSE <= Skip(s[1..]) then Taken("}", Skip(s[1..])[3..])
    else
      var later := UpToClose(s[1..]);
      if later.Nothing? then Nothing else Taken([s[0]] + later.text, later.rest)
  }

  /** `<!--\s*forge-transient-retry\s+(\{.*?\})\s*-->` matched at the start of `s`. */
  function MarkerAt(s: string): (r: Taken)
    ensures r.Taken? ==> |r.rest| < |s|
  {
    if !(OPEN <= s) || !(MARKER <= Skip(s[4..])) then Nothing
    else
      var after := Skip(s[4..])[|MARKER|..];
      var json := Skip(after);
      if |json| == |after| || json == "" || json[0] != '{' then Nothing
      else
        var body := UpToClose(json[1..]);
        if body.Nothing? then Nothing else Taken("{" + body.text, body.rest)
  }

  /** `_MARKER.finditer`. */
  function FindMarkers(s: string): seq<string>
    decreases |s|
  {
    if s == "" then []
    else
      var m := MarkerAt(s);
      if m.Taken? then [m.text] + FindMarkers(m.rest) else FindMarkers(s[1..])
  }

  predicate IsObject(json: string)
  {
    |json| >= 2 && json[0] == '{' && json[|json| - 1] == '}'
  }

  lemma {:induction false} SkipConcat(a: string, b: string)
    requires Skip(a) != ""
    ensures Skip(a + b) == Skip(a) + b
  {
    if a != "" && Text.IsSpace(a[0]) {
      SkipConcat(a[1..], b);
      assert (a + b)[1..] == a[1..] + b;
    } else {
      assert (a + b)[0] == a[0];
    }
  }

  lemma {:induction false} SkipToBrace(a: string)
    ensures Skip(a + "}") != "" && Skip(a + "}")[|Skip(a + "}")| - 1] == '}'
  {
    if a != "" {
      assert (a + "}")[1..] == a[1..] + "}";
      SkipToBrace(a[1..]);
    } else {
      assert a + "}" == "}";
    }
  }

  /** A close after blanks is seen within the object or not at all. */
  lemma CloseSeenInside(a: string, b: string)
    ensures CLOSE <= Skip(a + "}" + b) <==> CLOSE <= Skip(a + "}")
  {
    SkipToBrace(a);
    SkipConcat(a + "}", b);
    var z := Skip(a + "}");
    assert (z + b)[|z| - 1] == '}';
    assert |z| <= 3 ==> CLOSE[|z| - 1] != '}';
  }

  lemma {:induction false} TakesWhole(inner: string, rest: string)
    ensures var r := UpToClose(inner + "}" + (" -->" + rest));
      r.Taken? && (if StopsShort(inner + "}") then |r.text| <= |inner| else r == Taken(inner + "}", rest))
  {
    var tail := " -->" + rest;
    var s := inner + "}" + tail;
    if inner == "" {
      assert s == "}" + tail && s[1..] == tail;
      assert tail[1..] == "-->" + rest;
      assert !Text.IsSpace('-');
      assert Skip(tail) == "-->" + rest;
      assert ("}")[1..] == "";
    } else {
      assert s[1..] == inner[1..] + "}" + tail && (inner + "}")[1..] == inner[1..] + "}";
      CloseSeenInside(inner[1..], tail);
      TakesWhole(inner[1..], rest);
      assert inner + "}" == [inner[0]] + (inner[1..] + "}");
    }
  }

  lemma {:induction false} NoOpenNoMarkers(s: string)
    requires !Contains(s, OPEN)
    ensures FindMarkers(s) == []
  {
    if s != "" { NoOpenNoMarkers(s[1..]); }
  }

  lemma MarkerHeader(json: string, rest: string)
    requires IsObject(json)
    ensures var s := "<!-- " + MARKER + " " + json + rest;
      MarkerAt(s) == var body := UpToClose(json[1..] + rest);
                     if body.Nothing? then Nothing else Taken("{" + body.text, body.rest)
  {
    var s := "<!-- " + MARKER + " " + json + rest;
    var a := MARKER + " " + json + rest;
    assert s[..4] == OPEN && s[4..] == " " + a;
    assert MARKER[0] == 'f' && a[0] == 'f' && !Text.IsSpace('f');
    assert (" " + a)[1..] == a;
    assert Skip(" " + a) == Skip(a) == a;
    assert a[..|MARKER|] == MARKER && a[|MARKER|..] == " " + (json + rest);
    assert (" " + (json + rest))[1..] == json + rest;
    assert (json + rest)[0] == '{' && !Text.IsSpace('{');
    assert Skip(" " + (json + rest)) == Skip(json + rest) == json + rest;
    assert (json + rest)[1..] == json[1..] + rest;
  }

  lemma FindFirst(s: string, m: Taken)
    requires s != "" && m == MarkerAt(s) && m.Taken?
    ensures FindMarkers(s) == [m.text] + FindMarkers(m.rest)
  {
  }

  lemma StopsShortInside(json: string)
    requires IsObject(json)
    ensures StopsShort(json) <==> StopsShort(json[1..])
  {
  }

  /** What a scan returns when its first character starts a marker. */
  lemma FirstMarker(s: string, json: string, rest: string, m: Taken)
    requires IsObject(json) && s != "" && FindMarkers(rest) == [] && m == MarkerAt(s)
    requires m == var body := UpToClose(json[1..] + (" -->" + rest));
                  if body.Nothing? then Nothing else Taken("{" + body.text, body.rest)
    ensures FindMarkers(s) == [json] <==> !StopsShort(json)
  {
    var inner := json[1..|json| - 1];
    assert json[1..] == inner + "}" && json == "{" + (inner + "}");
    TakesWhole(inner, rest);
    StopsShortInside(json);
    FindFirst(s, m);
    if StopsShort(json) {
      assert |m.text| < |json|;
      assert FindMarkers(s)[0] == m.text;
    }
  }

  /** The marker written is the marker read, for exactly the payload texts that do not stop short. */
  lemma MarkerSurvives(json: string, prose: string)
    requires IsObject(json) && !Contains(prose, OPEN)
    ensures FindMarkers("<!-- " + MARKER + " " + json + " -->\n" + prose) == [json] <==> !StopsShort(json)
  {
    var rest := "\n" + prose;
    assert rest[0] == '\n' && rest[1..] == prose;
    NoOpenNoMarkers(rest);
    var s := "<!-- " + MARKER + " " + json + (" -->" + rest);
    assert s == "<!-- " + MARKER + " " + json + " -->\n" + prose;
    MarkerHeader(json, " -->" + rest);
    FirstMarker(s, json, rest, MarkerAt(s));
  }

  lemma ProseIsSafe(r: Report, w: Wording)
    requires Harmless(w)
    ensures !Contains(Prose(r, w), OPEN)
  {
    if r.exhausted {
      var summary := SanitizeSummary(r.log);
      SummaryIsInert(r.log);
      NeedsChar(w.after, OPEN, 0);
      SummaryThenProse(summary, w.after);
      var tail := summary + w.after;
      forall k | 0 <= k < |w.before| ensures !(OPEN <= w.before[k..] + tail) {
        assert (w.before[k..] + tail)[0] == w.before[k] && w.before[k] in w.before;
      }
      PastPrefix(w.before, tail, OPEN);
      assert w.before + tail == w.before + summary + w.after;
    } else {
      NeedsChar(w.retry, OPEN, 0);
    }
  }

  lemma {:induction false} SummaryThenProse(summary: string, after: string)
    requires !Contains(summary, OPEN) && !Contains(after, OPEN)
    requires after != "" ==> after[0] != '!' && after[0] != '-'
    ensures !Contains(summary + after, OPEN)
  {
    forall k | 0 <= k < |summary| ensures !(OPEN <= summary[k..] + after) {
      var rest := summary[k..];
      SuffixHasNone(summary, k, OPEN);
      assert |rest| < 4 && after != "" ==> (rest + after)[|rest|] == after[0];
      assert |rest| >= 4 ==> (rest + after)[..4] == rest[..4];
    }
    PastPrefix(summary, after, OPEN);
  }

  /** What a caller can check before it renders: no brace of either field is followed by a comment close. */
  predicate Readable(repository: string, timestamp: string)
  {
    !Breaks(repository) && !Breaks(timestamp)
  }

  lemma PayloadIsObject(r: Report, n: Names)
    ensures IsObject(PayloadText(r, n))
  {
    PayloadCloses(r, n);
    FlatCloses(Pieces(Members(r, n)));
  }

  lemma {:induction false} FlatCloses(pieces: seq<Piece>)
    requires Closing(pieces)
    ensures Flat(pieces) != "" && Flat(pieces)[|Flat(pieces)| - 1] == '}'
  {
    var p, rest := pieces[0], pieces[1..];
    assert pieces == [p] + rest;
    FlatHead(p, rest);
    if rest != [] {
      assert Closing(rest);
      FlatCloses(rest);
    }
  }

  /** A rendered comment is read back as the payload it carries, if and only if neither the repository nor the
      timestamp breaks the marker: nothing a CI log or an event key says can. */
  lemma CommentIsReadBack(r: Report, n: Names, w: Wording)
    requires PlainNames(n) && Harmless(w) && IsSha(r.target.head) && Render(r, n, w).Some?
    ensures FindMarkers(Render(r, n, w).value) == [PayloadText(r, n)] <==> Readable(r.target.repository, r.timestamp)
  {
    ProseIsSafe(r, w);
    PayloadIsObject(r, n);
    MarkerSurvives(PayloadText(r, n), Prose(r, w));
    PayloadStops(r, n);
    NoCloseNoBreak(r.key);
  }

  // ---- a payload that stops short ----

  /** What is cut out of a text, anywhere: less than the whole. */
  ghost predicate IsPart(m: string, text: string)
  {
    exists i, j {:trigger text[i..j]} :: 0 <= i <= j <= |text| && j - i < |text| && m == text[i..j]
  }

  lemma {:induction false} SkipsBlanks(s: string) returns (x: string)
    ensures s == x + Skip(s) && '}' !in x
  {
    if s != "" && Text.IsSpace(s[0]) {
      x := SkipsBlanks(s[1..]);
      assert !Text.IsSpace('}');
      assert s == [s[0]] + s[1..];
      Text.Regroup([s[0]], x, Skip(s));
      x := [s[0]] + x;
    } else {
      x := "";
    }
  }

  lemma HeaderHasNoBrace(open: string, x: string, marker: string, y: string, json: string)
    requires '}' !in open && '}' !in x && '}' !in marker && '}' !in y
    ensures var s := open + (x + (marker + (y + json)));
      var p := |open| + |x| + |marker| + |y|;
      s[p..] == json && '}' !in s[..p]
  {
    var h := open + (x + (marker + y));
    assert open + (x + (marker + (y + json))) == h + json;
    assert (h + json)[..|h|] == h;
  }

  lemma WordsHaveNoBrace()
    ensures '}' !in OPEN && '}' !in MARKER
  {
  }

  lemma HeaderOf(s: string, open: string, marker: string)
    requires open <= s && marker <= Skip(s[|open|..]) && '}' !in open && '}' !in marker
    ensures var json := Skip(Skip(s[|open|..])[|marker|..]);
      var p := |s| - |json|;
      |open| <= p <= |s| && s[p..] == json && '}' !in s[..p]
  {
    var gap := Skip(s[|open|..]);
    var after := gap[|marker|..];
    var x := SkipsBlanks(s[|open|..]);
    var y := SkipsBlanks(after);
    assert s == open + s[|open|..] && gap == marker + after;
    HeaderHasNoBrace(open, x, marker, y, Skip(after));
  }

  /** A marker's object starts behind its header, which holds no brace. */
  lemma MarkerStart(s: string) returns (p: nat)
    requires MarkerAt(s).Taken?
    ensures 4 <= p < |s| && s[p] == '{' && '}' !in s[..p]
    ensures UpToClose(s[p + 1..]).Taken?
    ensures MarkerAt(s) == Taken("{" + UpToClose(s[p + 1..]).text, UpToClose(s[p + 1..]).rest)
  {
    var json := Skip(Skip(s[4..])[|MARKER|..]);
    WordsHaveNoBrace();
    HeaderOf(s, OPEN, MARKER);
    p := |s| - |json|;
    assert json[1..] == s[p + 1..];
  }

  lemma {:induction false} UpToCloseIsPrefix(s: string)
    ensures var t := UpToClose(s);
      t.Taken? ==> t.text <= s && |t.rest| <= |s| && t.rest == s[|s| - |t.rest|..]
  {
    if s != "" {
      UpToCloseIsPrefix(s[1..]);
      SkipIsSuffix(s[1..]);
      var t := UpToClose(s[1..]);
      if t.Taken? {
        assert [s[0]] + t.text <= [s[0]] + s[1..];
        assert s[1..][|s| - 1 - |t.rest|..] == s[|s| - |t.rest|..];
      }
    }
  }

  lemma {:induction false} SkipIsSuffix(s: string)
    ensures Skip(s) == s[|s| - |Skip(s)|..]
  {
    if s != "" && Text.IsSpace(s[0]) { SkipIsSuffix(s[1..]); }
  }

  /** What a lazy match takes from an object on: no more than the object, and less when the object stops short. */
  lemma TakenFromObject(text: string, prose: string)
    requires IsObject(text)
    ensures var s := text[1..] + (" -->\n" + prose);
      var t := UpToClose(s);
      t.Taken? && 1 + |t.text| <= |text| && (StopsShort(text) ==> 1 + |t.text| < |text|) &&
      "{" + t.text == text[..1 + |t.text|] && |t.rest| <= |s| && t.rest == s[|s| - |t.rest|..]
  {
    var inner := text[1..|text| - 1];
    var s := text[1..] + (" -->\n" + prose);
    assert text[1..] == inner + "}" && " -->\n" + prose == " -->" + ("\n" + prose);
    TakesWhole(inner, "\n" + prose);
    StopsShortInside(text);
    UpToCloseIsPrefix(s);
    PrefixOfObject(text, UpToClose(s).text, " -->\n" + prose);
  }

  lemma PrefixOfObject(text: string, p: string, tail: string)
    requires text != "" && text[0] == '{' && p <= text[1..] + tail && 1 + |p| <= |text|
    ensures "{" + p == text[..1 + |p|]
  {
    assert p == (text[1..] + tail)[..|p|] == text[1..][..|p|];
  }

  lemma TailHasNoOpen(prose: string)
    requires !Contains(prose, OPEN)
    ensures !Contains(" -->\n" + prose, OPEN)
  {
    var lead := " -->\n";
    forall k | 0 <= k < |lead| ensures !(OPEN <= lead[k..] + prose) {
      assert (lead[k..] + prose)[0] == lead[k] != '<';
    }
    PastPrefix(lead, prose, OPEN);
  }

  lemma {:induction false} PartIsContained(s: string, i: nat, part: string)
    requires i <= |s| && part <= s[i..]
    ensures Contains(s, part)
  {
    if i > 0 {
      assert s[1..][i - 1..] == s[i..];
      PartIsContained(s[1..], i - 1, part);
    }
  }

  lemma OpensInText(text: string, tail: string, k: nat)
    requires k <= |text + tail| && OPEN <= (text + tail)[k..] && !Contains(tail, OPEN)
    ensures k < |text|
  {
    assert k >= |text| ==> (text + tail)[k..] == tail[k - |text|..];
    if k >= |text| { PartIsContained(tail, k - |text|, OPEN); }
  }

  /** A header without a brace does not pass the brace that ends the text. */
  lemma HeaderInText(text: string, tail: string, k: nat, p: nat)
    requires text != "" && text[|text| - 1] == '}' && k < |text|
    requires k + p <= |text + tail| && '}' !in (text + tail)[k..][..p]
    ensures k + p < |text|
  {
    var w := text + tail;
    forall j | k <= j < k + p ensures w[j] != '}' {
      assert w[j] == w[k..][..p][j - k] && w[k..][..p][j - k] in w[k..][..p];
    }
    assert w[|text| - 1] == text[|text| - 1];
  }

  /** What is taken from an object inside the payload on. */
  lemma TakenInside(text: string, prose: string, q: nat) returns (rest: nat)
    requires IsObject(text) && 0 < q < |text| && text[q] == '{'
    ensures var w := text + (" -->\n" + prose);
      var t := UpToClose(w[q + 1..]);
      t.Taken? && IsPart("{" + t.text, text) && q < rest <= |w| && t.rest == w[rest..]
  {
    var tail := " -->\n" + prose;
    var part := text[q..];
    var w, more := text + tail, part[1..] + tail;
    assert part[|part| - 1] == text[|text| - 1];
    assert w[q + 1..] == more;
    TakenFromObject(part, prose);
    var t := UpToClose(more);
    assert "{" + t.text == part[..1 + |t.text|] == text[q..q + 1 + |t.text|];
    rest := |w| - |t.rest|;
    assert more[|more| - |t.rest|..] == w[rest..];
  }

  /** A marker past the payload's first character starts and ends inside the payload. */
  lemma MarkerInsidePayload(text: string, prose: string, k: nat) returns (rest: nat)
    requires IsObject(text) && !Contains(prose, OPEN)
    requires 0 < k <= |text + (" -->\n" + prose)| && MarkerAt((text + (" -->\n" + prose))[k..]).Taken?
    ensures var w := text + (" -->\n" + prose);
      IsPart(MarkerAt(w[k..]).text, text) && k < rest <= |w| && MarkerAt(w[k..]).rest == w[rest..]
  {
    var tail := " -->\n" + prose;
    var w := text + tail;
    TailHasNoOpen(prose);
    OpensInText(text, tail, k);
    var p := MarkerStart(w[k..]);
    HeaderInText(text, tail, k, p);
    assert w[k..][p + 1..] == w[k + p + 1..] && text[k + p] == w[k..][p];
    rest := TakenInside(text, prose, k + p);
  }

  lemma {:induction false} MarkersInsidePayload(text: string, prose: string, k: nat)
    requires IsObject(text) && !Contains(prose, OPEN) && 0 < k <= |text + (" -->\n" + prose)|
    ensures forall m :: m in FindMarkers((text + (" -->\n" + prose))[k..]) ==> IsPart(m, text)
    decreases |text + (" -->\n" + prose)| - k
  {
    var w := text + (" -->\n" + prose);
    if k < |w| {
      if MarkerAt(w[k..]).Taken? {
        var rest := MarkerInsidePayload(text, prose, k);
        MarkersInsidePayload(text, prose, rest);
      } else {
        assert w[k..][1..] == w[k + 1..];
        MarkersInsidePayload(text, prose, k + 1);
      }
    }
  }

  /** A payload that stops short is read in parts, whatever markers its fields may imitate. */
  lemma ShortPayloadIsInParts(text: string, prose: string)
    requires IsObject(text) && StopsShort(text) && !Contains(prose, OPEN)
    ensures forall m :: m in FindMarkers("<!-- " + MARKER + " " + text + (" -->\n" + prose)) ==> IsPart(m, text)
  {
    MarkerHeader(text, " -->\n" + prose);
    FirstAndInside("<!-- " + MARKER + " " + text + (" -->\n" + prose), text, prose);
  }

  lemma FirstAndInside(body: string, text: string, prose: string)
    requires body != "" && IsObject(text) && StopsShort(text) && !Contains(prose, OPEN)
    requires MarkerAt(body) == var t := UpToClose(text[1..] + (" -->\n" + prose));
                               if t.Nothing? then Nothing else Taken("{" + t.text, t.rest)
    ensures forall m :: m in FindMarkers(body) ==> IsPart(m, text)
  {
    var tail := " -->\n" + prose;
    var t := UpToClose(text[1..] + tail);
    TakenFromObject(text, prose);
    RestInside(text, tail, t.rest);
    MarkersInsidePayload(text, prose, |text + tail| - |t.rest|);
    assert "{" + t.text == text[0..1 + |t.text|];
    FirstOfParts(body, text, Taken("{" + t.text, t.rest));
  }

  lemma FirstOfParts(body: string, text: string, m: Taken)
    requires body != "" && m.Taken? && MarkerAt(body) == m && IsPart(m.text, text)
    requires forall x :: x in FindMarkers(m.rest) ==> IsPart(x, text)
    ensures forall x :: x in FindMarkers(body) ==> IsPart(x, text)
  {
    FindFirst(body, m);
  }

  lemma RestInside(text: string, tail: string, rest: string)
    requires text != "" && |rest| <= |text[1..] + tail| && rest == (text[1..] + tail)[|text[1..] + tail| - |rest|..]
    ensures (text + tail)[|text + tail| - |rest|..] == rest
  {
    assert text + tail == text[..1] + (text[1..] + tail);
  }

  /** An unreadable comment is read in parts of its payload, none of which is the payload. */
  lemma UnreadableIsInParts(r: Report, n: Names, w: Wording)
    requires PlainNames(n) && Harmless(w) && IsSha(r.target.head) && Render(r, n, w).Some?
    requires !Readable(r.target.repository, r.timestamp)
    ensures forall m :: m in FindMarkers(Render(r, n, w).value) ==> IsPart(m, PayloadText(r, n))
  {
    var text, prose := PayloadText(r, n), Prose(r, w);
    PayloadIsObject(r, n);
    PayloadStops(r, n);
    ProseIsSafe(r, w);
    ShortPayloadIsInParts(text, prose);
    RenderedText(r, n, w);
  }

  lemma RenderedText(r: Report, n: Names, w: Wording)
    requires Render(r, n, w).Some?
    ensures Render(r, n, w).value == "<!-- " + MARKER + " " + PayloadText(r, n) + (" -->\n" + Prose(r, w))
  {
    var lead := "<!-- " + MARKER + " " + PayloadText(r, n);
    Text.Regroup(lead, " -->\n", Prose(r, w));
  }

  // ---- rebuilding the store ----

  datatype Comment = Comment(login: string, body: string)

  /** The facts read back from a payload. */
  datatype Payload = Payload(target: Target, key: string, attempts: int, exhausted: bool)

  function FactsOf(r: Report): Payload
  {
    Payload(r.target, r.key, r.attempts, r.exhausted)
  }

  /** `json.loads` and the field types `_parse_marker` checks: it reads back every payload that is written, and
      no payload out of a part of one. */
  type Reader = string -> Option<Payload>

  ghost predicate ReadsBack(loads: Reader, n: Names)
  {
    (forall r: Report :: loads(PayloadText(r, n)) == Some(FactsOf(r))) &&
    (forall r: Report, m :: IsPart(m, PayloadText(r, n)) ==> loads(m).None?)
  }

  ghost function ReadText(raw: string, n: Names): Option<Payload>
  {
    if exists r :: PayloadText(r, n) == raw then
      var r :| PayloadText(r, n) == raw;
      Some(FactsOf(r))
    else None
  }

  /** There is such a reader: a payload text tells the facts it was written from, and none is a part of another. */
  lemma ReaderExists(n: Names)
    requires PlainNames(n)
    ensures ReadsBack((raw: string) => ReadText(raw, n), n)
  {
    forall r: Report, m | IsPart(m, PayloadText(r, n)) ensures ReadText(m, n).None? {
      var i, j :| 0 <= i <= j <= |PayloadText(r, n)| && j - i < |PayloadText(r, n)| && m == PayloadText(r, n)[i..j];
      forall s: Report ensures PayloadText(s, n) != m {
        PayloadPartFree(s, r, n, i, j);
      }
    }
    forall r: Report ensures ReadText(PayloadText(r, n), n) == Some(FactsOf(r)) {
      forall s: Report | PayloadText(s, n) == PayloadText(r, n) ensures FactsOf(s) == FactsOf(r) {
        PayloadUnique(r, s, n);
      }
    }
  }

  /** `_parse_marker`. */
  function ParseMarker(raw: string, loads: Reader): Option<Payload>
  {
    var p := loads(raw);
    if p.None? then None
    else if p.value.target.repository == "" || !ExactHead(p.value.target) || p.value.key == "" || p.value.attempts <= 0 then None
    else p
  }

  /** What is read is exactly what the text says, when that is a payload for an exact head with an event key and an
      attempt to its name; anything else is skipped and can grant nothing. */
  lemma ParsedExactly(raw: string, loads: Reader)
    ensures ParseMarker(raw, loads).Some? <==>
      loads(raw).Some? &&
      var p := loads(raw).value;
      p.target.repository != "" && p.target.pr >= 1 && p.target.run >= 1 && IsSha(p.target.head) && p.key != "" &&
      p.attempts >= 1
    ensures ParseMarker(raw, loads).Some? ==> ParseMarker(raw, loads) == loads(raw)
  {
  }

  /** `_merge_marker`. */
  function Merged(store: Store, p: Payload): Store
  {
    var k := KeyOf(p.target);
    var record := if k in store then store[k] else Record(0, [], Unset);
    store[k := Record(
      if record.attempts < p.attempts then p.attempts else record.attempts,
      if p.key in record.events then record.events else record.events + [p.key],
      if p.exhausted || record.status == Exhausted then Exhausted else Retrying)]
  }

  function MergedAll(payloads: seq<Payload>): Store
  {
    if payloads == [] then map[] else Merged(MergedAll(payloads[..|payloads| - 1]), payloads[|payloads| - 1])
  }

  function Parsed(raws: seq<string>, loads: Reader): seq<Payload>
  {
    if raws == [] then []
    else
      var p := ParseMarker(raws[|raws| - 1], loads);
      Parsed(raws[..|raws| - 1], loads) + if p.Some? then [p.value] else []
  }

  function Evidence(comments: seq<Comment>, trusted: string -> bool, loads: Reader): seq<Payload>
  {
    if comments == [] then []
    else
      var c := comments[|comments| - 1];
      Evidence(comments[..|comments| - 1], trusted, loads) +
      if trusted(c.login) then Parsed(FindMarkers(c.body), loads) else []
  }

  lemma MergedOne(payloads: seq<Payload>, p: Payload)
    ensures MergedAll(payloads + [p]) == Merged(MergedAll(payloads), p)
  {
    var s := payloads + [p];
    assert s[..|s| - 1] == payloads;
  }

  lemma ParsedStep(raws: seq<string>, j: nat, loads: Reader, p: Option<Payload>)
    requires j < |raws| && p == ParseMarker(raws[j], loads)
    ensures Parsed(raws[..j + 1], loads) == Parsed(raws[..j], loads) + if p.Some? then [p.value] else []
  {
    assert raws[..j + 1][..j] == raws[..j];
  }

  lemma MergeStep(before: seq<Payload>, raws: seq<string>, j: nat, loads: Reader, p: Option<Payload>)
    requires j < |raws| && p == ParseMarker(raws[j], loads)
    ensures MergedAll(before + Parsed(raws[..j + 1], loads))
         == if p.Some? then Merged(MergedAll(before + Parsed(raws[..j], loads)), p.value)
            else MergedAll(before + Parsed(raws[..j], loads))
  {
    ParsedStep(raws, j, loads, p);
    var earlier := Parsed(raws[..j], loads);
    if p.Some? {
      MergedOne(before + earlier, p.value);
      assert before + earlier + [p.value] == before + (earlier + [p.value]);
    } else {
      assert earlier + [] == earlier;
    }
  }

  method MergeMarkers(raws: seq<string>, loads: Reader, store: Store, ghost before: seq<Payload>) returns (next: Store)
    requires store == MergedAll(before)
    ensures next == MergedAll(before + Parsed(raws, loads))
  {
    next := store;
    assert before + [] == before;
    for j := 0 to |raws|
      invariant next == MergedAll(before + Parsed(raws[..j], loads))
    {
      var p := ParseMarker(raws[j], loads);
      MergeStep(before, raws, j, loads, p);
      if p.Some? {
        next := Merged(next, p.value);
      }
    }
    assert raws[..|raws|] == raws;
  }

  /** `retry_state_from_comments`. */
  method Rebuild(comments: seq<Comment>, trusted: string -> bool, loads: Reader) returns (store: Store)
    ensures store == MergedAll(Evidence(comments, trusted, loads))
  {
    store := map[];
    for i := 0 to |comments|
      invariant store == MergedAll(Evidence(comments[..i], trusted, loads))
    {
      ghost var before := Evidence(comments[..i], trusted, loads);
      assert comments[..i + 1][..i] == comments[..i];
      if trusted(comments[i].login) {
        store := MergeMarkers(FindMarkers(comments[i].body), loads, store, before);
      } else {
        assert before + [] == before;
      }
    }
    assert comments[..|comments|] == comments;
  }

  // ---- the merge is a join ----

  ghost predicate Mentions(payloads: seq<Payload>, t: Target)
  {
    exists p :: p in payloads && p.target == t
  }

  /** The record of a target, read off the payloads that name it: a union, a maximum and an "any". */
  ghost predicate Joins(store: Store, payloads: seq<Payload>, t: Target)
  {
    var k := KeyOf(t);
    (k in store <==> Mentions(payloads, t)) &&
    (k in store ==>
      (forall e :: e in store[k].events <==> exists p :: p in payloads && p.target == t && p.key == e) &&
      (forall p :: p in payloads && p.target == t ==> p.attempts <= store[k].attempts) &&
      (exists p :: p in payloads && p.target == t && p.attempts == store[k].attempts) &&
      store[k].status == if exists p :: p in payloads && p.target == t && p.exhausted then Exhausted else Retrying)
  }

  lemma {:induction false} MergeJoins(payloads: seq<Payload>, t: Target)
    requires ExactHead(t) && forall p :: p in payloads ==> ExactHead(p.target) && p.attempts > 0
    ensures Joins(MergedAll(payloads), payloads, t)
  {
    if payloads != [] {
      var init, p := payloads[..|payloads| - 1], payloads[|payloads| - 1];
      assert payloads == init + [p];
      MergeJoins(init, t);
      if p.target == t {
        JoinStep(MergedAll(init), init, p);
      } else {
        if KeyOf(p.target) == KeyOf(t) { KeyInjective(p.target, t); }
        JoinOther(MergedAll(init), Merged(MergedAll(init), p), init, p, t);
      }
    }
  }

  lemma JoinStep(store: Store, init: seq<Payload>, p: Payload)
    requires Joins(store, init, p.target) && p.attempts > 0
    ensures Joins(Merged(store, p), init + [p], p.target)
  {
    var t, k := p.target, KeyOf(p.target);
    var payloads, next := init + [p], Merged(store, p);
    assert p in payloads;
    assert forall q :: q in payloads <==> q in init || q == p;
    forall e ensures e in next[k].events <==> exists q :: q in payloads && q.target == t && q.key == e {
      if k in store && e in store[k].events {
        var q :| q in init && q.target == t && q.key == e;
        assert q in payloads;
      }
      if q :| q in payloads && q.target == t && q.key == e {
        if q in init { assert Mentions(init, t); }
      }
    }
    if k in store && store[k].attempts >= p.attempts {
      var q :| q in init && q.target == t && q.attempts == store[k].attempts;
      assert q in payloads;
    }
    forall q | q in payloads && q.target == t ensures q.attempts <= next[k].attempts {
      if q in init { assert Mentions(init, t); }
    }
    if q :| q in payloads && q.target == t && q.exhausted {
      if q in init { assert Mentions(init, t); }
    }
    if k in store && store[k].status == Exhausted {
      var q :| q in init && q.target == t && q.exhausted;
      assert q in payloads;
    }
  }

  lemma JoinOther(store: Store, next: Store, init: seq<Payload>, p: Payload, t: Target)
    requires Joins(store, init, t) && p.target != t
    requires (KeyOf(t) in next <==> KeyOf(t) in store) && (KeyOf(t) in store ==> next[KeyOf(t)] == store[KeyOf(t)])
    ensures Joins(next, init + [p], t)
  {
    assert forall q: Payload :: q.target == t ==> (q in init + [p] <==> q in init);
  }
}
