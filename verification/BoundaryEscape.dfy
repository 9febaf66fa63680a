/** context_builder.py, `_boundary_safe_text`: markers escaped rather than stripped, with nothing lost. */
module BoundaryEscape {
  import opened PromptBoundary

  const ESC_OPEN := "\\u003c"
  const ESC_CLOSE := "\\u003e"
  const ESC_NUL := "\\u0000"
  const ESC_BACKSLASH := "\\u005c"

  // ---- the encoder ----

  /** A backslash opening a sequence the encoder itself inserts. */
  predicate Lookalike(s: string)
  {
    ESC_OPEN <= s || ESC_CLOSE <= s || ESC_NUL <= s || ESC_BACKSLASH <= s
  }

  /** `_ESCAPE_LOOKALIKE.sub`: one pass that never rescans. */
  function EscapeLookalikes(s: string): string
  {
    if s == "" then "" else (if Lookalike(s) then ESC_BACKSLASH else [s[0]]) + EscapeLookalikes(s[1..])
  }

  function EscapeNuls(s: string): string
  {
    if s == "" then "" else EscapeNul(s[0]) + EscapeNuls(s[1..])
  }

  function EscapeNul(c: char): string
  {
    if c == NUL then ESC_NUL else [c]
  }

  /** `_BOUNDARY_MARKER.sub`, spelling the two brackets of each marker as escapes. */
  function EscapeMarkers(s: string, body: string -> bool): string
    decreases |s|
  {
    if s == "" then ""
    else
      var n := MarkerLength(s, body);
      if n > 0 then ESC_OPEN + s[1..n - 1] + ESC_CLOSE + EscapeMarkers(s[n..], body)
      else [s[0]] + EscapeMarkers(s[1..], body)
  }

  function Brackets(s: string): nat
  {
    if s == "" then 0 else (if s[0] == '<' then 1 else 0) + Brackets(s[1..])
  }

  lemma {:induction false} BracketsConcat(a: string, b: string)
    ensures Brackets(a + b) == Brackets(a) + Brackets(b)
  {
    if a == "" {
      assert a + b == b;
    } else {
      BracketsConcat(a[1..], b);
      assert (a + b)[1..] == a[1..] + b;
    }
  }

  lemma {:induction false} PlainHasNone(s: string)
    requires '<' !in s
    ensures Brackets(s) == 0
  {
    if s != "" {
      assert s[0] in s;
      PlainHasNone(s[1..]);
    }
  }

  lemma EscapedMarkerBrackets(mid: string, rest: string)
    requires Plain(mid)
    ensures Brackets(ESC_OPEN + mid + ESC_CLOSE + rest) == Brackets(rest)
    ensures Brackets("<" + mid + ">" + rest) == 1 + Brackets(rest)
  {
    PlainHasNone(mid);
    PlainHasNone(ESC_OPEN);
    PlainHasNone(ESC_CLOSE);
    assert Brackets("<") == 1 by { assert "<"[1..] == ""; }
    PlainHasNone(">");
    BracketsConcat(ESC_OPEN, mid);
    BracketsConcat(ESC_OPEN + mid, ESC_CLOSE);
    BracketsConcat(ESC_OPEN + mid + ESC_CLOSE, rest);
    BracketsConcat("<", mid);
    BracketsConcat("<" + mid, ">");
    BracketsConcat("<" + mid + ">", rest);
  }

  /** Each pass that changes anything leaves strictly fewer open brackets, so the loop ends. */
  lemma {:induction false} EscapeProgress(s: string, body: string -> bool)
    requires PlainBodies(body)
    ensures Brackets(EscapeMarkers(s, body)) <= Brackets(s)
    ensures Brackets(EscapeMarkers(s, body)) == Brackets(s) ==> EscapeMarkers(s, body) == s
    ensures (exists i, k :: 0 <= i <= k <= |s| && IsMarker(s[i..k], body)) ==> Brackets(EscapeMarkers(s, body)) < Brackets(s)
    decreases |s|
  {
    if s != "" {
      var n := MarkerLength(s, body);
      if n > 0 {
        MarkerPlain(s, body);
        EscapeProgress(s[n..], body);
        EscapedMarkerBrackets(s[1..n - 1], EscapeMarkers(s[n..], body));
        EscapedMarkerBrackets(s[1..n - 1], s[n..]);
      } else {
        EscapeProgress(s[1..], body);
        BracketsConcat([s[0]], EscapeMarkers(s[1..], body));
        BracketsConcat([s[0]], s[1..]);
        assert s == [s[0]] + s[1..];
        if i, k :| 0 <= i <= k <= |s| && IsMarker(s[i..k], body) {
          MarkerInTail(s, i, k, body);
        }
      }
    }
  }

  lemma MarkerInTail(s: string, i: nat, k: nat, body: string -> bool)
    requires PlainBodies(body) && i <= k <= |s| && IsMarker(s[i..k], body) && MarkerLength(s, body) == 0
    ensures i > 0 && s[1..][i - 1..k - 1] == s[i..k]
  {
    if i == 0 { MarkerFound(s, k, body); }
  }

  function EscapedToFixpoint(s: string, body: string -> bool): string
    requires PlainBodies(body)
    decreases Brackets(s)
  {
    EscapeProgress(s, body);
    if EscapeMarkers(s, body) == s then s else EscapedToFixpoint(EscapeMarkers(s, body), body)
  }

  function BoundarySafe(text: string): string
  {
    MarkerBodiesArePlain();
    EscapedToFixpoint(EscapeNuls(EscapeLookalikes(text)), AnyBody)
  }

  method BoundarySafeText(text: string) returns (cleaned: string)
    ensures cleaned == BoundarySafe(text)
    ensures Decode(cleaned) == text
    ensures Harmless(cleaned)
  {
    MarkerBodiesArePlain();
    cleaned := EscapeLookalikes(text);
    cleaned := EscapeNuls(cleaned);
    while true
      invariant EscapedToFixpoint(cleaned, AnyBody) == BoundarySafe(text)
      decreases Brackets(cleaned)
    {
      EscapeProgress(cleaned, AnyBody);
      var escaped := EscapeMarkers(cleaned, AnyBody);
      if escaped == cleaned {
        BoundarySafeIsLossless(text);
        return escaped;
      }
      cleaned := escaped;
    }
  }

  // ---- the decoder ----

  /** Leftmost-first decoding of the four escapes. */
  function Decode(s: string): string
    decreases |s|
  {
    if s == "" then ""
    else if ESC_OPEN <= s then "<" + Decode(s[6..])
    else if ESC_CLOSE <= s then ">" + Decode(s[6..])
    else if ESC_NUL <= s then [NUL] + Decode(s[6..])
    else if ESC_BACKSLASH <= s then "\\" + Decode(s[6..])
    else [s[0]] + Decode(s[1..])
  }

  function EscapeOf(c: char): (e: string)
    ensures |e| == 6 && Lookalike(e) && '<' !in e && NUL !in e && e[0] == '\\'
  {
    if c == '<' then ESC_OPEN else if c == '>' then ESC_CLOSE else if c == NUL then ESC_NUL else ESC_BACKSLASH
  }

  /** Which first characters may be spelled as an escape, and which may stand for themselves. */
  predicate Escapable(t: string)
    requires t != ""
  {
    t[0] == '<' || t[0] == '>' || t[0] == NUL || Lookalike(t)
  }

  predicate RawAllowed(t: string)
    requires t != ""
  {
    t[0] != NUL && !Lookalike(t)
  }

  /** `s` spells `t` character by character, escaping what must be escaped and possibly brackets. */
  ghost predicate Encodes(t: string, s: string)
    decreases |t|
  {
    if t == "" then s == ""
    else RawEncodes(t, s) || (Escapable(t) && EscapeOf(t[0]) <= s && Encodes(t[1..], s[6..]))
  }

  ghost predicate RawEncodes(t: string, s: string)
    requires t != ""
    decreases |t|, 0
  {
    s != "" && s[0] == t[0] && RawAllowed(t) && Encodes(t[1..], s[1..])
  }

  /** Text free of backslashes is spelled raw. */
  lemma {:induction false} RawStretch(t: string, s: string, k: nat)
    requires Encodes(t, s) && k <= |s| && '\\' !in s[..k]
    ensures k <= |t| && t[..k] == s[..k] && Encodes(t[k..], s[k..])
    decreases k
  {
    if k > 0 {
      assert s[0] == s[..k][0];
      assert RawEncodes(t, s);
      assert s[1..][..k - 1] == s[..k][1..];
      RawStretch(t[1..], s[1..], k - 1);
      assert t[1..][k - 1..] == t[k..] && s[1..][k - 1..] == s[k..];
      assert t[..k] == [t[0]] + t[1..][..k - 1] && s[..k] == [s[0]] + s[1..][..k - 1];
    }
  }

  /** A raw backslash never opens an escape in the encoded text. */
  lemma RawIsNoEscape(t: string, s: string)
    requires t != "" && RawEncodes(t, s)
    ensures !Lookalike(s)
  {
    if Lookalike(s) {
      var tail := s[1..6];
      assert s[1..][..5] == tail;
      assert '\\' !in tail;
      RawStretch(t[1..], s[1..], 5);
      assert t[..6] == [t[0]] + t[1..][..5];
      assert s[..6] == [s[0]] + tail;
      assert t[..6] == s[..6];
      LookalikePrefix(t, s);
      assert false;
    }
  }

  lemma LookalikePrefix(t: string, s: string)
    requires |t| >= 6 && |s| >= 6 && t[..6] == s[..6]
    ensures Lookalike(t) <==> Lookalike(s)
  {
    assert forall e: string | |e| == 6 :: (e <= t <==> e == t[..6]) && (e <= s <==> e == s[..6]);
  }

  lemma {:induction false} DecodeEncoded(t: string, s: string)
    requires Encodes(t, s)
    ensures Decode(s) == t
    decreases |t|
  {
    if t != "" {
      assert t == [t[0]] + t[1..];
      if RawEncodes(t, s) {
        RawIsNoEscape(t, s);
        DecodeEncoded(t[1..], s[1..]);
      } else {
        DecodeEncoded(t[1..], s[6..]);
        assert s[..6] == EscapeOf(t[0]);
        DecodeEscape(t[0], s);
        if t[0] != '<' && t[0] != '>' && t[0] != NUL {
          assert t[0] == '\\';
        }
      }
    }
  }

  lemma DecodeEscape(c: char, s: string)
    requires EscapeOf(c) <= s
    ensures Decode(s) == [if c == '<' || c == '>' || c == NUL then c else '\\'] + Decode(s[6..])
  {
    assert s[..6] == EscapeOf(c);
    assert ESC_OPEN <= s <==> s[..6] == ESC_OPEN;
    assert ESC_CLOSE <= s <==> s[..6] == ESC_CLOSE;
    assert ESC_NUL <= s <==> s[..6] == ESC_NUL;
    assert ESC_OPEN[5] == 'c' && ESC_CLOSE[5] == 'e' && ESC_NUL[5] == '0' && ESC_BACKSLASH[5] == 'c';
    assert ESC_OPEN[3] == '0' && ESC_BACKSLASH[3] == '0' && ESC_OPEN[4] == '3' && ESC_BACKSLASH[4] == '5';
  }

  // ---- the encoder encodes ----

  lemma {:induction false} EscapeNulsConcat(a: string, b: string)
    ensures EscapeNuls(a + b) == EscapeNuls(a) + EscapeNuls(b)
  {
    if a == "" {
      assert a + b == b;
    } else {
      EscapeNulsConcat(a[1..], b);
      assert (a + b)[1..] == a[1..] + b && (a + b)[0] == a[0];
      Text.Regroup(EscapeNul(a[0]), EscapeNuls(a[1..]), EscapeNuls(b));
    }
  }

  lemma {:induction false} EscapeNulsKeeps(s: string)
    requires NUL !in s
    ensures EscapeNuls(s) == s
  {
    if s != "" {
      assert s[0] in s;
      EscapeNulsKeeps(s[1..]);
    }
  }

  lemma {:induction false} FirstPassesEncode(t: string)
    ensures Encodes(t, EscapeNuls(EscapeLookalikes(t)))
  {
    if t != "" {
      FirstPassesEncode(t[1..]);
      var rest := EscapeLookalikes(t[1..]);
      var s := EscapeNuls(rest);
      if Lookalike(t) {
        assert t[0] == '\\';
        EscapeNulsConcat(ESC_BACKSLASH, rest);
        EscapeNulsKeeps(ESC_BACKSLASH);
        EscapedEncodes(t, s);
      } else {
        EscapeNulsConcat([t[0]], rest);
        assert [t[0]][1..] == "";
        if t[0] == NUL { EscapedEncodes(t, s); } else { RawOneEncodes(t, s); }
      }
    }
  }

  lemma EscapedEncodes(t: string, s: string)
    requires t != "" && Escapable(t) && Encodes(t[1..], s)
    ensures Encodes(t, EscapeOf(t[0]) + s)
  {
    var e := EscapeOf(t[0]);
    assert (e + s)[6..] == s && e <= e + s;
  }

  lemma RawOneEncodes(t: string, s: string)
    requires t != "" && RawAllowed(t) && Encodes(t[1..], s)
    ensures Encodes(t, [t[0]] + s)
  {
    assert ([t[0]] + s)[1..] == s;
    assert RawEncodes(t, [t[0]] + s);
  }

  lemma {:induction false} RawPrepend(mid: string, t: string, s: string)
    requires Plain(mid) && Encodes(t, s)
    ensures Encodes(mid + t, mid + s)
  {
    if mid == "" {
      assert mid + t == t && mid + s == s;
    } else {
      assert Plain(mid[1..]) by { assert forall i :: 0 <= i < |mid[1..]| ==> mid[1..][i] == mid[i + 1]; }
      RawPrepend(mid[1..], t, s);
      assert (mid + t)[1..] == mid[1..] + t && (mid + s)[1..] == mid[1..] + s;
      var whole := mid + t;
      assert whole[0] == mid[0] && !Special(mid[0]);
      assert whole[0] != NUL && !Lookalike(whole);
      assert RawEncodes(whole, mid + s);
    }
  }

  lemma EscapePrepend(c: char, t: string, s: string)
    requires (c == '<' || c == '>') && Encodes(t, s)
    ensures Encodes([c] + t, EscapeOf(c) + s)
  {
    assert ([c] + t)[1..] == t && (EscapeOf(c) + s)[6..] == s;
  }

  lemma {:induction false} PastNoBracket(p: string, s: string, body: string -> bool)
    requires '<' !in p
    ensures EscapeMarkers(p + s, body) == p + EscapeMarkers(s, body)
    decreases |p|
  {
    if p == "" {
      assert p + s == s;
    } else {
      assert p[0] in p && (p + s)[0] == p[0];
      assert MarkerLength(p + s, body) == 0;
      PastNoBracket(p[1..], s, body);
      assert (p + s)[1..] == p[1..] + s;
      var r := EscapeMarkers(s, body);
      assert p + r == [p[0]] + (p[1..] + r);
    }
  }

  lemma {:induction false} MarkerPassEncodes(t: string, s: string, body: string -> bool)
    requires PlainBodies(body)
    requires Encodes(t, s)
    ensures Encodes(t, EscapeMarkers(s, body))
    decreases |s|
  {
    if t != "" {
      assert t == [t[0]] + t[1..];
      if RawEncodes(t, s) {
        var n := MarkerLength(s, body);
        if n > 0 {
          EscapedMarkerEncodes(t, s, n, body);
        } else {
          MarkerPassEncodes(t[1..], s[1..], body);
          var r := EscapeMarkers(s[1..], body);
          assert ([s[0]] + r)[1..] == r;
          assert RawEncodes(t, [s[0]] + r);
        }
      } else {
        var e := EscapeOf(t[0]);
        MarkerPassEncodes(t[1..], s[6..], body);
        assert s == e + s[6..];
        PastNoBracket(e, s[6..], body);
        var r := EscapeMarkers(s[6..], body);
        assert (e + r)[6..] == r && e <= e + r;
      }
    }
  }

  lemma {:induction false} EscapedMarkerEncodes(t: string, s: string, n: nat, body: string -> bool)
    requires PlainBodies(body)
    requires Encodes(t, s) && n == MarkerLength(s, body) > 0
    ensures Encodes(t, EscapeMarkers(s, body))
    decreases |s|, 0
  {
    MarkerPlain(s, body);
    var mid := s[1..n - 1];
    assert s[..n] == "<" + mid + ">";
    forall i | 0 <= i < n ensures s[..n][i] != '\\' {
      if 0 < i < n - 1 { assert mid[i - 1] == s[i]; }
    }
    RawStretch(t, s, n);
    MarkerPassEncodes(t[n..], s[n..], body);
    MarkerRespelled(mid, t[n..], EscapeMarkers(s[n..], body));
    assert t == t[..n] + t[n..];
  }

  lemma MarkerRespelled(mid: string, t: string, s: string)
    requires Plain(mid) && Encodes(t, s)
    ensures Encodes("<" + mid + ">" + t, ESC_OPEN + mid + ESC_CLOSE + s)
  {
    var t1, s1 := ['>'] + t, EscapeOf('>') + s;
    EscapePrepend('>', t, s);
    RawPrepend(mid, t1, s1);
    EscapePrepend('<', mid + t1, mid + s1);
    assert "<" + mid + ">" + t == ['<'] + (mid + t1);
    assert ESC_OPEN + mid + ESC_CLOSE + s == EscapeOf('<') + (mid + s1);
  }

  // ---- what the fixpoint guarantees ----

  lemma {:induction false} FixpointFacts(t: string, s: string, body: string -> bool)
    requires PlainBodies(body)
    requires Encodes(t, s) && NUL !in s
    ensures Encodes(t, EscapedToFixpoint(s, body)) && NUL !in EscapedToFixpoint(s, body)
    ensures NoMarker(EscapedToFixpoint(s, body), body)
    decreases Brackets(s)
  {
    EscapeProgress(s, body);
    if EscapeMarkers(s, body) == s {
      assert NoMarker(s, body);
    } else {
      MarkerPassEncodes(t, s, body);
      NoNulAdded(s, body);
      FixpointFacts(t, EscapeMarkers(s, body), body);
    }
  }

  lemma {:induction false} NoNulAdded(s: string, body: string -> bool)
    requires NUL !in s
    ensures NUL !in EscapeMarkers(s, body)
    decreases |s|
  {
    if s != "" {
      var n := MarkerLength(s, body);
      if n > 0 { NoNulAdded(s[n..], body); } else { NoNulAdded(s[1..], body); }
      assert s[0] in s;
    }
  }

  lemma {:induction false} NulsEscaped(s: string)
    ensures NUL !in EscapeNuls(s)
  {
    if s != "" { NulsEscaped(s[1..]); }
  }

  /** Nothing is lost and nothing stays live: decoding gives back the exact text, so two different
      texts never render alike, and no marker and no NUL survive. */
  lemma BoundarySafeIsLossless(text: string)
    ensures Decode(BoundarySafe(text)) == text
    ensures Harmless(BoundarySafe(text))
  {
    var s := EscapeNuls(EscapeLookalikes(text));
    MarkerBodiesArePlain();
    FirstPassesEncode(text);
    NulsEscaped(EscapeLookalikes(text));
    FixpointFacts(text, s, AnyBody);
    DecodeEncoded(text, BoundarySafe(text));
  }

  lemma BoundarySafeInjective(a: string, b: string)
    requires BoundarySafe(a) == BoundarySafe(b)
    ensures a == b
  {
    BoundarySafeIsLossless(a);
    BoundarySafeIsLossless(b);
  }
}
