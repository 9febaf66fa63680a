/** infra_recovery.py, `_sanitize_summary`: an untrusted log excerpt made inert inside an HTML comment. */
module RetrySummary {
  import Text

  // ---- text helpers ----

  predicate Contains(s: string, part: string)
  {
    part <= s || (s != "" && Contains(s[1..], part))
  }

  function Skip(s: string): (r: string)
    ensures |r| <= |s| && (r != "" ==> !Text.IsSpace(r[0]))
  {
    if s != "" && Text.IsSpace(s[0]) then Skip(s[1..]) else s
  }

  function WordLength(s: string): (n: nat)
    ensures n <= |s| && (s != "" && !Text.IsSpace(s[0]) ==> n > 0)
  {
    if s == "" || Text.IsSpace(s[0]) then 0 else 1 + WordLength(s[1..])
  }

  /** `" ".join(s.split())`. */
  function Collapse(s: string): string
    decreases |s|
  {
    var t := Skip(s);
    if t == "" then ""
    else
      var n := WordLength(t);
      var rest := Skip(t[n..]);
      if rest == "" then t[..n] else t[..n] + " " + Collapse(rest)
  }

  /** `s.replace(old, new)`. */
  function Replace(s: string, from: string, to: string): string
    requires from != ""
    decreases |s|
  {
    if s == "" then "" else if from <= s then to + Replace(s[|from|..], from, to) else [s[0]] + Replace(s[1..], from, to)
  }

  lemma {:induction false} PrefixHasNone(s: string, n: nat, part: string)
    requires n <= |s| && !Contains(s, part)
    ensures !Contains(s[..n], part)
  {
    if n > 0 {
      PrefixHasNone(s[1..], n - 1, part);
      assert s[..n][1..] == s[1..][..n - 1];
    }
  }

  lemma {:induction false} SuffixHasNone(s: string, n: nat, part: string)
    requires n <= |s| && !Contains(s, part)
    ensures !Contains(s[n..], part)
  {
    if n > 0 {
      SuffixHasNone(s[1..], n - 1, part);
      assert s[1..][n - 1..] == s[n..];
    }
  }

  lemma {:induction false} NeedsChar(s: string, part: string, k: nat)
    requires k < |part| && part[k] !in s
    ensures !Contains(s, part)
  {
    assert k < |s| ==> s[k] in s;
    if s != "" { NeedsChar(s[1..], part, k); }
  }

  /** A part that starts nowhere in `p` and is not in `rest` is not in their concatenation. */
  lemma {:induction false} PastPrefix(p: string, rest: string, part: string)
    requires !Contains(rest, part)
    requires forall k :: 0 <= k < |p| ==> !(part <= p[k..] + rest)
    ensures !Contains(p + rest, part)
  {
    if p == "" {
      assert p + rest == rest;
    } else {
      assert p[0..] == p;
      forall k | 0 <= k < |p[1..]| ensures !(part <= p[1..][k..] + rest) {
        assert p[1..][k..] == p[k + 1..];
      }
      PastPrefix(p[1..], rest, part);
      assert (p + rest)[1..] == p[1..] + rest;
    }
  }

  // ---- the sanitized summary ----

  const CLOSE := "-->"
  const OPEN := "<!--"
  const DEFAULT_SUMMARY := "transient infra" + "structure retry budget" + " exhausted"

  /** `_sanitize_summary`. */
  function SanitizeSummary(s: string): string
  {
    var neutral := Replace(Replace(Collapse(s), CLOSE, "--&gt;"), OPEN, "&lt;!--");
    var cut := if |neutral| > 500 then neutral[..500] else neutral;
    if cut == "" then DEFAULT_SUMMARY else cut
  }

  /** Where a replaced text starts like its original: `>` and `->` are never created at the front. */
  lemma FrontKept(s: string, from: string, to: string)
    requires from != "" && to != ""
    requires to[0] != '>' && (to[0] == '-' ==> |to| > 1 && to[1] != '>')
    ensures var r := Replace(s, from, to);
      (r != "" && r[0] == '>' ==> s != "" && s[0] == '>') && ("->" <= r ==> "->" <= s)
  {
    if s != "" && !(from <= s) {
      var r := Replace(s[1..], from, to);
      if "->" <= [s[0]] + r {
        assert ([s[0]] + r)[1] == '>';
        FrontKept(s[1..], from, to);
        assert s[1] == '>';
      }
    } else if s != "" {
      var r := to + Replace(s[|from|..], from, to);
      assert r[0] == to[0];
      assert |to| > 1 ==> r[1] == to[1];
    }
  }

  lemma {:induction false} CloseNeutralized(s: string)
    ensures !Contains(Replace(s, CLOSE, "--&gt;"), CLOSE)
    decreases |s|
  {
    var r := Replace(s, CLOSE, "--&gt;");
    if s == "" {
    } else if CLOSE <= s {
      CloseNeutralized(s[3..]);
      var p, rest := "--&gt;", Replace(s[3..], CLOSE, "--&gt;");
      forall k | 0 <= k < |p| ensures !(CLOSE <= p[k..] + rest) {
        assert (p[k..] + rest)[0] == p[k];
        assert k < 4 ==> (p[k..] + rest)[2] == p[k + 2];
      }
      PastPrefix(p, rest, CLOSE);
    } else {
      CloseNeutralized(s[1..]);
      var rest := Replace(s[1..], CLOSE, "--&gt;");
      assert r[1..] == rest;
      FrontKept(s[1..], CLOSE, "--&gt;");
    }
  }

  lemma {:induction false} OpenNeutralized(s: string)
    ensures !Contains(Replace(s, OPEN, "&lt;!--"), OPEN)
    decreases |s|
  {
    var r := Replace(s, OPEN, "&lt;!--");
    if s == "" {
    } else if OPEN <= s {
      OpenNeutralized(s[4..]);
      var p, rest := "&lt;!--", Replace(s[4..], OPEN, "&lt;!--");
      forall k | 0 <= k < |p| ensures !(OPEN <= p[k..] + rest) {
        assert (p[k..] + rest)[0] == p[k];
      }
      PastPrefix(p, rest, OPEN);
    } else {
      OpenNeutralized(s[1..]);
      var rest := Replace(s[1..], OPEN, "&lt;!--");
      assert r[1..] == rest;
      if OPEN <= r {
        assert rest[..3] == "!--" by { assert r[..4] == OPEN; }
        BangDashKept(s[1..], 3);
      }
    }
  }

  /** A front free of `&` was not produced by the replacement. */
  lemma {:induction false} BangDashKept(s: string, n: nat)
    requires n <= |Replace(s, OPEN, "&lt;!--")| && '&' !in Replace(s, OPEN, "&lt;!--")[..n]
    ensures n <= |s| && s[..n] == Replace(s, OPEN, "&lt;!--")[..n]
    decreases n
  {
    var r := Replace(s, OPEN, "&lt;!--");
    if n > 0 {
      assert r[..n][0] == r[0];
      var rest := Replace(s[1..], OPEN, "&lt;!--");
      assert r[1..] == rest && rest[..n - 1] == r[..n][1..];
      BangDashKept(s[1..], n - 1);
      assert s[..n] == [s[0]] + s[1..][..n - 1] && r[..n] == [r[0]] + rest[..n - 1];
    }
  }

  lemma {:induction false} OpenPassKeepsClosed(s: string)
    requires !Contains(s, CLOSE)
    ensures !Contains(Replace(s, OPEN, "&lt;!--"), CLOSE)
    decreases |s|
  {
    var r := Replace(s, OPEN, "&lt;!--");
    if s == "" {
    } else if OPEN <= s {
      SuffixHasNone(s, 4, CLOSE);
      OpenPassKeepsClosed(s[4..]);
      var p, rest := "&lt;!--", Replace(s[4..], OPEN, "&lt;!--");
      FrontKept(s[4..], OPEN, "&lt;!--");
      assert s[2] == '-' && s[3] == '-';
      SuffixHasNone(s, 2, CLOSE);
      SuffixHasNone(s, 3, CLOSE);
      forall k | 0 <= k < |p| ensures !(CLOSE <= p[k..] + rest) {
        var q := p[k..] + rest;
        assert q[0] == p[k];
      }
      PastPrefix(p, rest, CLOSE);
    } else {
      SuffixHasNone(s, 1, CLOSE);
      OpenPassKeepsClosed(s[1..]);
      var rest := Replace(s[1..], OPEN, "&lt;!--");
      assert r[1..] == rest;
      FrontKept(s[1..], OPEN, "&lt;!--");
    }
  }

  lemma DefaultSummaryIsSafe()
    ensures '<' !in DEFAULT_SUMMARY && '>' !in DEFAULT_SUMMARY
  {
    assert '<' !in "transient infra" && '<' !in "structure retry budget" && '<' !in " exhausted";
    assert '>' !in "transient infra" && '>' !in "structure retry budget" && '>' !in " exhausted";
  }

  /** No CI log, however hostile, can open or close an HTML comment through its summary. */
  lemma SummaryIsInert(s: string)
    ensures !Contains(SanitizeSummary(s), CLOSE) && !Contains(SanitizeSummary(s), OPEN)
  {
    var closed := Replace(Collapse(s), CLOSE, "--&gt;");
    var neutral := Replace(closed, OPEN, "&lt;!--");
    CloseNeutralized(Collapse(s));
    OpenPassKeepsClosed(closed);
    OpenNeutralized(closed);
    var r := SanitizeSummary(s);
    if r == DEFAULT_SUMMARY {
      DefaultSummaryIsSafe();
      NeedsChar(r, CLOSE, 2);
      NeedsChar(r, OPEN, 0);
    } else if |neutral| > 500 {
      PrefixHasNone(neutral, 500, CLOSE);
      PrefixHasNone(neutral, 500, OPEN);
    }
  }

  // ---- what the summary keeps ----

  lemma {:induction false} ReplaceBehind(p: string, rest: string, from: string, to: string)
    requires from != "" && forall k :: 0 <= k < |p| ==> !(from <= (p + (from + rest))[k..])
    ensures Replace(p + (from + rest), from, to) == p + (to + Replace(rest, from, to))
  {
    var s := p + (from + rest);
    if p == "" {
      assert s == from + rest && s[|from|..] == rest;
    } else {
      assert s[0..] == s && s[1..] == p[1..] + (from + rest);
      forall k | 0 <= k < |p[1..]| ensures !(from <= s[1..][k..]) { assert s[1..][k..] == s[k + 1..]; }
      ReplaceBehind(p[1..], rest, from, to);
      Text.Regroup([s[0]], p[1..], to + Replace(rest, from, to));
      assert [s[0]] + p[1..] == p;
    }
  }

  /** The first occurrence is replaced, and then the text behind it is treated alike. */
  lemma ReplaceFirst(s: string, n: nat, from: string, to: string)
    requires from != "" && n <= |s| && from <= s[n..] && forall k :: 0 <= k < n ==> !(from <= s[k..])
    ensures n + |from| <= |s| && Replace(s, from, to) == s[..n] + (to + Replace(s[n + |from|..], from, to))
  {
    assert s == s[..n] + (from + s[n + |from|..]);
    ReplaceBehind(s[..n], s[n + |from|..], from, to);
  }

  lemma {:induction false} ReplaceNone(s: string, from: string, to: string)
    requires from != "" && !Contains(s, from)
    ensures Replace(s, from, to) == s
  {
    if s != "" { ReplaceNone(s[1..], from, to); }
  }

  predicate IsWord(w: string)
  {
    w != "" && forall i :: 0 <= i < |w| ==> !Text.IsSpace(w[i])
  }

  /** Words, each with the blanks that follow it. */
  predicate Gapped(words: seq<string>, gaps: seq<string>)
  {
    |gaps| == |words| && (forall i :: 0 <= i < |words| ==> IsWord(words[i]) && Text.Blank(gaps[i])) &&
    forall i :: 0 <= i < |words| - 1 ==> gaps[i] != ""
  }

  function Spread(words: seq<string>, gaps: seq<string>): string
    requires |gaps| == |words|
  {
    if words == [] then "" else words[0] + (gaps[0] + Spread(words[1..], gaps[1..]))
  }

  function Spaced(words: seq<string>): string
  {
    if words == [] then "" else if |words| == 1 then words[0] else words[0] + " " + Spaced(words[1..])
  }

  lemma {:induction false} SkipBlank(b: string, rest: string)
    requires Text.Blank(b) && (rest != "" ==> !Text.IsSpace(rest[0]))
    ensures Skip(b + rest) == rest
  {
    if b == "" {
      assert b + rest == rest;
    } else {
      assert (b + rest)[1..] == b[1..] + rest;
      SkipBlank(b[1..], rest);
    }
  }

  lemma {:induction false} WordEnds(w: string, rest: string)
    requires (forall i :: 0 <= i < |w| ==> !Text.IsSpace(w[i])) && (rest != "" ==> Text.IsSpace(rest[0]))
    ensures WordLength(w + rest) == |w|
  {
    if w == "" {
      assert w + rest == rest;
    } else {
      assert (w + rest)[1..] == w[1..] + rest;
      WordEnds(w[1..], rest);
    }
  }

  /** However the words of a log are spaced, what is left is the words with one blank between. */
  lemma {:induction false} CollapseSpaces(lead: string, words: seq<string>, gaps: seq<string>)
    requires Text.Blank(lead) && Gapped(words, gaps)
    ensures Collapse(lead + Spread(words, gaps)) == Spaced(words)
    decreases |words|
  {
    var s, t := lead + Spread(words, gaps), Spread(words, gaps);
    SkipBlank(lead, t);
    if words != [] {
      var rest := Spread(words[1..], gaps[1..]);
      assert IsWord(words[0]);
      GapThenWord(words, gaps);
      WordEnds(words[0], gaps[0] + rest);
      assert t[|words[0]|..] == gaps[0] + rest && t[..|words[0]|] == words[0];
      SkipBlank(gaps[0], rest);
      CollapseSpaces("", words[1..], gaps[1..]);
      assert "" + rest == rest;
    }
  }

  lemma GapThenWord(words: seq<string>, gaps: seq<string>)
    requires Gapped(words, gaps) && words != []
    ensures Gapped(words[1..], gaps[1..])
    ensures var rest := Spread(words[1..], gaps[1..]);
      (rest != "" ==> |words| > 1 && !Text.IsSpace(rest[0])) && (rest == "" <==> |words| == 1) &&
      (gaps[0] + rest != "" ==> Text.IsSpace((gaps[0] + rest)[0]))
  {
    if |words| > 1 {
      assert IsWord(words[1..][0]);
      assert gaps[0] != "";
    }
  }

  /** Every text is words and gaps. */
  lemma {:induction false} EveryTextIsSpread(s: string) returns (lead: string, words: seq<string>, gaps: seq<string>)
    ensures Text.Blank(lead) && Gapped(words, gaps) && s == lead + Spread(words, gaps)
    decreases |s|
  {
    if s == "" {
      lead, words, gaps := "", [], [];
    } else {
      lead, words, gaps := EveryTextIsSpread(s[1..]);
      assert s == [s[0]] + s[1..];
      if Text.IsSpace(s[0]) {
        lead := [s[0]] + lead;
      } else if lead == "" && words != [] {
        words := [[s[0]] + words[0]] + words[1..];
      } else {
        words, gaps, lead := [[s[0]]] + words, [lead] + gaps, "";
      }
    }
  }

  /** The summary is the words of the log with one blank between, cut after 500 characters, when they hold no comment
      delimiter, and a standing text when there are none. */
  lemma SummaryKeepsWords(lead: string, words: seq<string>, gaps: seq<string>)
    requires Text.Blank(lead) && Gapped(words, gaps)
    ensures var text, summary := Spaced(words), SanitizeSummary(lead + Spread(words, gaps));
      && (words == [] ==> summary == "transient infra" + "structure retry budget" + " exhausted")
      && (words != [] && !Contains(text, "-->") && !Contains(text, "<!--") ==>
            summary == if |text| > 500 then text[..500] else text)
  {
    var text := Spaced(words);
    CollapseSpaces(lead, words, gaps);
    if words != [] {
      assert IsWord(words[0]);
      assert text != "" && words[0] <= text;
    }
    if !Contains(text, CLOSE) && !Contains(text, OPEN) {
      ReplaceNone(text, CLOSE, "--&gt;");
      ReplaceNone(text, OPEN, "&lt;!--");
    }
  }

  /** A delimiter is spelled out where it stood. */
  lemma DelimitersAreSpelledOut(a: string, b: string)
    requires forall k :: 0 <= k < |a| ==> !("-->" <= (a + "-->" + b)[k..])
    ensures Replace(a + "-->" + b, CLOSE, "--&gt;") == a + ("--&gt;" + Replace(b, CLOSE, "--&gt;"))
  {
    var s := a + "-->" + b;
    assert s[|a|..] == "-->" + b && s[..|a|] == a && s[|a| + 3..] == b;
    ReplaceFirst(s, |a|, CLOSE, "--&gt;");
  }
}
