/** The one property asked of the fingerprint's digest can be met: a spelled-out identity has it. */
module DigestWitness {
  import opened Options
  import opened Dispatch
  import Text

  /** Colons and the marks of this spelling are escaped. */
  function EscapeOne(c: char): (e: string)
    ensures e != [] && ':' !in e && e[0] != ';'
  {
    if c == ':' then ['\\', 'c'] else if c == ';' then ['\\', 's'] else if c == '\\' then ['\\', 'b'] else [c]
  }

  function Spell(s: string): (out: string)
    ensures out != []
  {
    if s == [] then [';'] else EscapeOne(s[0]) + Spell(s[1..])
  }

  function SpellAll(texts: seq<string>): (out: string)
    ensures out != []
  {
    if texts == [] then [';'] else [','] + (Spell(texts[0]) + SpellAll(texts[1..]))
  }

  function SpellNumber(n: Option<int>): string
  {
    match n
    case None => ""
    case Some(i) => if i < 0 then ['-'] + Text.Decimal(-i) else Text.Decimal(i)
  }

  function SpellIdentity(i: Identity): string
  {
    Spell(i.provider) + (Spell(i.kind) + (Spell(i.action) + (Spell(i.repository) +
      (Spell(SpellNumber(i.number)) + (Spell(i.title) + SpellAll(i.labels))))))
  }

  lemma EscapeOneUnique(c: char, d: char, more: string, other: string)
    requires EscapeOne(c) + more == EscapeOne(d) + other && more != [] && other != []
    ensures c == d && more == other
  {
    var whole := EscapeOne(c) + more;
    assert whole[0] == EscapeOne(c)[0] == EscapeOne(d)[0];
    assert |EscapeOne(c)| == |EscapeOne(d)|;
    Text.SuffixUnique(EscapeOne(c), more, EscapeOne(d), other) by {
      assert |more| == |whole| - |EscapeOne(c)|;
    }
  }

  /** A spelled text ends where it ends, whatever follows. */
  lemma {:induction false} SpellUnique(s: string, t: string, r: string, u: string)
    requires Spell(s) + r == Spell(t) + u
    ensures s == t && r == u
  {
    assert (Spell(s) + r)[0] == Spell(s)[0] && (Spell(t) + u)[0] == Spell(t)[0];
    if s == [] {
      assert t == [];
      Text.SamePrefix([';'], r, u);
    } else {
      assert t != [];
      Text.Regroup(EscapeOne(s[0]), Spell(s[1..]), r);
      Text.Regroup(EscapeOne(t[0]), Spell(t[1..]), u);
      EscapeOneUnique(s[0], t[0], Spell(s[1..]) + r, Spell(t[1..]) + u);
      SpellUnique(s[1..], t[1..], r, u);
      assert s == [s[0]] + s[1..] && t == [t[0]] + t[1..];
    }
  }

  lemma {:induction false} SpellAllUnique(a: seq<string>, b: seq<string>)
    requires SpellAll(a) == SpellAll(b)
    ensures a == b
  {
    assert SpellAll(a)[0] == if a == [] then ';' else ',';
    assert SpellAll(b)[0] == if b == [] then ';' else ',';
    if a != [] {
      Text.SamePrefix([','], Spell(a[0]) + SpellAll(a[1..]), Spell(b[0]) + SpellAll(b[1..]));
      SpellUnique(a[0], b[0], SpellAll(a[1..]), SpellAll(b[1..]));
      SpellAllUnique(a[1..], b[1..]);
      assert a == [a[0]] + a[1..] && b == [b[0]] + b[1..];
    }
  }

  lemma SpellNumberUnique(a: Option<int>, b: Option<int>)
    requires SpellNumber(a) == SpellNumber(b)
    ensures a == b
  {
    if a.Some? && b.Some? {
      var m := if a.value < 0 then -a.value else a.value;
      var n := if b.value < 0 then -b.value else b.value;
      assert Text.IsDigit(Text.Decimal(m)[0]) && Text.IsDigit(Text.Decimal(n)[0]);
      if a.value < 0 { Text.SamePrefix(['-'], Text.Decimal(m), Text.Decimal(n)); }
      Text.DecimalInjective(m, n);
    }
  }

  lemma SpellIdentityUnique(a: Identity, b: Identity)
    requires SpellIdentity(a) == SpellIdentity(b)
    ensures a == b
  {
    var title, title' := Spell(a.title) + SpellAll(a.labels), Spell(b.title) + SpellAll(b.labels);
    var number, number' := Spell(SpellNumber(a.number)) + title, Spell(SpellNumber(b.number)) + title';
    var place, place' := Spell(a.repository) + number, Spell(b.repository) + number';
    var action, action' := Spell(a.action) + place, Spell(b.action) + place';
    SpellUnique(a.provider, b.provider, Spell(a.kind) + action, Spell(b.kind) + action');
    SpellUnique(a.kind, b.kind, action, action');
    SpellUnique(a.action, b.action, place, place');
    SpellUnique(a.repository, b.repository, number, number');
    SpellUnique(SpellNumber(a.number), SpellNumber(b.number), title, title');
    SpellUnique(a.title, b.title, SpellAll(a.labels), SpellAll(b.labels));
    SpellNumberUnique(a.number, b.number);
    SpellAllUnique(a.labels, b.labels);
  }

  lemma {:induction false} SpellHasNoColon(s: string)
    ensures ':' !in Spell(s)
  {
    if s != [] { SpellHasNoColon(s[1..]); }
  }

  lemma {:induction false} SpellAllHasNoColon(texts: seq<string>)
    ensures ':' !in SpellAll(texts)
  {
    if texts != [] {
      SpellHasNoColon(texts[0]);
      SpellAllHasNoColon(texts[1..]);
    }
  }

  lemma IdentityHasNoColon(i: Identity)
    ensures ':' !in SpellIdentity(i)
  {
    SpellHasNoColon(i.provider);
    SpellHasNoColon(i.kind);
    SpellHasNoColon(i.action);
    SpellHasNoColon(i.repository);
    SpellHasNoColon(SpellNumber(i.number));
    SpellHasNoColon(i.title);
    SpellAllHasNoColon(i.labels);
  }

  /** What is asked of the digest is met by some digest. */
  lemma DigestsCanBeMet()
    ensures Digests(SpellIdentity)
  {
    forall a, b | SpellIdentity(a) == SpellIdentity(b) ensures a == b { SpellIdentityUnique(a, b); }
    forall a ensures ':' !in SpellIdentity(a) { IdentityHasNoColon(a); }
  }
}
