/** harness.py: a manifest's normal form is one per class of reordered manifests, and is stable. */
module ManifestForm {
  import opened Sorting
  import opened Matching
  import opened Json
  import opened Manifest
  import Text

  // ---- sorting by text ----

  lemma {:induction false} TextsOfInsert(x: Json, items: seq<Json>, number: Number -> string)
    ensures Texts(Insert(x, items, ByText(number)), number) ==
            Insert(Canonical(x, number), Texts(items, number), Text.AtMost)
  {
    if items == [] || ByText(number)(x, items[0]) {
      assert ([x] + items)[1..] == items;
    } else {
      TextsOfInsert(x, items[1..], number);
      var rest := Insert(x, items[1..], ByText(number));
      assert ([items[0]] + rest)[1..] == rest;
    }
  }

  lemma {:induction false} TextsOfSort(items: seq<Json>, number: Number -> string)
    ensures Texts(Sort(items, ByText(number)), number) == Sort(Texts(items, number), Text.AtMost)
  {
    if items != [] {
      TextsOfSort(items[1..], number);
      TextsOfInsert(items[0], Sort(items[1..], ByText(number)), number);
    }
  }

  lemma SortedTextsUnique(a: seq<string>, b: seq<string>)
    requires multiset(a) == multiset(b)
    ensures Sort(a, Text.AtMost) == Sort(b, Text.AtMost)
  {
    Text.AtMostIsOrder();
    SortSorted(a, Text.AtMost);
    SortSorted(b, Text.AtMost);
    SortKeeps(a, Text.AtMost);
    SortKeeps(b, Text.AtMost);
    SortedUnique(Sort(a, Text.AtMost), Sort(b, Text.AtMost), Text.AtMost);
  }

  ghost predicate DistinctEntries(entries: seq<Entry>)
  {
    forall i, j :: 0 <= i < j < |entries| ==> entries[i].key != entries[j].key
  }

  lemma ByKeyIsOrder()
    ensures TotalPreorder(ByKey)
  {
    forall a: Entry, b: Entry ensures ByKey(a, b) || ByKey(b, a) { Text.AtMostTotal(a.key, b.key); }
    forall a: Entry, b: Entry, c: Entry | ByKey(a, b) && ByKey(b, c) ensures ByKey(a, c) {
      Text.AtMostTransitive(a.key, b.key, c.key);
    }
  }

  lemma SortedEntriesUnique(a: seq<Entry>, b: seq<Entry>)
    requires multiset(a) == multiset(b) && DistinctEntries(a)
    ensures Sort(a, ByKey) == Sort(b, ByKey)
  {
    ByKeyIsOrder();
    SortSorted(a, ByKey);
    SortSorted(b, ByKey);
    SortKeeps(a, ByKey);
    SortKeeps(b, ByKey);
    SortMembers(a, ByKey);
    var x := Sort(a, ByKey);
    forall d, e | d in x && e in x && ByKey(d, e) && ByKey(e, d) ensures d == e {
      Text.AtMostAntisymmetric(d.key, e.key);
      assert d in a && e in a;
    }
    SortedUnique(x, Sort(b, ByKey), ByKey);
  }

  lemma ObjectsWithSameEntries(v: Json, w: Json, number: Number -> string)
    requires v.Obj? && w.Obj? && DistinctKeys(v.fields)
    requires multiset(Entries(v.fields, number)) == multiset(Entries(w.fields, number))
    ensures Canonical(v, number) == Canonical(w, number)
  {
    var x, y := Entries(v.fields, number), Entries(w.fields, number);
    EntriesStayDistinct(v.fields, number);
    SortedEntriesUnique(x, y);
    CanonicalOfObject(v, number);
    CanonicalOfObject(w, number);
  }

  lemma EntriesStayDistinct(fields: seq<Field>, number: Number -> string)
    requires DistinctKeys(fields)
    ensures DistinctEntries(Entries(fields, number))
  {
  }

  lemma CanonicalOfObject(v: Json, number: Number -> string)
    requires v.Obj?
    ensures Canonical(v, number) == Enclosed('{', EntryTexts(Sort(Entries(v.fields, number), ByKey)), '}')
  {
  }

  // ---- reordered manifests have one canonical form ----

  /** Reordering set-marked arrays at any depth, and the members of any object, changes no canonical byte. */
  lemma {:induction false} ReorderedSameForm(a: Json, b: Json, schema: Schema, root: Root, number: Number -> string)
    requires Grounded(root) && Described(a, schema, root) && Described(b, schema, root)
    requires RendersNumbers(number) && Reorders(a, b, schema, root, number)
    ensures Canonical(Normalize(a, schema, root, number), number) == Canonical(Normalize(b, schema, root, number), number)
    decreases a, Hops(schema, root)
  {
    if schema.Ref? {
      ReorderedSameForm(a, b, root.defs[schema.name], root, number);
    } else if a.Obj? && b.Obj? {
      var p :| ReordersFields(a, b, schema, root, number, p);
      forall i | 0 <= i < |a.fields|
        ensures Canonical(Normalize(a.fields[i].value, schema.properties[a.fields[i].key], root, number), number) ==
                Canonical(Normalize(b.fields[p[i]].value, schema.properties[a.fields[i].key], root, number), number)
      {
        ReorderedSameForm(a.fields[i].value, b.fields[p[i]].value, schema.properties[a.fields[i].key], root, number);
      }
      var x := NormalizeFields(a.fields, schema.properties, root, number);
      var y := NormalizeFields(b.fields, schema.properties, root, number);
      MatchingKeeps(Entries(x, number), Entries(y, number), p);
      ObjectsWithSameEntries(Obj(x), Obj(y), number);
    } else if a.Arr? && b.Arr? && schema.isSet {
      var p :| ReordersItems(a, b, schema, root, number, p);
      forall i | 0 <= i < |a.items|
        ensures Canonical(Normalize(a.items[i], schema.items.value, root, number), number) ==
                Canonical(Normalize(b.items[p[i]], schema.items.value, root, number), number)
      {
        ReorderedSameForm(a.items[i], b.items[p[i]], schema.items.value, root, number);
      }
      var x := NormalizeItems(a.items, schema.items.value, root, number);
      var y := NormalizeItems(b.items, schema.items.value, root, number);
      MatchingKeeps(Texts(x, number), Texts(y, number), p);
      SortedTextsUnique(Texts(x, number), Texts(y, number));
      TextsOfSort(x, number);
      TextsOfSort(y, number);
    } else if a.Arr? && b.Arr? {
      forall i | 0 <= i < |a.items|
        ensures Canonical(Normalize(a.items[i], schema.items.value, root, number), number) ==
                Canonical(Normalize(b.items[i], schema.items.value, root, number), number)
      {
        ReorderedSameForm(a.items[i], b.items[i], schema.items.value, root, number);
      }
      var x := NormalizeItems(a.items, schema.items.value, root, number);
      var y := NormalizeItems(b.items, schema.items.value, root, number);
      assert Texts(x, number) == Texts(y, number);
    } else {
      KindsDiffer(a, b, number);
    }
  }

  /** Values of different kinds never share a canonical text. */
  lemma KindsDiffer(a: Json, b: Json, number: Number -> string)
    requires RendersNumbers(number) && Canonical(a, number) == Canonical(b, number)
    ensures (a.Obj? <==> b.Obj?) && (a.Arr? <==> b.Arr?)
  {
    if a.Num? { assert NumberChar(number(a.n)[0]); }
    if b.Num? { assert NumberChar(number(b.n)[0]); }
    assert Canonical(a, number)[0] == Canonical(b, number)[0];
  }

  // ---- one canonical form means reordered manifests ----

  /** Two manifests with one canonical normal form are reorderings of each other. */
  lemma {:induction false} SameFormReordered(a: Json, b: Json, schema: Schema, root: Root, number: Number -> string)
    requires Grounded(root) && Described(a, schema, root) && Described(b, schema, root) && RendersNumbers(number)
    requires Canonical(Normalize(a, schema, root, number), number) == Canonical(Normalize(b, schema, root, number), number)
    ensures Reorders(a, b, schema, root, number)
    decreases a, Hops(schema, root), 1
  {
    if schema.Ref? {
      SameFormReordered(a, b, root.defs[schema.name], root, number);
    } else {
      KindsDiffer(Normalize(a, schema, root, number), Normalize(b, schema, root, number), number);
      if a.Obj? {
        SameFormObjects(a, b, schema, root, number);
      } else if a.Arr? {
        SameFormArrays(a, b, schema, root, number);
      }
    }
  }

  lemma {:induction false} SameFormObjects(a: Json, b: Json, schema: Schema, root: Root, number: Number -> string)
    requires Grounded(root) && Described(a, schema, root) && Described(b, schema, root) && RendersNumbers(number)
    requires schema.Node? && a.Obj? && b.Obj?
    requires Canonical(Normalize(a, schema, root, number), number) == Canonical(Normalize(b, schema, root, number), number)
    ensures Reorders(a, b, schema, root, number)
    decreases a, 0, 0
  {
    var na, nb := Normalize(a, schema, root, number), Normalize(b, schema, root, number);
    ObjectsApart(na, nb, number);
    var x, y := Entries(na.fields, number), Entries(nb.fields, number);
    var p := FindMatching(x, y);
    forall i | 0 <= i < |a.fields|
      ensures a.fields[i].key == b.fields[p[i]].key
      ensures Reorders(a.fields[i].value, b.fields[p[i]].value, schema.properties[a.fields[i].key], root, number)
    {
      assert x[i] == y[p[i]];
      SameFormReordered(a.fields[i].value, b.fields[p[i]].value, schema.properties[a.fields[i].key], root, number);
    }
    assert ReordersFields(a, b, schema, root, number, p);
  }

  lemma {:induction false} SameFormArrays(a: Json, b: Json, schema: Schema, root: Root, number: Number -> string)
    requires Grounded(root) && Described(a, schema, root) && Described(b, schema, root) && RendersNumbers(number)
    requires schema.Node? && a.Arr? && b.Arr?
    requires Canonical(Normalize(a, schema, root, number), number) == Canonical(Normalize(b, schema, root, number), number)
    ensures Reorders(a, b, schema, root, number)
    decreases a, 0, 0
  {
    ArraysApart(Normalize(a, schema, root, number), Normalize(b, schema, root, number), number);
    var x := NormalizeItems(a.items, schema.items.value, root, number);
    var y := NormalizeItems(b.items, schema.items.value, root, number);
    if schema.isSet {
      SortedTextsMatch(x, y, number);
      var p := FindMatching(Texts(x, number), Texts(y, number));
      forall i | 0 <= i < |a.items|
        ensures Reorders(a.items[i], b.items[p[i]], schema.items.value, root, number)
      {
        assert Texts(x, number)[i] == Texts(y, number)[p[i]];
        SameFormReordered(a.items[i], b.items[p[i]], schema.items.value, root, number);
      }
      assert ReordersItems(a, b, schema, root, number, p);
    } else {
      assert |x| == |Texts(x, number)| && |y| == |Texts(y, number)|;
      forall i | 0 <= i < |a.items|
        ensures Reorders(a.items[i], b.items[i], schema.items.value, root, number)
      {
        assert Texts(x, number)[i] == Texts(y, number)[i];
        SameFormReordered(a.items[i], b.items[i], schema.items.value, root, number);
      }
    }
  }

  lemma SortedTextsMatch(x: seq<Json>, y: seq<Json>, number: Number -> string)
    requires Texts(Sort(x, ByText(number)), number) == Texts(Sort(y, ByText(number)), number)
    ensures multiset(Texts(x, number)) == multiset(Texts(y, number)) && |x| == |y|
  {
    TextsOfSort(x, number);
    TextsOfSort(y, number);
    SortKeeps(Texts(x, number), Text.AtMost);
    SortKeeps(Texts(y, number), Text.AtMost);
  }

  /** The digest is taken of bytes that agree exactly for manifests that differ only in order. */
  lemma FormIsOrderClass(a: Json, b: Json, schema: Schema, root: Root, number: Number -> string)
    requires Grounded(root) && Described(a, schema, root) && Described(b, schema, root) && RendersNumbers(number)
    ensures Reorders(a, b, schema, root, number) <==>
            Canonical(Normalize(a, schema, root, number), number) == Canonical(Normalize(b, schema, root, number), number)
  {
    if Reorders(a, b, schema, root, number) {
      ReorderedSameForm(a, b, schema, root, number);
    }
    if Canonical(Normalize(a, schema, root, number), number) == Canonical(Normalize(b, schema, root, number), number) {
      SameFormReordered(a, b, schema, root, number);
    }
  }

  // ---- stability ----

  /** Equal canonical bytes, however they were parsed, are at most a reordering. */
  lemma {:induction false} SameTextReordered(a: Json, b: Json, schema: Schema, root: Root, number: Number -> string)
    requires Grounded(root) && Described(a, schema, root) && Described(b, schema, root) && RendersNumbers(number)
    requires Canonical(a, number) == Canonical(b, number)
    ensures Reorders(a, b, schema, root, number)
    decreases a, Hops(schema, root)
  {
    KindsDiffer(a, b, number);
    if schema.Ref? {
      SameTextReordered(a, b, root.defs[schema.name], root, number);
    } else if a.Obj? {
      ObjectsApart(a, b, number);
      var x, y := Entries(a.fields, number), Entries(b.fields, number);
      var p := FindMatching(x, y);
      forall i | 0 <= i < |a.fields|
        ensures a.fields[i].key == b.fields[p[i]].key
        ensures Reorders(a.fields[i].value, b.fields[p[i]].value, schema.properties[a.fields[i].key], root, number)
      {
        assert x[i] == y[p[i]];
        SameTextReordered(a.fields[i].value, b.fields[p[i]].value, schema.properties[a.fields[i].key], root, number);
      }
      assert ReordersFields(a, b, schema, root, number, p);
    } else if a.Arr? {
      ArraysApart(a, b, number);
      assert |a.items| == |Texts(a.items, number)| && |b.items| == |Texts(b.items, number)|;
      forall i | 0 <= i < |a.items| ensures Reorders(a.items[i], b.items[i], schema.items.value, root, number) {
        assert Texts(a.items, number)[i] == Texts(b.items, number)[i];
        SameTextReordered(a.items[i], b.items[i], schema.items.value, root, number);
      }
      if schema.isSet {
        var p := IdentityMatches(a.items);
        assert ReordersItems(a, b, schema, root, number, p);
      }
    }
  }

  /** Normalising twice is normalising once, on the value itself. */
  lemma {:induction false} NormalizeIdempotent(v: Json, schema: Schema, root: Root, number: Number -> string)
    requires Grounded(root) && Described(v, schema, root)
    ensures var n := Normalize(v, schema, root, number);
      Described(n, schema, root) && Normalize(n, schema, root, number) == n
    decreases v, Hops(schema, root)
  {
    var n := Normalize(v, schema, root, number);
    if schema.Ref? {
      NormalizeIdempotent(v, root.defs[schema.name], root, number);
    } else if v.Obj? {
      forall i | 0 <= i < |v.fields|
        ensures n.fields[i].key in schema.properties
        ensures Described(n.fields[i].value, schema.properties[n.fields[i].key], root)
        ensures Normalize(n.fields[i].value, schema.properties[n.fields[i].key], root, number) == n.fields[i].value
      {
        NormalizeIdempotent(v.fields[i].value, schema.properties[v.fields[i].key], root, number);
      }
      assert NormalizeFields(n.fields, schema.properties, root, number) == n.fields;
    } else if v.Arr? {
      var once := NormalizeItems(v.items, schema.items.value, root, number);
      SortMembers(once, ByText(number));
      forall i | 0 <= i < |n.items|
        ensures Described(n.items[i], schema.items.value, root)
        ensures Normalize(n.items[i], schema.items.value, root, number) == n.items[i]
      {
        assert n.items[i] in once;
        var k :| 0 <= k < |once| && once[k] == n.items[i];
        NormalizeIdempotent(v.items[k], schema.items.value, root, number);
      }
      assert NormalizeItems(n.items, schema.items.value, root, number) == n.items;
      ByTextIsOrder(number);
      SortSorted(once, ByText(number));
      if schema.isSet { SortOfSorted(n.items, ByText(number)); }
    }
  }

  lemma ByTextIsOrder(number: Number -> string)
    ensures TotalPreorder(ByText(number))
  {
    forall a: Json, b: Json ensures ByText(number)(a, b) || ByText(number)(b, a) {
      Text.AtMostTotal(Canonical(a, number), Canonical(b, number));
    }
    forall a: Json, b: Json, c: Json | ByText(number)(a, b) && ByText(number)(b, c) ensures ByText(number)(a, c) {
      Text.AtMostTransitive(Canonical(a, number), Canonical(b, number), Canonical(c, number));
    }
  }

  /** What a schema says of a value it says of every value with the same canonical bytes. */
  lemma {:induction false} SameTextDescribed(a: Json, b: Json, schema: Schema, root: Root, number: Number -> string)
    requires Grounded(root) && Described(b, schema, root) && RendersNumbers(number)
    requires Canonical(a, number) == Canonical(b, number)
    ensures Described(a, schema, root)
    decreases a, Hops(schema, root), 1
  {
    KindsDiffer(a, b, number);
    if schema.Ref? {
      SameTextDescribed(a, b, root.defs[schema.name], root, number);
    } else if a.Obj? {
      SameTextMembersDescribed(a, b, schema, root, number);
    } else if a.Arr? {
      ArraysApart(a, b, number);
      assert |a.items| == |Texts(a.items, number)| && |b.items| == |Texts(b.items, number)|;
      forall i | 0 <= i < |a.items| ensures Described(a.items[i], schema.items.value, root) {
        assert Texts(a.items, number)[i] == Texts(b.items, number)[i];
        SameTextDescribed(a.items[i], b.items[i], schema.items.value, root, number);
      }
    }
  }

  lemma {:induction false} SameTextMembersDescribed(a: Json, b: Json, schema: Schema, root: Root, number: Number -> string)
    requires Grounded(root) && Described(b, schema, root) && RendersNumbers(number)
    requires schema.Node? && a.Obj? && b.Obj? && Canonical(a, number) == Canonical(b, number)
    ensures Described(a, schema, root)
    decreases a, 0, 0
  {
    ObjectsApart(a, b, number);
    var x, y := Entries(a.fields, number), Entries(b.fields, number);
    var p := FindMatching(x, y);
    assert forall i :: 0 <= i < |a.fields| ==> x[i] == y[p[i]];
    forall i | 0 <= i < |a.fields|
      ensures a.fields[i].key in schema.properties
      ensures Described(a.fields[i].value, schema.properties[a.fields[i].key], root)
    {
      assert x[i].key == a.fields[i].key == b.fields[p[i]].key;
      SameTextDescribed(a.fields[i].value, b.fields[p[i]].value, schema.properties[a.fields[i].key], root, number);
    }
    KeysStayDistinct(a.fields, b.fields, p);
  }

  lemma KeysStayDistinct(a: seq<Field>, b: seq<Field>, p: seq<nat>)
    requires DistinctKeys(b) && |a| == |b| && Permutes(p, |a|)
    requires forall i :: 0 <= i < |a| ==> a[i].key == b[p[i]].key
    ensures DistinctKeys(a)
  {
    forall i, j | 0 <= i < j < |a| ensures a[i].key != a[j].key {
      assert p[i] != p[j];
    }
  }

  /** `HarnessManifest(manifest.canonical_bytes)` is the same manifest: whatever those bytes are parsed to, the
      members in any order, is normalised back to the same bytes. */
  lemma RewrapIsIdentity(v: Json, parsed: Json, schema: Schema, root: Root, number: Number -> string)
    requires Grounded(root) && Described(v, schema, root) && RendersNumbers(number)
    requires Canonical(parsed, number) == Canonical(Normalize(v, schema, root, number), number)
    ensures Described(parsed, schema, root)
    ensures Canonical(Normalize(parsed, schema, root, number), number) == Canonical(parsed, number)
  {
    NormalizeIdempotent(v, schema, root, number);
    var n := Normalize(v, schema, root, number);
    SameTextDescribed(parsed, n, schema, root, number);
    SameTextReordered(parsed, n, schema, root, number);
    ReorderedSameForm(parsed, n, schema, root, number);
  }

  /** Normalising leaves the bounded JSON domain neither entered nor left. */
  lemma {:induction false} NormalizeKeepsDomain(v: Json, schema: Schema, root: Root, number: Number -> string,
                                                depth: nat, encodable: string -> bool)
    requires Grounded(root) && Described(v, schema, root)
    ensures InDomain(Normalize(v, schema, root, number), depth, encodable) <==> InDomain(v, depth, encodable)
    decreases v, Hops(schema, root)
  {
    var n := Normalize(v, schema, root, number);
    if schema.Ref? {
      NormalizeKeepsDomain(v, root.defs[schema.name], root, number, depth, encodable);
    } else if v.Obj? {
      forall i | 0 <= i < |v.fields|
        ensures InDomain(n.fields[i].value, depth + 1, encodable) <==> InDomain(v.fields[i].value, depth + 1, encodable)
      {
        NormalizeKeepsDomain(v.fields[i].value, schema.properties[v.fields[i].key], root, number, depth + 1, encodable);
      }
    } else if v.Arr? {
      var once := NormalizeItems(v.items, schema.items.value, root, number);
      forall i | 0 <= i < |v.items|
        ensures InDomain(once[i], depth + 1, encodable) <==> InDomain(v.items[i], depth + 1, encodable)
      {
        NormalizeKeepsDomain(v.items[i], schema.items.value, root, number, depth + 1, encodable);
      }
      ItemsKeepDomain(once, n.items, schema.isSet, number, depth + 1, encodable);
    }
  }

  lemma ItemsKeepDomain(once: seq<Json>, items: seq<Json>, isSet: bool, number: Number -> string,
                        depth: nat, encodable: string -> bool)
    requires items == if isSet then Sort(once, ByText(number)) else once
    ensures (forall i :: 0 <= i < |items| ==> InDomain(items[i], depth, encodable)) <==>
            (forall i :: 0 <= i < |once| ==> InDomain(once[i], depth, encodable))
  {
    SortMembers(once, ByText(number));
    assert forall i :: 0 <= i < |items| ==> items[i] in once;
    assert forall i :: 0 <= i < |once| ==> once[i] in items;
  }

  /** A part of an accepted document is accepted on its own, so `canonical_json` as a sort key never refuses one. */
  lemma {:induction false} PartsStayInDomain(v: Json, depth: nat, shallower: nat, encodable: string -> bool)
    requires InDomain(v, depth, encodable) && shallower <= depth
    ensures InDomain(v, shallower, encodable)
    decreases v
  {
    if v.Arr? {
      forall i | 0 <= i < |v.items| ensures InDomain(v.items[i], shallower + 1, encodable) {
        PartsStayInDomain(v.items[i], depth + 1, shallower + 1, encodable);
      }
    } else if v.Obj? {
      forall i | 0 <= i < |v.fields| ensures InDomain(v.fields[i].value, shallower + 1, encodable) {
        PartsStayInDomain(v.fields[i].value, depth + 1, shallower + 1, encodable);
      }
    }
  }

  // ---- the order of members ----

  /** An object's text lists every member once, by rising key. */
  lemma MembersRise(v: Json, number: Number -> string) returns (entries: seq<Entry>)
    requires v.Obj?
    ensures Canonical(v, number) == Enclosed('{', EntryTexts(entries), '}')
    ensures multiset(entries) == multiset(Entries(v.fields, number))
    ensures forall i, j :: 0 <= i < j < |entries| ==> Text.AtMost(entries[i].key, entries[j].key)
  {
    entries := Sort(Entries(v.fields, number), ByKey);
    ByKeyIsOrder();
    SortSorted(Entries(v.fields, number), ByKey);
    SortKeeps(Entries(v.fields, number), ByKey);
    forall i, j | 0 <= i < j < |entries| ensures Text.AtMost(entries[i].key, entries[j].key) {
      assert ByKey(entries[i], entries[j]);
    }
  }

  /** A set-marked array is normalised to its items' normal forms by rising canonical text, and any other array keeps
      its order. */
  lemma SetsRise(v: Json, schema: Schema, root: Root, number: Number -> string)
    requires Grounded(root) && schema.Node? && v.Arr? && Described(v, schema, root)
    ensures var normal, items := Normalize(v, schema, root, number), NormalizeItems(v.items, schema.items.value, root, number);
      && normal.Arr? && multiset(normal.items) == multiset(items)
      && (!schema.isSet ==> normal.items == items)
      && (schema.isSet ==> forall i, j :: 0 <= i < j < |normal.items| ==>
            Text.AtMost(Canonical(normal.items[i], number), Canonical(normal.items[j], number)))
  {
    var items := NormalizeItems(v.items, schema.items.value, root, number);
    ByTextIsOrder(number);
    SortSorted(items, ByText(number));
    SortKeeps(items, ByText(number));
    if schema.isSet {
      var normal := Normalize(v, schema, root, number).items;
      forall i, j | 0 <= i < j < |normal| ensures Text.AtMost(Canonical(normal[i], number), Canonical(normal[j], number)) {
        assert ByText(number)(normal[i], normal[j]);
      }
    }
  }
}
