/** control_center.py: parent chains checked, then the epic/story/task forest built from them. */
module Backlog {
  import opened Sorting

  const MAX_DEPTH := 32

  datatype Item = Item(provider: string, id: string, parent: string, rest: string)

  type ById = map<string, Item>

  // ---- parent chains ----

  predicate Stops(byId: ById, id: string)
  {
    id == "" || id !in byId
  }

  /** The chain from `id` leaves the backlog after at most `n` items. */
  ghost predicate EndsWithin(byId: ById, id: string, n: nat)
    requires id in byId
    decreases n
  {
    n >= 1 && (Stops(byId, byId[id].parent) || EndsWithin(byId, byId[id].parent, n - 1))
  }

  /** `y` is the ancestor of `x` `m` steps up. */
  ghost predicate Above(byId: ById, x: string, y: string, m: nat)
    requires x in byId
    decreases m
  {
    if m == 0 then x == y else !Stops(byId, byId[x].parent) && Above(byId, byId[x].parent, y, m - 1)
  }

  lemma {:induction false} AboveEnds(byId: ById, x: string, y: string, m: nat, n: nat)
    requires x in byId && Above(byId, x, y, m) && EndsWithin(byId, x, n)
    ensures y in byId && m < n && EndsWithin(byId, y, n - m)
    decreases m
  {
    if m > 0 { AboveEnds(byId, byId[x].parent, y, m - 1, n - 1); }
  }

  lemma {:induction false} AboveNext(byId: ById, x: string, y: string, m: nat)
    requires x in byId && y in byId && Above(byId, x, y, m) && !Stops(byId, byId[y].parent)
    ensures Above(byId, x, byId[y].parent, m + 1)
    decreases m
  {
    if m > 0 { AboveNext(byId, byId[x].parent, y, m - 1); }
  }

  /** A chain that meets itself never ends. */
  lemma {:induction false} LoopNeverEnds(byId: ById, x: string, m: nat, n: nat)
    requires x in byId && m >= 1 && Above(byId, x, x, m)
    ensures !EndsWithin(byId, x, n)
    decreases n
  {
    if EndsWithin(byId, x, n) {
      AboveEnds(byId, x, x, m, n);
      LoopNeverEnds(byId, x, m, n - m);
    }
  }

  ghost predicate Reaches(byId: ById, x: string, y: string)
  {
    x in byId && exists m: nat :: Above(byId, x, y, m)
  }

  /** One item's walk of `_detect_backlog_cycles`. */
  method ChainAccepted(byId: ById, id: string) returns (ok: bool)
    requires id in byId
    ensures ok <==> EndsWithin(byId, id, 32)
  {
    var seen := {id};
    var cursor := byId[id].parent;
    var depth := 1;
    ghost var below := id;
    assert Above(byId, id, id, 0);
    while !Stops(byId, cursor)
      invariant 1 <= depth <= MAX_DEPTH && id in seen
      invariant below in byId && cursor == byId[below].parent
      invariant Above(byId, id, below, depth - 1)
      invariant forall x :: x in seen ==> Reaches(byId, x, below)
      invariant EndsWithin(byId, id, MAX_DEPTH) <==>
                Stops(byId, cursor) || (MAX_DEPTH - depth >= 1 && EndsWithin(byId, cursor, MAX_DEPTH - depth))
      decreases MAX_DEPTH - depth
    {
      forall x | x in seen ensures exists m: nat :: m >= 1 && Above(byId, x, cursor, m) {
        var m: nat :| Above(byId, x, below, m);
        AboveNext(byId, x, below, m);
      }
      if cursor in seen {
        ghost var m: nat :| m >= 1 && Above(byId, cursor, cursor, m);
        LoopNeverEnds(byId, cursor, m, MAX_DEPTH - depth);
        return false;
      }
      depth := depth + 1;
      if depth > MAX_DEPTH {
        return false;
      }
      AboveNext(byId, id, below, depth - 2);
      forall x | x in seen ensures Reaches(byId, x, cursor) {
        var m: nat :| m >= 1 && Above(byId, x, cursor, m);
      }
      assert Above(byId, cursor, cursor, 0);
      below := cursor;
      seen := seen + {cursor};
      cursor := byId[cursor].parent;
    }
    ok := true;
  }

  /** `_detect_backlog_cycles`. */
  method DetectCycles(byId: ById) returns (ok: bool)
    ensures ok <==> forall id :: id in byId ==> EndsWithin(byId, id, 32)
  {
    var left := byId.Keys;
    while left != {}
      invariant left <= byId.Keys
      invariant forall id :: id in byId && id !in left ==> EndsWithin(byId, id, MAX_DEPTH)
      decreases |left|
    {
      var id :| id in left;
      var one := ChainAccepted(byId, id);
      if !one {
        return false;
      }
      left := left - {id};
    }
    ok := true;
  }

  // ---- one project's items, scoped by provider ----

  function Scoped(items: seq<Item>, provider: string): ById
  {
    if items == [] then map[]
    else
      var last := items[|items| - 1];
      if last.provider == provider then Scoped(items[..|items| - 1], provider)[last.id := last]
      else Scoped(items[..|items| - 1], provider)
  }

  /** What the snapshot checks before it builds a tree: one item per provider and id. */
  ghost predicate UniqueIds(items: seq<Item>)
  {
    forall i, j :: 0 <= i < j < |items| ==> items[i].provider != items[j].provider || items[i].id != items[j].id
  }

  lemma {:induction false} ScopedMeans(items: seq<Item>, provider: string)
    requires UniqueIds(items)
    ensures forall x :: x in items && x.provider == provider ==> x.id in Scoped(items, provider) && Scoped(items, provider)[x.id] == x
    ensures forall id :: id in Scoped(items, provider) ==>
      Scoped(items, provider)[id] in items && Scoped(items, provider)[id].provider == provider && Scoped(items, provider)[id].id == id
  {
    if items != [] {
      var init, last := items[..|items| - 1], items[|items| - 1];
      assert items == init + [last];
      ScopedMeans(init, provider);
      forall x | x in init ensures x.provider != last.provider || x.id != last.id {
        var i :| 0 <= i < |init| && init[i] == x;
        assert items[i] == x && items[|items| - 1] == last;
      }
    }
  }

  ghost predicate Grounded(items: seq<Item>, x: Item)
  {
    x.id in Scoped(items, x.provider) && EndsWithin(Scoped(items, x.provider), x.id, MAX_DEPTH)
  }

  ghost predicate Accepted(items: seq<Item>)
  {
    UniqueIds(items) && forall x {:trigger Grounded(items, x)} :: x in items ==> Grounded(items, x)
  }

  function Providers(items: seq<Item>): set<string>
  {
    set x | x in items :: x.provider
  }

  /** The provider-scoped check the snapshot runs on one project. */
  method CheckBacklog(items: seq<Item>) returns (ok: bool)
    requires UniqueIds(items)
    ensures ok <==> Accepted(items)
  {
    var left := Providers(items);
    while left != {}
      invariant left <= Providers(items)
      invariant forall p :: p in Providers(items) && p !in left ==>
        forall id :: id in Scoped(items, p) ==> EndsWithin(Scoped(items, p), id, MAX_DEPTH)
      decreases |left|
    {
      var p :| p in left;
      var one := DetectCycles(Scoped(items, p));
      if !one {
        ghost var id :| id in Scoped(items, p) && !EndsWithin(Scoped(items, p), id, MAX_DEPTH);
        ScopedMeans(items, p);
        assert Scoped(items, p)[id] in items && !Grounded(items, Scoped(items, p)[id]);
        return false;
      }
      left := left - {p};
    }
    forall x | x in items ensures Grounded(items, x) {
      ScopedMeans(items, x.provider);
      assert x.provider in Providers(items);
    }
    ok := true;
  }

  // ---- depth ----

  ghost function ChainLength(byId: ById, id: string, n: nat): (d: nat)
    requires id in byId && EndsWithin(byId, id, n)
    ensures 1 <= d <= n
    decreases n
  {
    if Stops(byId, byId[id].parent) then 1 else 1 + ChainLength(byId, byId[id].parent, n - 1)
  }

  lemma {:induction false} ChainLengthSame(byId: ById, id: string, m: nat, n: nat)
    requires id in byId && EndsWithin(byId, id, m) && EndsWithin(byId, id, n)
    ensures ChainLength(byId, id, m) == ChainLength(byId, id, n)
    decreases m
  {
    if !Stops(byId, byId[id].parent) { ChainLengthSame(byId, byId[id].parent, m - 1, n - 1); }
  }

  ghost function Depth(items: seq<Item>, x: Item): (d: nat)
    requires Accepted(items) && x in items
    ensures 1 <= d <= MAX_DEPTH
  {
    assert Grounded(items, x);
    ChainLength(Scoped(items, x.provider), x.id, MAX_DEPTH)
  }

  predicate HasParent(items: seq<Item>, x: Item)
  {
    x.parent != "" && exists y :: y in items && y.provider == x.provider && y.id == x.parent
  }

  predicate IsChild(c: Item, x: Item)
  {
    c.parent != "" && c.provider == x.provider && c.parent == x.id
  }

  function ChildrenOf(items: seq<Item>, x: Item): seq<Item>
  {
    Filter(items, (c: Item) => IsChild(c, x))
  }

  function Roots(items: seq<Item>): seq<Item>
  {
    Filter(items, (x: Item) => !HasParent(items, x))
  }

  lemma DepthOfRoot(items: seq<Item>, x: Item)
    requires Accepted(items) && x in items
    ensures Depth(items, x) == 1 <==> !HasParent(items, x)
  {
    ScopedMeans(items, x.provider);
  }

  lemma DepthOfChild(items: seq<Item>, c: Item, x: Item)
    requires Accepted(items) && c in items && x in items && IsChild(c, x)
    ensures Depth(items, c) == Depth(items, x) + 1
  {
    var byId := Scoped(items, x.provider);
    assert Grounded(items, x) && Grounded(items, c);
    ScopedMeans(items, x.provider);
    assert byId[c.id] == c && byId[x.id] == x;
    ChainLengthSame(byId, x.id, MAX_DEPTH - 1, MAX_DEPTH);
  }

  lemma ParentExists(items: seq<Item>, c: Item)
    requires Accepted(items) && c in items && Depth(items, c) > 1
    ensures exists x :: x in items && IsChild(c, x) && Depth(items, x) == Depth(items, c) - 1
  {
    DepthOfRoot(items, c);
    var x :| x in items && x.provider == c.provider && x.id == c.parent;
    DepthOfChild(items, c, x);
  }

  // ---- the forest ----

  datatype Node = Node(item: Item, parentMissing: bool, children: seq<Node>)

  ghost predicate AtDepth(items: seq<Item>, xs: seq<Item>, d: nat)
  {
    Accepted(items) && forall x :: x in xs ==> x in items && Depth(items, x) == d
  }

  predicate Orphan(items: seq<Item>, x: Item)
  {
    x.parent != "" && !HasParent(items, x)
  }

  lemma ChildrenDeeper(items: seq<Item>, x: Item, d: nat)
    requires Accepted(items) && x in items && Depth(items, x) == d
    ensures AtDepth(items, ChildrenOf(items, x), d + 1) && d <= MAX_DEPTH
  {
    FilterMembers(items, (c: Item) => IsChild(c, x));
    forall c | c in ChildrenOf(items, x) ensures c in items && Depth(items, c) == d + 1 { DepthOfChild(items, c, x); }
  }

  /** `node_for` over a list of items of one depth: it terminates because depth is bounded. */
  ghost function NodesAt(items: seq<Item>, xs: seq<Item>, d: nat): seq<Node>
    requires AtDepth(items, xs, d)
    decreases MAX_DEPTH + 1 - d, |xs|
  {
    if xs == [] then []
    else
      assert xs[0] in xs;
      ChildrenDeeper(items, xs[0], d);
      assert forall x :: x in xs[1..] ==> x in xs;
      [Node(xs[0], Orphan(items, xs[0]), NodesAt(items, ChildrenOf(items, xs[0]), d + 1))] + NodesAt(items, xs[1..], d)
  }

  lemma RootsAtTop(items: seq<Item>)
    requires Accepted(items)
    ensures AtDepth(items, Roots(items), 1)
  {
    FilterMembers(items, (x: Item) => !HasParent(items, x));
    forall x | x in Roots(items) ensures x in items && Depth(items, x) == 1 { DepthOfRoot(items, x); }
  }

  ghost function Forest(items: seq<Item>): seq<Node>
    requires Accepted(items)
  {
    RootsAtTop(items);
    NodesAt(items, Roots(items), 1)
  }

  // ---- the grouping pass and the build ----

  type Children = map<(string, string), seq<Item>>

  function GroupOf(items: seq<Item>, seen: seq<Item>, p: string, id: string): seq<Item>
  {
    Filter(seen, (c: Item) => HasParent(items, c) && c.provider == p && c.parent == id)
  }

  function Held(children: Children, p: string, id: string): seq<Item>
  {
    if (p, id) in children then children[(p, id)] else []
  }

  ghost predicate Groups(children: Children, items: seq<Item>, seen: seq<Item>)
  {
    forall p, id :: Held(children, p, id) == GroupOf(items, seen, p, id)
  }

  /** `_build_backlog_tree`. */
  method BuildTree(items: seq<Item>) returns (forest: seq<Node>)
    requires Accepted(items)
    ensures forest == Forest(items)
  {
    var children: Children := map[];
    var roots: seq<Item> := [];
    for i := 0 to |items|
      invariant Groups(children, items, items[..i])
      invariant roots == Filter(items[..i], (x: Item) => !HasParent(items, x))
    {
      var x := items[i];
      assert items[..i + 1] == items[..i] + [x];
      GroupStep(children, items, items[..i], x);
      FilterConcat(items[..i], [x], (y: Item) => !HasParent(items, y));
      assert [x][1..] == [];
      if HasParent(items, x) {
        var k := (x.provider, x.parent);
        children := children[k := Held(children, x.provider, x.parent) + [x]];
      } else {
        roots := roots + [x];
      }
    }
    assert items[..|items|] == items;
    RootsAtTop(items);
    forest := BuildNodes(items, children, roots, 1);
  }

  lemma GroupStep(children: Children, items: seq<Item>, seen: seq<Item>, x: Item)
    requires Groups(children, items, seen)
    ensures HasParent(items, x) ==>
      Groups(children[(x.provider, x.parent) := Held(children, x.provider, x.parent) + [x]], items, seen + [x])
    ensures !HasParent(items, x) ==> Groups(children, items, seen + [x])
  {
    forall p, id ensures GroupOf(items, seen + [x], p, id)
      == GroupOf(items, seen, p, id) + if HasParent(items, x) && x.provider == p && x.parent == id then [x] else []
    {
      FilterConcat(seen, [x], (c: Item) => HasParent(items, c) && c.provider == p && c.parent == id);
      assert [x][1..] == [];
    }
  }

  lemma {:induction false} FilterAgree<T>(s: seq<T>, f: T -> bool, g: T -> bool)
    requires forall x :: x in s ==> f(x) == g(x)
    ensures Filter(s, f) == Filter(s, g)
  {
    if s != [] {
      assert s == [s[0]] + s[1..];
      FilterAgree(s[1..], f, g);
    }
  }

  method BuildNodes(items: seq<Item>, children: Children, xs: seq<Item>, ghost d: nat) returns (nodes: seq<Node>)
    requires AtDepth(items, xs, d) && Groups(children, items, items)
    ensures nodes == NodesAt(items, xs, d)
    decreases MAX_DEPTH + 1 - d, |xs|
  {
    if xs == [] {
      return [];
    }
    var x := xs[0];
    assert x in xs;
    ChildrenDeeper(items, x, d);
    var own := Held(children, x.provider, x.id);
    assert own == GroupOf(items, items, x.provider, x.id);
    FilterAgree(items, (c: Item) => HasParent(items, c) && c.provider == x.provider && c.parent == x.id, (c: Item) => IsChild(c, x));
    assert own == ChildrenOf(items, x);
    var below := BuildNodes(items, children, own, d + 1);
    assert forall y :: y in xs[1..] ==> y in xs;
    var rest := BuildNodes(items, children, xs[1..], d);
    nodes := [Node(x, Orphan(items, x), below)] + rest;
  }

  // ---- nothing dropped, nothing doubled ----

  function ItemsOf(nodes: seq<Node>): multiset<Item>
  {
    if nodes == [] then multiset{} else multiset{nodes[0].item} + ItemsOf(nodes[0].children) + ItemsOf(nodes[1..])
  }

  function Height(nodes: seq<Node>): nat
  {
    if nodes == [] then 0
    else
      var first, rest := 1 + Height(nodes[0].children), Height(nodes[1..]);
      if first < rest then rest else first
  }

  /** `descendant_count` of one node. */
  function Descendants(node: Node): nat
    decreases node, 0
  {
    |node.children| + DescendantSum(node.children)
  }

  function DescendantSum(nodes: seq<Node>): nat
    decreases nodes
  {
    if nodes == [] then 0 else Descendants(nodes[0]) + DescendantSum(nodes[1..])
  }

  lemma {:induction false} DescendantsCountItems(nodes: seq<Node>)
    ensures |nodes| + DescendantSum(nodes) == |ItemsOf(nodes)|
  {
    if nodes != [] {
      DescendantsCountItems(nodes[0].children);
      DescendantsCountItems(nodes[1..]);
    }
  }

  /** The items of a list's subtrees. */
  ghost function Under(items: seq<Item>, xs: seq<Item>, d: nat): multiset<Item>
    requires AtDepth(items, xs, d)
  {
    ItemsOf(NodesAt(items, xs, d))
  }

  lemma UnderHead(items: seq<Item>, x: Item, rest: seq<Item>, d: nat)
    requires AtDepth(items, [x] + rest, d)
    ensures AtDepth(items, rest, d) && AtDepth(items, ChildrenOf(items, x), d + 1)
    ensures Under(items, [x] + rest, d) == multiset{x} + Under(items, ChildrenOf(items, x), d + 1) + Under(items, rest, d)
  {
    var xs := [x] + rest;
    assert xs[0] == x && xs[1..] == rest && x in xs;
    assert forall y :: y in rest ==> y in xs;
    ChildrenDeeper(items, x, d);
    var n, tail := Node(x, Orphan(items, x), NodesAt(items, ChildrenOf(items, x), d + 1)), NodesAt(items, rest, d);
    assert NodesAt(items, xs, d) == [n] + tail;
    assert ([n] + tail)[1..] == tail;
  }

  lemma AtDepthConcat(items: seq<Item>, a: seq<Item>, b: seq<Item>, d: nat)
    requires AtDepth(items, a, d) && AtDepth(items, b, d)
    ensures AtDepth(items, a + b, d)
  {
  }

  lemma Regroup(a: multiset<Item>, b: multiset<Item>, c: multiset<Item>)
    ensures a + (b + c) == (a + b) + c
  {
  }

  lemma {:induction false} UnderConcat(items: seq<Item>, a: seq<Item>, b: seq<Item>, d: nat)
    requires AtDepth(items, a, d) && AtDepth(items, b, d)
    ensures AtDepth(items, a + b, d) && Under(items, a + b, d) == Under(items, a, d) + Under(items, b, d)
  {
    AtDepthConcat(items, a, b, d);
    if a == [] {
      assert a + b == b;
    } else {
      var x, rest := a[0], a[1..];
      assert a == [x] + rest && a + b == [x] + (rest + b);
      UnderConcat(items, rest, b, d) by { UnderHead(items, x, rest, d); }
      UnderHead(items, x, rest, d);
      UnderHead(items, x, rest + b, d);
      Regroup(multiset{x} + Under(items, ChildrenOf(items, x), d + 1), Under(items, rest, d), Under(items, b, d));
    }
  }

  lemma UnderWithout(items: seq<Item>, s: seq<Item>, i: nat, d: nat)
    requires i < |s| && AtDepth(items, s, d)
    ensures AtDepth(items, [s[i]] + (s[..i] + s[i + 1..]), d) && AtDepth(items, s[..i] + s[i + 1..], d)
    ensures Under(items, s, d) == Under(items, [s[i]] + (s[..i] + s[i + 1..]), d)
  {
    var before, after := s[..i], s[i + 1..];
    assert s == before + ([s[i]] + after);
    assert forall x :: x in before || x in after ==> x in s;
    UnderConcat(items, before, after, d);
    UnderConcat(items, [s[i]], after, d);
    UnderConcat(items, before, [s[i]] + after, d);
    UnderConcat(items, [s[i]], before + after, d);
  }

  lemma {:induction false} UnderPermuted(items: seq<Item>, a: seq<Item>, b: seq<Item>, d: nat)
    requires AtDepth(items, a, d) && AtDepth(items, b, d) && multiset(a) == multiset(b)
    ensures Under(items, a, d) == Under(items, b, d)
  {
    assert |a| == |multiset(a)| == |multiset(b)| == |b|;
    if a != [] {
      var i := MatchHead(a, b);
      var rest := b[..i] + b[i + 1..];
      UnderWithout(items, b, i, d);
      assert a == [a[0]] + a[1..];
      UnderHead(items, a[0], a[1..], d);
      UnderHead(items, a[0], rest, d);
      UnderPermuted(items, a[1..], rest, d);
    }
  }

  function AllChildren(items: seq<Item>, xs: seq<Item>): seq<Item>
  {
    if xs == [] then [] else ChildrenOf(items, xs[0]) + AllChildren(items, xs[1..])
  }

  lemma {:induction false} UnderSplits(items: seq<Item>, xs: seq<Item>, d: nat)
    requires AtDepth(items, xs, d)
    ensures AtDepth(items, AllChildren(items, xs), d + 1)
    ensures Under(items, xs, d) == multiset(xs) + Under(items, AllChildren(items, xs), d + 1)
  {
    if xs != [] {
      assert xs == [xs[0]] + xs[1..];
      UnderHead(items, xs[0], xs[1..], d);
      UnderSplits(items, xs[1..], d);
      UnderConcat(items, ChildrenOf(items, xs[0]), AllChildren(items, xs[1..]), d + 1);
    }
  }

  // ---- level by level ----

  ghost function Level(items: seq<Item>, from: seq<Item>, d: nat): seq<Item>
    requires Accepted(items) && forall x :: x in from ==> x in items
  {
    if from == [] then []
    else
      assert from[0] in from && forall x :: x in from[1..] ==> x in from;
      if Depth(items, from[0]) == d then [from[0]] + Level(items, from[1..], d) else Level(items, from[1..], d)
  }

  /** The items at depth `d` or deeper. */
  ghost function Deep(items: seq<Item>, from: seq<Item>, d: nat): multiset<Item>
    requires Accepted(items) && forall x :: x in from ==> x in items
  {
    if from == [] then multiset{}
    else
      assert from[0] in from && forall x :: x in from[1..] ==> x in from;
      (if Depth(items, from[0]) >= d then multiset{from[0]} else multiset{}) + Deep(items, from[1..], d)
  }

  lemma {:induction false} DeepSplits(items: seq<Item>, from: seq<Item>, d: nat)
    requires Accepted(items) && forall x :: x in from ==> x in items
    ensures Deep(items, from, d) == multiset(Level(items, from, d)) + Deep(items, from, d + 1)
  {
    if from != [] {
      assert from[0] in from && forall x :: x in from[1..] ==> x in from;
      DeepSplits(items, from[1..], d);
    }
  }

  lemma {:induction false} DeepEnds(items: seq<Item>, from: seq<Item>)
    requires Accepted(items) && forall x :: x in from ==> x in items
    ensures Deep(items, from, MAX_DEPTH + 1) == multiset{} && Deep(items, from, 1) == multiset(from)
  {
    if from != [] {
      assert from[0] in from && forall x :: x in from[1..] ==> x in from;
      assert from == [from[0]] + from[1..];
      DeepEnds(items, from[1..]);
    }
  }

  lemma {:induction false} LevelFacts(items: seq<Item>, from: seq<Item>, d: nat)
    requires Accepted(items) && (forall x :: x in from ==> x in items) && Distinct(from)
    ensures Distinct(Level(items, from, d)) && AtDepth(items, Level(items, from, d), d)
    ensures forall x :: x in from ==> (x in Level(items, from, d) <==> Depth(items, x) == d)
    ensures forall x :: x in Level(items, from, d) ==> x in from
  {
    if from != [] {
      assert from[0] in from && forall x :: x in from[1..] ==> x in from;
      assert from == [from[0]] + from[1..] && from[0] !in from[1..];
      LevelFacts(items, from[1..], d);
    }
  }

  lemma {:induction false} AllChildrenFacts(items: seq<Item>, xs: seq<Item>)
    requires Distinct(items) && UniqueIds(xs)
    ensures Distinct(AllChildren(items, xs))
    ensures forall c :: c in AllChildren(items, xs) <==> c in items && exists x :: x in xs && IsChild(c, x)
  {
    if xs != [] {
      var x, rest := xs[0], xs[1..];
      assert xs == [x] + rest;
      AllChildrenFacts(items, rest);
      FilterDistinct(items, (c: Item) => IsChild(c, x));
      FilterMembers(items, (c: Item) => IsChild(c, x));
      forall c | c in ChildrenOf(items, x) ensures c !in AllChildren(items, rest) {
        assert forall j :: 0 <= j < |rest| ==> rest[j] == xs[j + 1];
        assert forall y :: y in rest ==> !IsChild(c, y);
      }
      DistinctConcat(ChildrenOf(items, x), AllChildren(items, rest));
      forall c ensures c in AllChildren(items, xs) <==> c in items && exists y :: y in xs && IsChild(c, y) {
        if c in items && exists y :: y in xs && IsChild(c, y) {
          var y :| y in xs && IsChild(c, y);
          assert y == x || y in rest;
        }
        if c in ChildrenOf(items, x) { assert x in xs; }
      }
    }
  }

  lemma UniqueAmong(items: seq<Item>, xs: seq<Item>)
    requires UniqueIds(items) && Distinct(xs) && forall x :: x in xs ==> x in items
    ensures UniqueIds(xs)
  {
    forall i, j | 0 <= i < j < |xs| ensures xs[i].provider != xs[j].provider || xs[i].id != xs[j].id {
      assert xs[i] in items && xs[j] in items;
      var a :| 0 <= a < |items| && items[a] == xs[i];
      var b :| 0 <= b < |items| && items[b] == xs[j];
      assert a != b;
    }
  }

  /** The children of one level are the next level. */
  lemma ChildOfLevel(items: seq<Item>, d: nat, c: Item)
    requires Accepted(items) && d >= 1
    ensures c in AllChildren(items, Level(items, items, d)) <==> c in Level(items, items, d + 1)
  {
    LevelFacts(items, items, d);
    LevelFacts(items, items, d + 1);
    UniqueAmong(items, Level(items, items, d));
    AllChildrenFacts(items, Level(items, items, d));
    if c in AllChildren(items, Level(items, items, d)) {
      var x :| x in Level(items, items, d) && IsChild(c, x);
      DepthOfChild(items, c, x);
    }
    if c in Level(items, items, d + 1) {
      ParentExists(items, c);
    }
  }

  lemma NextLevel(items: seq<Item>, d: nat)
    requires Accepted(items) && d >= 1
    ensures multiset(AllChildren(items, Level(items, items, d))) == multiset(Level(items, items, d + 1))
  {
    assert Distinct(items);
    LevelFacts(items, items, d);
    LevelFacts(items, items, d + 1);
    var here, next := Level(items, items, d), Level(items, items, d + 1);
    UniqueAmong(items, here);
    AllChildrenFacts(items, here);
    forall c ensures c in AllChildren(items, here) <==> c in next {
      ChildOfLevel(items, d, c);
    }
    DistinctSameElements(AllChildren(items, here), next);
  }

  lemma {:induction false} LevelHoldsTheRest(items: seq<Item>, d: nat)
    requires Accepted(items) && 1 <= d <= MAX_DEPTH + 1
    ensures AtDepth(items, Level(items, items, d), d)
    ensures Under(items, Level(items, items, d), d) == Deep(items, items, d)
    decreases MAX_DEPTH + 1 - d
  {
    assert Distinct(items);
    LevelFacts(items, items, d);
    var here := Level(items, items, d);
    DeepSplits(items, items, d);
    if d == MAX_DEPTH + 1 {
      DeepEnds(items, items);
      assert here == [];
    } else {
      LevelHoldsTheRest(items, d + 1);
      LevelUnfolds(items, d);
    }
  }

  lemma LevelUnfolds(items: seq<Item>, d: nat)
    requires Accepted(items) && d >= 1
    requires AtDepth(items, Level(items, items, d), d) && AtDepth(items, Level(items, items, d + 1), d + 1)
    ensures Under(items, Level(items, items, d), d)
         == multiset(Level(items, items, d)) + Under(items, Level(items, items, d + 1), d + 1)
  {
    NextLevel(items, d);
    ChildrenUnfold(items, Level(items, items, d), Level(items, items, d + 1), d);
  }

  lemma ChildrenUnfold(items: seq<Item>, here: seq<Item>, next: seq<Item>, d: nat)
    requires AtDepth(items, here, d) && AtDepth(items, next, d + 1)
    requires multiset(AllChildren(items, here)) == multiset(next)
    ensures Under(items, here, d) == multiset(here) + Under(items, next, d + 1)
  {
    UnderSplits(items, here, d);
    UnderPermuted(items, AllChildren(items, here), next, d + 1);
  }

  /** The forest of an accepted backlog holds every item exactly once. */
  lemma ForestIsLossless(items: seq<Item>)
    requires Accepted(items)
    ensures ItemsOf(Forest(items)) == multiset(items)
    ensures |Roots(items)| + DescendantSum(Forest(items)) == |items|
  {
    assert Distinct(items);
    RootsAtTop(items);
    LevelFacts(items, items, 1);
    FilterDistinct(items, (x: Item) => !HasParent(items, x));
    FilterMembers(items, (x: Item) => !HasParent(items, x));
    forall x ensures x in Roots(items) <==> x in Level(items, items, 1) {
      if x in items { DepthOfRoot(items, x); }
    }
    DistinctSameElements(Roots(items), Level(items, items, 1));
    UnderPermuted(items, Roots(items), Level(items, items, 1), 1);
    LevelHoldsTheRest(items, 1);
    DeepEnds(items, items);
    DescendantsCountItems(Forest(items));
    NodeCount(items, Roots(items), 1);
    assert |multiset(items)| == |items|;
  }

  lemma {:induction false} NodeCount(items: seq<Item>, xs: seq<Item>, d: nat)
    requires AtDepth(items, xs, d)
    ensures |NodesAt(items, xs, d)| == |xs|
    decreases |xs|
  {
    if xs != [] {
      assert xs[0] in xs && forall x :: x in xs[1..] ==> x in xs;
      ChildrenDeeper(items, xs[0], d);
      NodeCount(items, xs[1..], d);
    }
  }

  /** No branch of the forest is deeper than the limit. */
  lemma {:induction false} ForestIsShallow(items: seq<Item>, xs: seq<Item>, d: nat)
    requires AtDepth(items, xs, d)
    ensures xs != [] ==> Height(NodesAt(items, xs, d)) + d <= MAX_DEPTH + 1
    ensures xs == [] ==> Height(NodesAt(items, xs, d)) == 0
    decreases MAX_DEPTH + 1 - d, |xs|
  {
    if xs != [] {
      HeightHead(items, xs, d);
      ForestIsShallow(items, ChildrenOf(items, xs[0]), d + 1);
      ForestIsShallow(items, xs[1..], d);
    }
  }

  lemma HeightHead(items: seq<Item>, xs: seq<Item>, d: nat)
    requires AtDepth(items, xs, d) && xs != []
    ensures AtDepth(items, xs[1..], d) && AtDepth(items, ChildrenOf(items, xs[0]), d + 1) && d <= MAX_DEPTH
    ensures var h, first, rest := Height(NodesAt(items, xs, d)),
        1 + Height(NodesAt(items, ChildrenOf(items, xs[0]), d + 1)), Height(NodesAt(items, xs[1..], d));
      h == if first < rest then rest else first
  {
    assert xs[0] in xs && forall x :: x in xs[1..] ==> x in xs;
    ChildrenDeeper(items, xs[0], d);
    var n, tail := Node(xs[0], Orphan(items, xs[0]), NodesAt(items, ChildrenOf(items, xs[0]), d + 1)), NodesAt(items, xs[1..], d);
    assert NodesAt(items, xs, d) == [n] + tail && ([n] + tail)[1..] == tail;
  }

  // ---- what each node says ----

  ghost predicate Lists(children: seq<Node>, x: Item)
  {
    exists k :: 0 <= k < |children| && children[k].item == x
  }

  /** The node marks a parent that is named and absent, its children are the items naming it as their parent within
      its provider, and the same holds all the way down. */
  ghost predicate TrueNode(items: seq<Item>, n: Node)
    decreases n
  {
    n.item in items &&
    (n.parentMissing <==>
       n.item.parent != "" && forall y :: y in items ==> y.provider != n.item.provider || y.id != n.item.parent) &&
    (forall x :: Lists(n.children, x) <==>
       x in items && x.parent != "" && x.provider == n.item.provider && x.parent == n.item.id) &&
    forall k :: 0 <= k < |n.children| ==> TrueNode(items, n.children[k])
  }

  lemma ListsItems(nodes: seq<Node>, xs: seq<Item>)
    requires |nodes| == |xs| && forall k :: 0 <= k < |xs| ==> nodes[k].item == xs[k]
    ensures forall y :: Lists(nodes, y) <==> y in xs
  {
    forall y | y in xs ensures Lists(nodes, y) {
      var k :| 0 <= k < |xs| && xs[k] == y;
      assert nodes[k].item == y;
    }
  }

  ghost predicate TrueNodes(items: seq<Item>, nodes: seq<Node>, xs: seq<Item>)
  {
    |nodes| == |xs| && forall k :: 0 <= k < |xs| ==> nodes[k].item == xs[k] && TrueNode(items, nodes[k])
  }

  lemma TrueNodesCons(items: seq<Item>, n: Node, rest: seq<Node>, xs: seq<Item>)
    requires xs != [] && n.item == xs[0] && TrueNode(items, n) && TrueNodes(items, rest, xs[1..])
    ensures TrueNodes(items, [n] + rest, xs)
  {
    var nodes := [n] + rest;
    assert forall k :: 1 <= k < |xs| ==> nodes[k] == rest[k - 1] && xs[k] == xs[1..][k - 1];
  }

  lemma NodesUnfold(items: seq<Item>, xs: seq<Item>, d: nat)
    requires AtDepth(items, xs, d) && xs != []
    ensures xs[0] in items && d <= MAX_DEPTH
    ensures AtDepth(items, ChildrenOf(items, xs[0]), d + 1) && AtDepth(items, xs[1..], d)
    ensures NodesAt(items, xs, d) ==
      [Node(xs[0], Orphan(items, xs[0]), NodesAt(items, ChildrenOf(items, xs[0]), d + 1))] + NodesAt(items, xs[1..], d)
  {
    assert xs[0] in xs && forall y :: y in xs[1..] ==> y in xs;
    ChildrenDeeper(items, xs[0], d);
  }

  lemma {:induction false} NodesAreTrue(items: seq<Item>, xs: seq<Item>, d: nat)
    requires AtDepth(items, xs, d)
    ensures TrueNodes(items, NodesAt(items, xs, d), xs)
    decreases MAX_DEPTH + 1 - d, |xs|
  {
    if xs != [] {
      var x, rest := xs[0], xs[1..];
      NodesUnfold(items, xs, d);
      NodesAreTrue(items, ChildrenOf(items, x), d + 1);
      NodesAreTrue(items, rest, d);
      var n := Node(x, Orphan(items, x), NodesAt(items, ChildrenOf(items, x), d + 1));
      HeadIsTrue(items, n);
      TrueNodesCons(items, n, NodesAt(items, rest, d), xs);
    }
  }

  lemma HeadIsTrue(items: seq<Item>, n: Node)
    requires n.item in items && n.parentMissing == Orphan(items, n.item)
    requires TrueNodes(items, n.children, ChildrenOf(items, n.item))
    ensures TrueNode(items, n)
  {
    FilterMembers(items, (c: Item) => IsChild(c, n.item));
    ListsItems(n.children, ChildrenOf(items, n.item));
  }

  /** Every node of the forest tells the truth, and its roots are the items whose named parent is absent or that name
      none. */
  lemma ForestIsTrue(items: seq<Item>)
    requires Accepted(items)
    ensures forall k :: 0 <= k < |Forest(items)| ==> TrueNode(items, Forest(items)[k])
    ensures forall x :: Lists(Forest(items), x) <==>
      x in items && (x.parent == "" || forall y :: y in items ==> y.provider != x.provider || y.id != x.parent)
  {
    RootsAtTop(items);
    NodesAreTrue(items, Roots(items), 1);
    FilterMembers(items, (x: Item) => !HasParent(items, x));
    ListsItems(Forest(items), Roots(items));
  }
}
