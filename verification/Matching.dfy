/** Permutations given by their indices, and the multisets they preserve. */
module Matching {
  import opened Sorting

  ghost predicate Permutes(p: seq<nat>, n: nat)
  {
    |p| == n && Distinct(p) && forall i :: 0 <= i < n ==> p[i] < n
  }

  /** `a` is `b` reordered by `p`. */
  ghost predicate Matches<T>(a: seq<T>, b: seq<T>, p: seq<nat>)
  {
    |a| == |b| && Permutes(p, |a|) && forall i :: 0 <= i < |a| ==> a[i] == b[p[i]]
  }

  /** The indices above the gap at `hole` move down by one, or back up. */
  function Down(p: seq<nat>, hole: nat): (q: seq<nat>)
    ensures |q| == |p|
    ensures forall i :: 0 <= i < |p| ==> q[i] == if p[i] > hole then p[i] - 1 else p[i]
  {
    if p == [] then [] else [if p[0] > hole then p[0] - 1 else p[0]] + Down(p[1..], hole)
  }

  function Up(p: seq<nat>, hole: nat): (q: seq<nat>)
    ensures |q| == |p|
    ensures forall i :: 0 <= i < |p| ==> q[i] == if p[i] >= hole then p[i] + 1 else p[i]
  {
    if p == [] then [] else [if p[0] >= hole then p[0] + 1 else p[0]] + Up(p[1..], hole)
  }

  lemma {:induction false} FindMatching<T>(a: seq<T>, b: seq<T>) returns (p: seq<nat>)
    requires multiset(a) == multiset(b)
    ensures Matches(a, b, p)
  {
    assert |a| == |multiset(a)| == |multiset(b)| == |b|;
    if a == [] {
      p := [];
    } else {
      var hole := MatchHead(a, b);
      var rest := b[..hole] + b[hole + 1..];
      var q := FindMatching(a[1..], rest);
      p := [hole] + Up(q, hole);
      forall i | 0 <= i < |a| ensures p[i] < |a| && a[i] == b[p[i]] {
        if i > 0 {
          assert a[i] == a[1..][i - 1] == rest[q[i - 1]];
        }
      }
      assert forall i, j :: 0 <= i < j < |q| ==> q[i] != q[j];
    }
  }

  lemma {:induction false} MatchingKeeps<T>(a: seq<T>, b: seq<T>, p: seq<nat>)
    requires Matches(a, b, p)
    ensures multiset(a) == multiset(b)
  {
    if a != [] {
      var hole := p[0];
      var rest := b[..hole] + b[hole + 1..];
      var q := Down(p[1..], hole);
      forall i | 0 <= i < |q| ensures q[i] < |rest| && a[1..][i] == rest[q[i]] {
        assert p[i + 1] != p[0];
        assert a[i + 1] == b[p[i + 1]];
      }
      assert Distinct(q) by {
        forall i, j | 0 <= i < j < |q| ensures q[i] != q[j] {
          assert p[i + 1] != p[j + 1] && p[i + 1] != p[0] && p[j + 1] != p[0];
        }
      }
      MatchingKeeps(a[1..], rest, q);
      assert a == [a[0]] + a[1..];
      assert b == b[..hole] + ([b[hole]] + b[hole + 1..]);
    }
  }

  lemma IdentityMatches<T>(a: seq<T>) returns (p: seq<nat>)
    ensures Matches(a, a, p) && forall i :: 0 <= i < |a| ==> p[i] == i
  {
    p := seq(|a|, i requires 0 <= i < |a| => i);
  }
}
