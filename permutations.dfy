/**
 * `shuffle()` (used by `dealKlondike` and `SolitareDeck.shuffled`) draws a
 * random order. The model takes that order as an input: a permutation of the
 * positions 0..n-1, and the shuffled collection lists the elements in it.
 */
module Permutations {

  /** The positions 0, 1, ..., n-1 in increasing order. */
  function Range(n: nat): (r: seq<nat>)
    ensures |r| == n && forall i :: 0 <= i < n ==> r[i] == i
  {
    if n == 0 then [] else Range(n - 1) + [n - 1]
  }

  /** `perm` holds each position 0..n-1 exactly once. */
  predicate IsPermutation(perm: seq<nat>, n: nat) {
    multiset(perm) == multiset(Range(n))
  }

  /** The elements of `s` in the order `perm` names their positions. */
  function Permute<T>(s: seq<T>, perm: seq<nat>): (r: seq<T>)
    requires forall i :: 0 <= i < |perm| ==> perm[i] < |s|
    ensures |r| == |perm| && forall i :: 0 <= i < |perm| ==> r[i] == s[perm[i]]
  {
    seq(|perm|, i requires 0 <= i < |perm| => s[perm[i]])
  }

  /** A permutation of n positions has n entries, each below n. */
  lemma PermutationBounds(perm: seq<nat>, n: nat)
    requires IsPermutation(perm, n)
    ensures |perm| == n && forall i :: 0 <= i < |perm| ==> perm[i] < n
  {
    assert |multiset(perm)| == |multiset(Range(n))|;
    forall i | 0 <= i < |perm| ensures perm[i] < n {
      assert perm[i] in multiset(Range(n));
    }
  }

  /** Taking out position `j` removes one copy of `b[j]` from the multiset. */
  lemma RemoveAt(b: seq<nat>, j: nat)
    requires j < |b|
    ensures b == b[..j] + ([b[j]] + b[j + 1..])
    ensures multiset(b[..j] + b[j + 1..]) == multiset(b) - multiset{b[j]}
  {
    assert b == b[..j] + [b[j]] + b[j + 1..];
  }

  /** Reading `s` at positions `u` then `v` is reading it at `u + v`. */
  lemma PermuteAppend<T>(s: seq<T>, u: seq<nat>, v: seq<nat>)
    requires forall i :: 0 <= i < |u| ==> u[i] < |s|
    requires forall i :: 0 <= i < |v| ==> v[i] < |s|
    ensures Permute(s, u + v) == Permute(s, u) + Permute(s, v)
  {
  }

  /** Reading `s` around a position `x` adds one copy of `s[x]` to the multiset. */
  lemma PermuteAround<T>(s: seq<T>, left: seq<nat>, x: nat, right: seq<nat>)
    requires x < |s|
    requires forall i :: 0 <= i < |left| ==> left[i] < |s|
    requires forall i :: 0 <= i < |right| ==> right[i] < |s|
    ensures multiset(Permute(s, left + ([x] + right)))
         == multiset{s[x]} + multiset(Permute(s, left + right))
  {
    PermuteAppend(s, left, right);
    PermuteAppend(s, [x], right);
    PermuteAppend(s, left, [x] + right);
  }

  /** A position of `x` in `b`, which holds the same elements as `a`. */
  lemma IndexOf(b: seq<nat>, x: nat, a: seq<nat>) returns (j: nat)
    requires x in a && multiset(a) == multiset(b)
    ensures j < |b| && b[j] == x
  {
    assert x in multiset(b);
    j :| 0 <= j < |b| && b[j] == x;
  }

  /** Removing the first element of `a` and an equal element of `b` keeps them equal as multisets. */
  lemma RemoveMatching(a: seq<nat>, b: seq<nat>, j: nat, n: nat) returns (rest: seq<nat>)
    requires a != [] && j < |b| && b[j] == a[0] && multiset(a) == multiset(b)
    requires forall i :: 0 <= i < |b| ==> b[i] < n
    ensures rest == b[..j] + b[j + 1..] && multiset(a[1..]) == multiset(rest)
    ensures forall i :: 0 <= i < |rest| ==> rest[i] < n
  {
    RemoveAt(b, j);
    RemoveAt(a, 0);
    assert a[..0] + a[1..] == a[1..];
    rest := b[..j] + b[j + 1..];
    forall i | 0 <= i < |rest| ensures rest[i] < n {
      if i < j { assert rest[i] == b[i]; } else { assert rest[i] == b[i + 1]; }
    }
  }

  /** Reading `s` at the positions `x` followed by `a` adds `s[x]` to reading it at `a`. */
  lemma PermuteCons<T>(s: seq<T>, x: nat, a: seq<nat>)
    requires x < |s|
    requires forall i :: 0 <= i < |a| ==> a[i] < |s|
    ensures multiset(Permute(s, [x] + a)) == multiset{s[x]} + multiset(Permute(s, a))
  {
    PermuteAppend(s, [x], a);
    assert Permute(s, [x]) == [s[x]];
  }

  /** Reading `s` in two orders that list the same positions gives the same multiset. */
  lemma {:induction false} PermuteSameMultiset<T>(s: seq<T>, a: seq<nat>, b: seq<nat>)
    requires forall i :: 0 <= i < |a| ==> a[i] < |s|
    requires forall i :: 0 <= i < |b| ==> b[i] < |s|
    requires multiset(a) == multiset(b)
    ensures multiset(Permute(s, a)) == multiset(Permute(s, b))
    decreases |a|
  {
    if a == [] {
      assert |multiset(b)| == 0;
      assert b == [];
    } else {
      var x := a[0];
      var j := IndexOf(b, x, a);
      var rest := RemoveMatching(a, b, j, |s|);
      PermuteSameMultiset(s, a[1..], rest);
      RemoveAt(b, j);
      PermuteAround(s, b[..j], x, b[j + 1..]);
      assert a == [x] + a[1..];
      PermuteCons(s, x, a[1..]);
    }
  }

  /** A shuffled copy holds exactly the elements of the original, as a multiset. */
  lemma PermutePreservesMultiset<T>(s: seq<T>, perm: seq<nat>)
    requires IsPermutation(perm, |s|)
    ensures forall i :: 0 <= i < |perm| ==> perm[i] < |s|
    ensures multiset(Permute(s, perm)) == multiset(s)
  {
    PermutationBounds(perm, |s|);
    PermuteSameMultiset(s, perm, Range(|s|));
    assert Permute(s, Range(|s|)) == s;
  }

  /** `shuffle()`: the collection rearranged in the order `perm`. */
  function Shuffled<T>(s: seq<T>, perm: seq<nat>): (r: seq<T>)
    requires IsPermutation(perm, |s|)
    ensures |r| == |s| && multiset(r) == multiset(s)
  {
    PermutePreservesMultiset(s, perm);
    PermutationBounds(perm, |s|);
    Permute(s, perm)
  }

  /** A shuffle holds exactly the elements of the collection. */
  lemma ShuffledMembers<T>(s: seq<T>, perm: seq<nat>)
    requires IsPermutation(perm, |s|)
    ensures forall e :: e in Shuffled(s, perm) <==> e in s
  {
    var r := Shuffled(s, perm);
    forall e ensures e in r <==> e in s {
      assert e in r <==> e in multiset(r);
      assert e in s <==> e in multiset(s);
    }
  }
}
