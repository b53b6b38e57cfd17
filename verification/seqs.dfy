/** In-order subsequences, used to say that a pass only drops and never reorders. */
module Seqs {
  import opened Wrappers

  /** The index of the first element at or after `i` that satisfies `p`. */
  function FirstIndexFrom<T>(xs: seq<T>, i: nat, p: T -> bool): (r: Option<nat>)
    requires i <= |xs|
    ensures r.Some? ==> i <= r.value < |xs| && p(xs[r.value])
    ensures r.Some? ==> forall j :: i <= j < r.value ==> !p(xs[j])
    ensures r.None? ==> forall j :: i <= j < |xs| ==> !p(xs[j])
    decreases |xs| - i
  {
    if i == |xs| then None
    else if p(xs[i]) then Some(i)
    else FirstIndexFrom(xs, i + 1, p)
  }

  /** The first index satisfying `p` is determined by the elements up to it. */
  lemma FirstIndexIs<T>(xs: seq<T>, p: T -> bool, r: Option<nat>)
    requires r.Some? ==> r.value < |xs| && p(xs[r.value]) && forall j :: 0 <= j < r.value ==> !p(xs[j])
    requires r.None? ==> forall j :: 0 <= j < |xs| ==> !p(xs[j])
    ensures FirstIndexFrom(xs, 0, p) == r
  {
    var f := FirstIndexFrom(xs, 0, p);
    if f.Some? && r.Some? {
      assert !(f.value < r.value) && !(r.value < f.value);
    }
  }

  /** Cutting the sequence after its first match, or anywhere when there is none, keeps the first match. */
  lemma FirstIndexPrefix<T>(xs: seq<T>, j: nat, p: T -> bool)
    requires j <= |xs|
    requires match FirstIndexFrom(xs, 0, p) case Some(h) => h < j case None => true
    ensures FirstIndexFrom(xs[..j], 0, p) == FirstIndexFrom(xs, 0, p)
  {
    var r := FirstIndexFrom(xs, 0, p);
    assert forall k :: 0 <= k < j ==> xs[..j][k] == xs[k];
    FirstIndexIs(xs[..j], p, r);
  }

  /** A prefix with no match shifts the first match of what follows it. */
  lemma FirstIndexAfter<T>(pre: seq<T>, rest: seq<T>, p: T -> bool)
    requires forall k :: 0 <= k < |pre| ==> !p(pre[k])
    requires rest != [] && p(rest[0])
    ensures FirstIndexFrom(pre + rest, 0, p) == Some(|pre|)
    ensures FirstIndexFrom(rest, 0, p) == Some(0)
  {
    var xs := pre + rest;
    assert xs[|pre|] == rest[0];
    assert forall k :: 0 <= k < |pre| ==> xs[k] == pre[k];
    FirstIndexIs(xs, p, Some(|pre|));
  }

  /** `a` is `b` with some elements left out, the rest kept in order. */
  predicate IsSubseq<T(==)>(a: seq<T>, b: seq<T>)
    decreases |b|
  {
    a == [] || (b != [] && ((a[0] == b[0] && IsSubseq(a[1..], b[1..])) || IsSubseq(a, b[1..])))
  }

  lemma AppendAssoc<T>(a: seq<T>, b: seq<T>, c: seq<T>)
    ensures a + b + c == a + (b + c)
  {
  }

  /** A non-empty sequence is its front followed by its last element. */
  lemma SnocSplit<T>(xs: seq<T>)
    requires xs != []
    ensures xs == xs[..|xs| - 1] + [xs[|xs| - 1]]
  {
  }

  lemma SliceOfPrefix<T>(s: seq<T>, b: nat, j: nat)
    requires b <= j <= |s|
    ensures s[b..][..j - b] == s[..j][b..]
  {
  }

  lemma {:induction false} SubseqOfSuffix<T>(a: seq<T>, b: seq<T>, k: nat)
    requires k <= |b| && IsSubseq(a, b[k..])
    ensures IsSubseq(a, b)
    decreases k
  {
    if k > 0 {
      assert b[1..][k - 1..] == b[k..];
      SubseqOfSuffix(a, b[1..], k - 1);
    }
  }

  /** Everything in a subsequence comes from the sequence it was taken from. */
  lemma {:induction false} SubseqElements<T>(a: seq<T>, b: seq<T>)
    requires IsSubseq(a, b)
    ensures forall x :: x in a ==> x in b
    decreases |b|
  {
    if a != [] {
      if a[0] == b[0] && IsSubseq(a[1..], b[1..]) {
        SubseqElements(a[1..], b[1..]);
        assert forall x :: x in a ==> x == a[0] || x in a[1..];
      } else {
        SubseqElements(a, b[1..]);
      }
    }
  }
}
