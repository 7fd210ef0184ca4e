/**
 * The list operations the simulation performs on its agent arrays: removal
 * of one element in place (`splice(i, 1)`), and the facts about order and
 * identity that removal and filtering keep.
 */
module Sequences {

  /** No element occurs twice: every agent is a distinct object. */
  ghost predicate Distinct<T>(s: seq<T>) {
    forall i, j :: 0 <= i < j < |s| ==> s[i] != s[j]
  }

  /** `s.splice(k, 1)`: element `k` is removed and the others close up in order. */
  function Remove<T>(s: seq<T>, k: nat): (r: seq<T>)
    requires k < |s|
    ensures |r| == |s| - 1
    ensures forall j :: 0 <= j < k ==> r[j] == s[j]
    ensures forall j :: k <= j < |r| ==> r[j] == s[j + 1]
  {
    s[..k] + s[k + 1..]
  }

  /** `s.indexOf(x)`: the first position holding `x`, or -1 when there is none. */
  function IndexOf<T(==)>(s: seq<T>, x: T): (r: int)
    ensures r == -1 <==> x !in s
    ensures r != -1 ==> 0 <= r < |s| && s[r] == x && forall j :: 0 <= j < r ==> s[j] != x
    decreases |s|
  {
    if s == [] then -1
    else if s[0] == x then 0
    else
      var r := IndexOf(s[1..], x);
      if r == -1 then -1 else r + 1
  }

  /** In a list of distinct elements, the element at `k` is found at `k`. */
  lemma IndexOfDistinct<T>(s: seq<T>, k: nat)
    requires k < |s| && Distinct(s)
    ensures IndexOf(s, s[k]) == k
  {
  }

  /** One more element taken from the front of a list extends the prefix by that element. */
  lemma TakeSnoc<T>(s: seq<T>, j: nat)
    requires j < |s|
    ensures s[..j + 1] == s[..j] + [s[j]]
  {
  }

  /** `idx` lists, in increasing order, the positions of `b` that make up `a`. */
  ghost predicate Embeds<T>(a: seq<T>, b: seq<T>, idx: seq<nat>) {
    && |idx| == |a|
    && (forall k {:trigger idx[k]} :: 0 <= k < |idx| ==> idx[k] < |b| && a[k] == b[idx[k]])
    && (forall k, l :: 0 <= k < l < |idx| ==> idx[k] < idx[l])
  }

  /** `a` is `b` with some elements dropped and the rest in their original order. */
  ghost predicate IsSubseq<T>(a: seq<T>, b: seq<T>) {
    exists idx :: Embeds(a, b, idx)
  }

  lemma SubseqRefl<T>(s: seq<T>)
    ensures IsSubseq(s, s)
  {
    var idx := seq(|s|, k => k);
    assert Embeds(s, s, idx);
  }

  lemma SubseqTrans<T>(a: seq<T>, b: seq<T>, c: seq<T>)
    requires IsSubseq(a, b) && IsSubseq(b, c)
    ensures IsSubseq(a, c)
  {
    var i1: seq<nat> :| Embeds(a, b, i1);
    var i2: seq<nat> :| Embeds(b, c, i2);
    var idx := seq(|i1|, k requires 0 <= k < |i1| => i2[i1[k]]);
    assert Embeds(a, c, idx);
  }

  /** Appending the same element to both sides keeps a subsequence. */
  lemma SubseqAppend<T>(a: seq<T>, b: seq<T>, x: T)
    requires IsSubseq(a, b)
    ensures IsSubseq(a + [x], b + [x])
    ensures IsSubseq(a, b + [x])
  {
    var idx: seq<nat> :| Embeds(a, b, idx);
    assert Embeds(a + [x], b + [x], idx + [|b|]);
    assert Embeds(a, b + [x], idx);
  }

  /** Removing one element leaves a subsequence. */
  lemma {:induction false} RemoveSubseq<T>(s: seq<T>, k: nat)
    requires k < |s|
    ensures IsSubseq(Remove(s, k), s)
  {
    var r := Remove(s, k);
    var idx := seq(|r|, j requires 0 <= j < |r| => if j < k then j else j + 1);
    assert Embeds(r, s, idx);
  }

  lemma {:induction false} EmbedsAbove<T>(a: seq<T>, b: seq<T>, idx: seq<nat>, k: nat)
    requires Embeds(a, b, idx) && k < |idx|
    ensures idx[k] >= k
  {
    if k > 0 {
      EmbedsAbove(a, b, idx, k - 1);
    }
  }

  /** A subsequence is never longer than the sequence it is taken from. */
  lemma SubseqLength<T>(a: seq<T>, b: seq<T>)
    requires IsSubseq(a, b)
    ensures |a| <= |b|
  {
    var idx: seq<nat> :| Embeds(a, b, idx);
    if |a| > 0 {
      EmbedsAbove(a, b, idx, |a| - 1);
    }
  }

  /** Every element of a subsequence is an element of the sequence. */
  lemma SubseqMembers<T>(a: seq<T>, b: seq<T>)
    requires IsSubseq(a, b)
    ensures forall x :: x in a ==> x in b
  {
    var idx: seq<nat> :| Embeds(a, b, idx);
    forall x | x in a
      ensures x in b
    {
      var k :| 0 <= k < |a| && a[k] == x;
      assert b[idx[k]] == x;
    }
  }

  /** A subsequence of a list of distinct elements has distinct elements, all drawn from that list. */
  lemma SubseqDistinct<T>(a: seq<T>, b: seq<T>)
    requires IsSubseq(a, b) && Distinct(b)
    ensures Distinct(a)
    ensures forall x :: x in a ==> x in b
  {
    var idx: seq<nat> :| Embeds(a, b, idx);
    forall i, j | 0 <= i < j < |a|
      ensures a[i] != a[j]
    {
      assert a[i] == b[idx[i]] && a[j] == b[idx[j]];
    }
    SubseqMembers(a, b);
  }

  /** Once removed from a list of distinct elements, an element is gone for good. */
  lemma RemoveDistinct<T>(s: seq<T>, k: nat)
    requires k < |s| && Distinct(s)
    ensures s[k] !in Remove(s, k)
    ensures Distinct(Remove(s, k))
  {
    RemoveSubseq(s, k);
    SubseqDistinct(Remove(s, k), s);
  }
}
