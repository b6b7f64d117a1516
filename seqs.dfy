/** Order-preserving filtering of sequences (JavaScript's Array.prototype.filter). */
module Seqs {

  /** Keeps the elements satisfying `p`, in order; defined from the back so
      that a left-to-right loop extends it one element at a time. */
  function Filter<T(!new)>(p: T -> bool, s: seq<T>): (r: seq<T>)
    ensures |r| <= |s|
    ensures forall x :: x in r <==> x in s && p(x)
    decreases |s|
  {
    if |s| == 0 then []
    else if p(s[|s| - 1]) then Filter(p, s[..|s| - 1]) + [s[|s| - 1]]
    else Filter(p, s[..|s| - 1])
  }

  lemma FilterSnoc<T(!new)>(p: T -> bool, s: seq<T>, x: T)
    ensures Filter(p, s + [x]) == Filter(p, s) + (if p(x) then [x] else [])
  {
    assert (s + [x])[..|s|] == s;
  }

  /** Filtering a three-element list, spelled out. */
  lemma FilterThree<T(!new)>(p: T -> bool, a: T, b: T, c: T)
    ensures Filter(p, [a, b, c]) == (if p(a) then [a] else []) + (if p(b) then [b] else []) + (if p(c) then [c] else [])
  {
    FilterSnoc(p, [], a);
    FilterSnoc(p, [a], b);
    FilterSnoc(p, [a, b], c);
    assert [] + [a] == [a] && [a] + [b] == [a, b] && [a, b] + [c] == [a, b, c];
  }

  /** A filter that every element passes is the identity. */

  lemma {:induction false} FilterAll<T(!new)>(p: T -> bool, s: seq<T>)
    requires forall x :: x in s ==> p(x)
    ensures Filter(p, s) == s
    decreases |s|
  {
    if |s| > 0 {
      FilterAll(p, s[..|s| - 1]);
      assert s[..|s| - 1] + [s[|s| - 1]] == s;
    }
  }

  /** Filtering depends only on the values the predicate takes on the sequence. */
  lemma {:induction false} FilterExt<T(!new)>(p: T -> bool, q: T -> bool, s: seq<T>)
    requires forall x :: x in s ==> p(x) == q(x)
    ensures Filter(p, s) == Filter(q, s)
    decreases |s|
  {
    if |s| > 0 {
      FilterExt(p, q, s[..|s| - 1]);
    }
  }

  /** Two filters commute. */
  lemma {:induction false} FilterCommute<T(!new)>(p: T -> bool, q: T -> bool, s: seq<T>)
    ensures Filter(q, Filter(p, s)) == Filter(p, Filter(q, s))
    decreases |s|
  {
    if |s| > 0 {
      var init, x := s[..|s| - 1], s[|s| - 1];
      FilterCommute(p, q, init);
      var fp, fq := Filter(p, init), Filter(q, init);
      assert Filter(p, s) == fp + (if p(x) then [x] else []);
      assert Filter(q, s) == fq + (if q(x) then [x] else []);
      FilterSnoc(q, fp, x);
      FilterSnoc(p, fq, x);
      if !p(x) {
        assert fp + [] == fp;
      }
      if !q(x) {
        assert fq + [] == fq;
      }
    }
  }

  /** Filtering twice by predicates where the second is implied by the first
      (for example, the same predicate) is filtering once. */
  lemma FilterIdempotent<T(!new)>(p: T -> bool, s: seq<T>)
    ensures Filter(p, Filter(p, s)) == Filter(p, s)
  {
    FilterAll(p, Filter(p, s));
  }

  /** Filtering keeps order: two positions of the result come from two
      positions of the input, in the same order. */
  lemma {:induction false} FilterPair<T(!new)>(p: T -> bool, s: seq<T>, i: nat, j: nat)
    requires i < j < |Filter(p, s)|
    ensures exists i', j' :: 0 <= i' < j' < |s| && s[i'] == Filter(p, s)[i] && s[j'] == Filter(p, s)[j]
    decreases |s|
  {
    var init, x := s[..|s| - 1], s[|s| - 1];
    var f := Filter(p, init);
    if j < |f| {
      assert Filter(p, s)[..|f|] == f;
      FilterPair(p, init, i, j);
      var i', j' :| 0 <= i' < j' < |init| && init[i'] == f[i] && init[j'] == f[j];
      assert s[i'] == Filter(p, s)[i] && s[j'] == Filter(p, s)[j];
    } else {
      assert p(x) && Filter(p, s) == f + [x];
      assert f[i] in init;
      var i' :| 0 <= i' < |init| && init[i'] == f[i];
      assert s[i'] == Filter(p, s)[i] && s[|s| - 1] == Filter(p, s)[j];
    }
  }

  /** A filter that keeps everything `q` selects leaves the `q`-part of the
      sequence, and its order, as it was. */
  lemma FilterKeepsSelected<T(!new)>(p: T -> bool, q: T -> bool, s: seq<T>)
    requires forall x :: x in s && q(x) ==> p(x)
    ensures Filter(q, Filter(p, s)) == Filter(q, s)
  {
    FilterCommute(p, q, s);
    FilterAll(p, Filter(q, s));
  }
}
