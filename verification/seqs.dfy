/** Order-preserving selection over sequences: the `Array.prototype.filter`
    that the task store and the task list both use. */
module Seqs {

  /** The elements of `s` that satisfy `p`, in their original order. */
  function Filter<T(!new)>(s: seq<T>, p: T -> bool): (r: seq<T>)
    ensures |r| <= |s|
    ensures forall x :: x in r <==> x in s && p(x)
  {
    if s == [] then []
    else (if p(s[0]) then [s[0]] else []) + Filter(s[1..], p)
  }

  /** Filtering keeps every passing element exactly as many times as it
      occurs in the input, and drops every other element entirely. */
  lemma {:induction false} FilterCount<T(!new)>(s: seq<T>, p: T -> bool)
    ensures forall x :: multiset(Filter(s, p))[x] == if p(x) then multiset(s)[x] else 0
  {
    if s != [] {
      assert s == [s[0]] + s[1..];
      FilterCount(s[1..], p);
    }
  }

  /** Filtering distributes over concatenation: the relative order of the
      kept elements is the order they had in the input. */
  lemma {:induction false} FilterAppend<T(!new)>(a: seq<T>, b: seq<T>, p: T -> bool)
    ensures Filter(a + b, p) == Filter(a, p) + Filter(b, p)
  {
    if a == [] {
      assert a + b == b;
    } else {
      assert (a + b)[1..] == a[1..] + b;
      FilterAppend(a[1..], b, p);
    }
  }

  /** When every element passes, filtering changes nothing. */
  lemma {:induction false} FilterAllKept<T(!new)>(s: seq<T>, p: T -> bool)
    requires forall x :: x in s ==> p(x)
    ensures Filter(s, p) == s
  {
    if s != [] {
      assert forall x :: x in s[1..] ==> x in s;
      FilterAllKept(s[1..], p);
    }
  }

  /** Filtering twice with the same predicate is filtering once. */
  lemma FilterIdempotent<T(!new)>(s: seq<T>, p: T -> bool)
    ensures Filter(Filter(s, p), p) == Filter(s, p)
  {
    FilterAllKept(Filter(s, p), p);
  }

  /** Two complementary filters split a sequence: together they hold every
      element exactly as often as the input does. */
  lemma FilterComplement<T(!new)>(s: seq<T>, p: T -> bool, q: T -> bool)
    requires forall x :: x in s ==> q(x) == !p(x)
    ensures multiset(Filter(s, p)) + multiset(Filter(s, q)) == multiset(s)
    ensures |Filter(s, p)| + |Filter(s, q)| == |s|
  {
    var a, b := Filter(s, p), Filter(s, q);
    FilterCount(s, p);
    FilterCount(s, q);
    forall x
      ensures (multiset(a) + multiset(b))[x] == multiset(s)[x]
    {
      if x !in s {
        assert multiset(s)[x] == 0;
      }
    }
    assert multiset(a) + multiset(b) == multiset(s);
    assert |multiset(a) + multiset(b)| == |multiset(s)|;
  }

  /** `idx` lists, in strictly increasing order, exactly the positions of `s`
      whose elements satisfy `p`, and `r` is those elements in that order. */
  ghost predicate IsSelection<T>(r: seq<T>, s: seq<T>, p: T -> bool, idx: seq<int>)
  {
    && |idx| == |r|
    && (forall k :: 0 <= k < |idx| ==> 0 <= idx[k] < |s| && s[idx[k]] == r[k] && p(r[k]))
    && (forall k, l :: 0 <= k < l < |idx| ==> idx[k] < idx[l])
    && (forall i :: 0 <= i < |s| && p(s[i]) ==> i in idx)
  }

  /** The filter result is the subsequence of `s` at the positions where
      `p` holds, taken in increasing order. */
  lemma {:induction false} FilterSelection<T(!new)>(s: seq<T>, p: T -> bool) returns (idx: seq<int>)
    ensures IsSelection(Filter(s, p), s, p, idx)
    decreases |s|
  {
    if s == [] {
      idx := [];
    } else {
      var n := |s| - 1;
      var init := s[..n];
      var rest := FilterSelection(init, p);
      assert s == init + [s[n]];
      FilterAppend(init, [s[n]], p);
      assert Filter([s[n]], p) == if p(s[n]) then [s[n]] else [] by {
        assert [s[n]][1..] == [];
      }
      idx := SelectionExtend(Filter(init, p), init, s[n], p, rest);
    }
  }

  /** A selection extends by one element: if the new last element passes,
      its position joins the selected positions. */
  lemma SelectionExtend<T>(r: seq<T>, s: seq<T>, x: T, p: T -> bool, sel: seq<int>) returns (idx: seq<int>)
    requires IsSelection(r, s, p, sel)
    ensures IsSelection(r + (if p(x) then [x] else []), s + [x], p, idx)
  {
    var n := |s|;
    var s', r' := s + [x], r + (if p(x) then [x] else []);
    idx := sel + (if p(x) then [n] else []);
    forall k | 0 <= k < |idx|
      ensures 0 <= idx[k] < |s'| && s'[idx[k]] == r'[k] && p(r'[k])
    {
      if k < |sel| {
        assert idx[k] == sel[k] && r'[k] == r[k];
        assert s'[sel[k]] == s[sel[k]];
      }
    }
    forall i | 0 <= i < |s'| && p(s'[i])
      ensures i in idx
    {
      if i < n {
        assert s'[i] == s[i];
        assert i in sel;
      } else {
        assert idx[|sel|] == n;
      }
    }
    forall k, l | 0 <= k < l < |idx|
      ensures idx[k] < idx[l]
    {
      assert idx[k] == sel[k] && sel[k] < n;
      if l < |sel| {
        assert idx[l] == sel[l];
      }
    }
  }
}
