/**
 * Sequence helpers shared by the dispatcher model: duplicate-freedom and
 * the two order-preserving membership filters that the canvas handler
 * writes as `a.filter(item => p.some(i => i === item))` and its negation.
 */
module Seqs {

  /** No element occurs twice. */
  predicate NoDup<T(==)>(s: seq<T>)
  {
    forall i, j :: 0 <= i < j < |s| ==> s[i] != s[j]
  }

  /** Concatenation is associative; stated once so that callers need not rediscover it element by element. */
  lemma AppendAssoc<T>(a: seq<T>, b: seq<T>, c: seq<T>)
    ensures (a + b) + c == a + (b + c)
  {
  }

  /** A prefix one longer is the prefix followed by the next element. */
  lemma TakeSnoc<T>(s: seq<T>, i: nat)
    requires i < |s|
    ensures s[..i + 1] == s[..i] + [s[i]]
  {
  }

  /** The elements of `s` that also occur in `t`, in the order of `s`. */
  function Among<T(==)>(s: seq<T>, t: seq<T>): (r: seq<T>)
    ensures forall x :: x in r ==> x in s && x in t
    ensures forall x :: x in s && x in t ==> x in r
    ensures |r| <= |s|
    ensures NoDup(s) ==> NoDup(r)
    decreases |s|
  {
    if s == [] then []
    else
      var init, x := s[..|s| - 1], s[|s| - 1];
      assert s == init + [x];
      var r0 := Among(init, t);
      if x in t then r0 + [x] else r0
  }

  /** One more element of `s` is kept at the end exactly when it occurs in `t`. */
  lemma AmongSnoc<T>(s: seq<T>, x: T, t: seq<T>)
    ensures Among(s + [x], t) == Among(s, t) + if x in t then [x] else []
  {
    assert (s + [x])[..|s|] == s;
  }

  /** The elements of `s` that do not occur in `t`, in the order of `s`. */
  function Outside<T(==)>(s: seq<T>, t: seq<T>): (r: seq<T>)
    ensures forall x :: x in r ==> x in s && x !in t
    ensures forall x :: x in s && x !in t ==> x in r
    ensures |r| <= |s|
    ensures NoDup(s) ==> NoDup(r)
    decreases |s|
  {
    if s == [] then []
    else
      var init, x := s[..|s| - 1], s[|s| - 1];
      assert s == init + [x];
      var r0 := Outside(init, t);
      if x in t then r0 else r0 + [x]
  }

  /** One more element of `s` is kept at the end exactly when it does not occur in `t`. */
  lemma OutsideSnoc<T>(s: seq<T>, x: T, t: seq<T>)
    ensures Outside(s + [x], t) == Outside(s, t) + if x in t then [] else [x]
  {
    assert (s + [x])[..|s|] == s;
  }

  /** An element absent from `s` and `t` occurs once in `s + (t + [x])`. */
  lemma CountOnce<T>(s: seq<T>, t: seq<T>, x: T)
    requires x !in s && x !in t
    ensures multiset(s + (t + [x]))[x] == 1
  {
    assert multiset(s + (t + [x])) == multiset(s) + multiset(t) + multiset{x};
  }

  /** Splicing out an element before the last commutes with appending the last. */
  lemma SpliceSnoc<T>(init: seq<T>, x: T, i: nat)
    requires i < |init|
    ensures (init + [x])[..i] + (init + [x])[i + 1..] == (init[..i] + init[i + 1..]) + [x]
  {
    assert (init + [x])[..i] == init[..i];
    assert (init + [x])[i + 1..] == init[i + 1..] + [x];
  }

  /** Removing the element at `i` of a duplicate-free sequence is filtering that element out. */
  lemma {:induction false} SpliceIsFilter<T>(h: seq<T>, i: nat)
    requires NoDup(h) && i < |h|
    ensures h[..i] + h[i + 1..] == Outside(h, [h[i]])
    decreases |h|
  {
    var init, x := h[..|h| - 1], h[|h| - 1];
    assert h == init + [x];
    assert NoDup(init);
    OutsideSnoc(init, x, [h[i]]);
    if i == |h| - 1 {
      assert h[i + 1..] == [] && h[..i] == init;
      assert x !in init;
      OutsideMissing(init, x);
    } else {
      SpliceIsFilter(init, i);
      assert init[i] == h[i] && x != h[i];
      SpliceSnoc(init, x, i);
    }
  }

  /** Filtering out an element that is not there changes nothing. */
  lemma {:induction false} OutsideMissing<T>(h: seq<T>, r: T)
    requires r !in h
    ensures Outside(h, [r]) == h
    decreases |h|
  {
    if h != [] {
      var init, x := h[..|h| - 1], h[|h| - 1];
      assert h == init + [x];
      OutsideMissing(init, r);
    }
  }

  /** Nothing is among the empty sequence. */
  lemma {:induction false} AmongNothing<T>(s: seq<T>)
    ensures Among(s, []) == []
    decreases |s|
  {
    if s != [] {
      AmongNothing(s[..|s| - 1]);
    }
  }

  /** Everything is outside the empty sequence. */
  lemma {:induction false} OutsideNothing<T>(s: seq<T>)
    ensures Outside(s, []) == s
    decreases |s|
  {
    if s != [] {
      var init, x := s[..|s| - 1], s[|s| - 1];
      assert s == init + [x];
      OutsideNothing(init);
    }
  }

  /** Every element of `s` lands in exactly one of the two filters. */
  lemma {:induction false} AmongOutsidePartition<T>(s: seq<T>, t: seq<T>)
    ensures multiset(Among(s, t)) + multiset(Outside(s, t)) == multiset(s)
    decreases |s|
  {
    if s != [] {
      var init, x := s[..|s| - 1], s[|s| - 1];
      assert s == init + [x];
      AmongOutsidePartition(init, t);
    }
  }

  /** In a duplicate-free sequence every element occurs exactly once. */
  lemma {:induction false} NoDupCount<T>(s: seq<T>, x: T)
    requires NoDup(s)
    ensures multiset(s)[x] == if x in s then 1 else 0
    decreases |s|
  {
    if s != [] {
      var init, y := s[..|s| - 1], s[|s| - 1];
      assert s == init + [y];
      assert NoDup(init);
      NoDupCount(init, x);
      assert y !in init;
    }
  }

  /** Two duplicate-free sequences with no common element concatenate to a duplicate-free one. */
  lemma NoDupAppend<T>(s: seq<T>, t: seq<T>)
    requires NoDup(s) && NoDup(t)
    requires forall x :: x in s ==> x !in t
    ensures NoDup(s + t)
  {
    forall i, j | 0 <= i < j < |s + t|
      ensures (s + t)[i] != (s + t)[j]
    {
      if j < |s| {
      } else if i >= |s| {
        assert (s + t)[i] == t[i - |s|] && (s + t)[j] == t[j - |s|];
      } else {
        assert (s + t)[i] == s[i] && (s + t)[j] == t[j - |s|];
        assert s[i] in s && t[j - |s|] in t;
      }
    }
  }

  /** Two duplicate-free sequences with the same elements are rearrangements of each other. */
  lemma NoDupSameElements<T>(s: seq<T>, t: seq<T>)
    requires NoDup(s) && NoDup(t)
    requires forall x :: x in s ==> x in t
    requires forall x :: x in t ==> x in s
    ensures multiset(s) == multiset(t)
  {
    forall x ensures multiset(s)[x] == multiset(t)[x] {
      NoDupCount(s, x);
      NoDupCount(t, x);
    }
  }
}
