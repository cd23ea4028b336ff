/** Sequence operations that the circuit code borrows from JavaScript arrays:
    `indexOf` (strict equality, first occurrence, -1 when absent) and
    `splice(i, 1)` guarded by `i > -1`, which removes one element in place. */
module Seqs {

  /** The position of the first occurrence of `x` in `s`, or -1. */
  function IndexOf<T(==)>(s: seq<T>, x: T): (i: int)
    ensures -1 <= i < |s|
    ensures i == -1 <==> x !in s
    ensures 0 <= i ==> s[i] == x && x !in s[..i]
  {
    if s == [] then -1
    else if s[0] == x then 0
    else
      var k := IndexOf(s[1..], x);
      if k == -1 then -1
      else
        assert s[..k + 1] == [s[0]] + s[1..][..k];
        k + 1
  }

  /** `s` with its first occurrence of `x` spliced out; `s` itself when `x` is absent. */
  function RemoveFirst<T(==)>(s: seq<T>, x: T): (r: seq<T>)
    ensures x !in s ==> r == s
    ensures x in s ==> |r| == |s| - 1
  {
    var i := IndexOf(s, x);
    if i > -1 then s[..i] + s[i + 1..] else s
  }

  /** Removing the first occurrence takes exactly one copy of `x` out of the
      multiset of elements and leaves every other element's count alone. */
  lemma RemoveFirstCount<T>(s: seq<T>, x: T)
    ensures multiset(RemoveFirst(s, x)) == multiset(s) - multiset{x}
  {
    if x in s {
      var i := IndexOf(s, x);
      SplitAt(s, i);
    }
  }

  /** When `x` occurs at most once, removing it leaves exactly the other elements. */
  lemma RemoveFirstMembers<T>(s: seq<T>, x: T)
    requires multiset(s)[x] <= 1
    ensures forall y :: y in RemoveFirst(s, x) <==> y in s && y != x
  {
    if x in s {
      var i := IndexOf(s, x);
      SplitAt(s, i);
      assert multiset(s[..i] + s[i + 1..])[x] == 0;
    }
  }

  /** Removing `x` leaves the count of every other element alone. */
  lemma RemoveFirstOthers<T>(s: seq<T>, x: T)
    ensures forall y :: y != x ==> multiset(RemoveFirst(s, x))[y] == multiset(s)[y]
  {
    RemoveFirstCount(s, x);
  }

  /** `s` is what comes before position `i`, the element there, and what comes after. */
  lemma SplitAt<T>(s: seq<T>, i: int)
    requires 0 <= i < |s|
    ensures s == s[..i] + [s[i]] + s[i + 1..]
    ensures multiset(s) == multiset(s[..i] + s[i + 1..]) + multiset{s[i]}
  {
    assert s == s[..i] + [s[i]] + s[i + 1..];
  }

  /** Appending an element that was absent and then removing it gives back the original sequence. */
  lemma {:induction false} RemoveFirstAppend<T>(s: seq<T>, x: T)
    requires x !in s
    ensures RemoveFirst(s + [x], x) == s
  {
    var i := IndexOf(s + [x], x);
    assert i == |s|;
    assert (s + [x])[..i] == s;
  }

  /** Appending two copies of an absent element and removing it twice gives back the original sequence. */
  lemma {:induction false} RemoveFirstTwiceAppend<T>(s: seq<T>, x: T)
    requires x !in s
    ensures RemoveFirst(RemoveFirst(s + [x] + [x], x), x) == s
  {
    calc {
      RemoveFirst((s + [x]) + [x], x);
      { var i := IndexOf((s + [x]) + [x], x);
        assert ((s + [x]) + [x])[|s|] == x;
        assert i == |s|;
        assert ((s + [x]) + [x])[..i] == s;
        assert ((s + [x]) + [x])[i + 1..] == [x]; }
      s + [x];
    }
    RemoveFirstAppend(s, x);
  }

  /** Appending an element other than `x` commutes with removing `x`. */
  lemma RemoveFirstAppendOther<T>(s: seq<T>, x: T, y: T)
    requires x != y
    ensures RemoveFirst(s + [y], x) == RemoveFirst(s, x) + [y]
  {
    var i, j := IndexOf(s + [y], x), IndexOf(s, x);
    assert (s + [y])[|s|] == y;
    if j > -1 {
      assert (s + [y])[j] == x;
      assert s[..i] == (s + [y])[..i];
      assert (s + [y])[..j] == s[..j];
    }
  }
}
