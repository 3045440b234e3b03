/** Small value wrappers shared by the tracker modules. */
module Wrappers {

  /** A value that may be absent (Python's `None`). */
  datatype Option<+T> = None | Some(value: T)

  /** A real number extended with positive infinity (Python's `float("inf")`). */
  datatype Extended = Finite(value: real) | Infinity {

    /** `r < this`, reading Infinity as larger than every real. */
    predicate Exceeds(r: real) {
      Infinity? || r < value
    }

    /** `this <= r`, reading Infinity as larger than every real. */
    predicate AtMost(r: real) {
      Finite? && value <= r
    }
  }

  function Max(a: int, b: int): int { if a >= b then a else b }

  function Min(a: int, b: int): int { if a <= b then a else b }

  /** Strictly increasing sequences of integers (sorted, no duplicates). */
  ghost predicate StrictlyIncreasing(s: seq<int>) {
    forall i, j :: 0 <= i < j < |s| ==> s[i] < s[j]
  }

  /** Sequences of integers without repetitions. */
  ghost predicate Distinct(s: seq<int>) {
    forall i, j :: 0 <= i < j < |s| ==> s[i] != s[j]
  }

  /** A non-empty finite set of integers has a least element. */
  lemma {:induction false} MinExists(s: set<int>)
    requires s != {}
    ensures exists m :: m in s && forall x :: x in s ==> m <= x
    decreases |s|
  {
    var y := PickOne(s);
    var rest := s - {y};
    if rest == {} {
      forall x | x in s ensures y <= x {
        assert x !in rest;
      }
    } else {
      MinExists(rest);
      var m :| m in rest && forall x :: x in rest ==> m <= x;
      var least := if y < m then y else m;
      forall x | x in s ensures least <= x {
        if x != y { assert x in rest; }
      }
      assert least in s;
    }
  }

  /** Some element of a non-empty set. */
  ghost function PickOne(s: set<int>): (y: int)
    requires s != {}
    ensures y in s
  {
    if forall y :: y !in s then assert false; 0
    else var y :| y in s; y
  }

  /** A non-empty set has an element to pick. */
  lemma {:induction false} HasElement(s: set<int>)
    requires s != {}
    ensures exists x :: x in s
  {
    var y := PickOne(s);
  }

  /** The least element of a non-empty set. */
  function MinOf(s: set<int>): (m: int)
    requires s != {}
    ensures m in s && forall x :: x in s ==> m <= x
  {
    MinExists(s);
    var m :| m in s && forall x :: x in s ==> m <= x;
    m
  }

  /**
   * The elements of `s` in ascending order.  This is the iteration order of a
   * Python dict whose integer keys were inserted in increasing order.
   */
  function SortedIds(s: set<int>): (r: seq<int>)
    ensures |r| == |s|
    ensures forall x :: x in r <==> x in s
    decreases |s|
  {
    if s == {} then []
    else
      var m := MinOf(s);
      [m] + SortedIds(s - {m})
  }

  /** `SortedIds` lists the elements in strictly ascending order. */
  lemma {:induction false} SortedIdsIncreasing(s: set<int>)
    ensures StrictlyIncreasing(SortedIds(s))
    decreases |s|
  {
    if s != {} {
      var m := MinOf(s);
      var rest := SortedIds(s - {m});
      SortedIdsIncreasing(s - {m});
      assert forall x :: x in rest ==> m < x;
      assert SortedIds(s) == [m] + rest;
    }
  }

  /** The set of elements of a sequence. */
  function Elements(s: seq<int>): (r: set<int>)
    ensures forall x :: x in r <==> x in s
  {
    set x | x in s
  }

  lemma {:induction false} IncreasingDistinct(s: seq<int>)
    requires StrictlyIncreasing(s)
    ensures Distinct(s)
  {
  }

  /** Visiting one more element of an increasing sequence adds a new element to the visited set. */
  lemma {:induction false} PrefixGrows(s: seq<int>, k: int)
    requires StrictlyIncreasing(s) && 0 <= k < |s|
    ensures s[k] !in Elements(s[..k])
    ensures Elements(s[..k + 1]) == Elements(s[..k]) + {s[k]}
  {
    assert s[..k + 1] == s[..k] + [s[k]];
  }

  /** The whole sequence visits every element. */
  lemma {:induction false} PrefixAll(s: seq<int>)
    ensures s[..|s|] == s
    ensures Elements(s[..|s|]) == Elements(s)
  {
  }

  /** A sequence whose elements all lie in `r` is empty when `r` is. */
  lemma {:induction false} WithinEmpty(s: seq<int>, r: set<int>)
    requires forall x :: x in s ==> x in r
    ensures s != [] ==> s[0] in r
    ensures r == {} ==> s == []
  {
    if s != [] {
      var y := s[0];
      assert y in s;
    }
  }
}
