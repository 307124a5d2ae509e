/**
 * Descending enumeration of a finite set of integers: the row order that the
 * store's `ORDER BY tweetid DESC` queries deliver.
 */
module Ordering {

  /** Every element is larger than every element after it. */
  predicate StrictlyDecreasing(xs: seq<int>)
  {
    forall i, j :: 0 <= i < j < |xs| ==> xs[i] > xs[j]
  }

  /** Some element of a non-empty set, as a witness for `:|` over it. */
  lemma Element<T>(s: set<T>) returns (x: T)
    requires s != {}
    ensures x in s
  {
    if forall y :: y !in s {
      assert false;
    }
    x :| x in s;
  }

  ghost predicate IsMax(m: int, s: set<int>)
  {
    m in s && forall x :: x in s ==> x <= m
  }

  lemma MaxExists(s: set<int>)
    requires s != {}
    ensures exists m :: IsMax(m, s)
    decreases |s|
  {
    var x := Element(s);
    if s == {x} {
      assert IsMax(x, s);
    } else {
      var rest := s - {x};
      MaxExists(rest);
      var m :| IsMax(m, rest);
      var top := if m < x then x else m;
      forall y | y in s ensures y <= top {
        if y != x {
          assert y in rest;
        }
      }
      assert IsMax(top, s);
    }
  }

  /** The largest element of a non-empty set. */
  ghost function Max(s: set<int>): (m: int)
    requires s != {}
    ensures IsMax(m, s)
  {
    MaxExists(s);
    var m :| IsMax(m, s); m
  }

  /** The elements of `s`, largest first. */
  ghost function SortedDesc(s: set<int>): seq<int>
    decreases |s|
  {
    if s == {} then [] else
      var m := Max(s);
      [m] + SortedDesc(s - {m})
  }

  /** A descending enumeration lists each element of the set exactly once, largest first. */
  lemma {:induction false} SortedDescSpec(s: set<int>)
    ensures |SortedDesc(s)| == |s|
    ensures StrictlyDecreasing(SortedDesc(s))
    ensures forall x :: x in SortedDesc(s) <==> x in s
    ensures forall i :: 0 <= i < |SortedDesc(s)| ==> SortedDesc(s)[i] in s
    decreases |s|
  {
    if s != {} {
      var m := Max(s);
      SortedDescSpec(s - {m});
      var r := SortedDesc(s - {m});
      assert SortedDesc(s) == [m] + r;
      forall i, j | 0 <= i < j < |SortedDesc(s)|
        ensures SortedDesc(s)[i] > SortedDesc(s)[j]
      {
        if i > 0 {
          assert SortedDesc(s)[i] == r[i - 1];
        } else {
          assert r[j - 1] in s - {m};
        }
      }
    }
  }

  /** Any strictly decreasing listing of exactly the elements of `s` is `SortedDesc(s)`. */
  lemma {:induction false} SortedDescUnique(s: set<int>, xs: seq<int>)
    requires StrictlyDecreasing(xs)
    requires forall x :: x in xs <==> x in s
    ensures xs == SortedDesc(s)
    decreases |xs|
  {
    if xs == [] {
      if s != {} {
        var x := Element(s);
        assert false;
      }
    } else {
      HeadIsMax(s, xs);
      SortedDescStep(s, xs[0]);
      TailListsRest(s, xs);
      SortedDescUnique(s - {xs[0]}, xs[1..]);
    }
  }

  lemma HeadIsMax(s: set<int>, xs: seq<int>)
    requires xs != [] && StrictlyDecreasing(xs)
    requires forall x :: x in xs <==> x in s
    ensures xs[0] in s && forall x :: x in s ==> x <= xs[0]
  {
    assert xs[0] in xs;
    forall x | x in s ensures x <= xs[0] {
      var k :| 0 <= k < |xs| && xs[k] == x;
    }
  }

  lemma TailListsRest(s: set<int>, xs: seq<int>)
    requires xs != [] && StrictlyDecreasing(xs)
    requires forall x :: x in xs <==> x in s
    ensures StrictlyDecreasing(xs[1..])
    ensures forall x :: x in xs[1..] <==> x in s - {xs[0]}
  {
    var rest := xs[1..];
    forall x ensures x in rest <==> x in s - {xs[0]} {
      if x in rest {
        var k :| 0 <= k < |rest| && rest[k] == x;
        assert xs[k + 1] == x;
      }
      if x in s - {xs[0]} {
        var k :| 0 <= k < |xs| && xs[k] == x;
        assert rest[k - 1] == x;
      }
    }
  }

  /** One step of the enumeration: its head is the maximum and its tail enumerates the rest. */
  lemma SortedDescStep(s: set<int>, k: int)
    requires k in s && forall x :: x in s ==> x <= k
    ensures SortedDesc(s) == [k] + SortedDesc(s - {k})
  {
    var m := Max(s);
    assert m <= k && k <= m;
  }
}
