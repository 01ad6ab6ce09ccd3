/** The least and greatest element of a finite set of integers, and its ascending
    enumeration: the specification of the sort of the weekly progress by week, and (through
    `Greatest`) of the merge's sort by date, newest first. */
module Sorted {

  /** The smallest element of a non-empty finite set. */
  ghost function Least(s: set<int>): (m: int)
    requires s != {}
    ensures m in s && forall j :: j in s ==> m <= j
    decreases s
  {
    assert exists x :: x in s by {
      if forall x :: x !in s { assert false; }
    }
    var x :| x in s;
    if s == {x} then x
    else
      var r := Least(s - {x});
      assert forall j :: j in s ==> j == x || j in s - {x};
      if x < r then x else r
  }

  /** The largest element of a non-empty finite set. */
  ghost function Greatest(s: set<int>): (m: int)
    requires s != {}
    ensures m in s && forall j :: j in s ==> j <= m
    decreases s
  {
    assert exists x :: x in s by {
      if forall x :: x !in s { assert false; }
    }
    var x :| x in s;
    if s == {x} then x
    else
      var r := Greatest(s - {x});
      assert forall j :: j in s ==> j == x || j in s - {x};
      if x > r then x else r
  }

  ghost predicate StrictlyIncreasing(r: seq<int>) {
    forall i, j :: 0 <= i < j < |r| ==> r[i] < r[j]
  }

  /** The elements of `s`, smallest first. */
  ghost function Ascending(s: set<int>): seq<int>
    decreases s
  {
    if s == {} then []
    else
      var k := Least(s);
      [k] + Ascending(s - {k})
  }

  /** `Ascending(s)` has one position per element of `s`. */
  lemma {:induction false} AscendingLength(s: set<int>)
    ensures |Ascending(s)| == |s|
    decreases s
  {
    if s != {} {
      var k := Least(s);
      AscendingLength(s - {k});
      assert |s - {k}| == |s| - 1;
    }
  }

  /** `Ascending(s)` holds exactly the elements of `s`. */
  lemma {:induction false} AscendingElements(s: set<int>)
    ensures forall x :: x in Ascending(s) <==> x in s
    decreases s
  {
    if s != {} {
      var k := Least(s);
      AscendingElements(s - {k});
      var t := Ascending(s - {k});
      assert Ascending(s) == [k] + t;
      forall x ensures x in Ascending(s) <==> x in s {
        assert x in [k] + t <==> x == k || x in t;
      }
    }
  }

  /** `Ascending(s)` is strictly increasing. */
  lemma {:induction false} AscendingIncreasing(s: set<int>)
    ensures StrictlyIncreasing(Ascending(s))
    decreases s
  {
    if s != {} {
      var k := Least(s);
      AscendingIncreasing(s - {k});
      AscendingElements(s - {k});
      var t := Ascending(s - {k});
      var r := Ascending(s);
      assert r == [k] + t;
      forall i, j | 0 <= i < j < |r| ensures r[i] < r[j] {
        assert r[j] == t[j - 1] && t[j - 1] in s - {k};
        if i > 0 {
          assert r[i] == t[i - 1];
        }
      }
    }
  }

  /** `Ascending(s)` lists exactly the elements of `s`, each once, in increasing order. */
  lemma AscendingSpec(s: set<int>)
    ensures |Ascending(s)| == |s|
    ensures StrictlyIncreasing(Ascending(s))
    ensures forall x :: x in Ascending(s) <==> x in s
  {
    AscendingLength(s);
    AscendingElements(s);
    AscendingIncreasing(s);
  }

  /** A strictly increasing sequence is determined by its set of elements. */
  lemma {:induction false} IncreasingUnique(a: seq<int>, b: seq<int>)
    requires StrictlyIncreasing(a) && StrictlyIncreasing(b)
    requires forall x :: x in a <==> x in b
    ensures a == b
    decreases |a|
  {
    assert a != [] ==> a[0] in a && a[0] in b;
    assert b != [] ==> b[0] in b && b[0] in a;
    if a != [] && b != [] {
      assert a[0] in a && b[0] in b;
      assert a[0] in b && b[0] in a;
      assert a[0] == b[0];
      forall x ensures x in a[1..] <==> x in b[1..] {
        if x in a[1..] {
          assert x > a[0];
          assert x in b;
        }
        if x in b[1..] {
          assert x > b[0];
          assert x in a;
        }
      }
      IncreasingUnique(a[1..], b[1..]);
      assert a == [a[0]] + a[1..];
      assert b == [b[0]] + b[1..];
    }
  }
}
