/** Facts about finite sets, stated for any element type. */
module Sets {

  /** The naturals below n. */
  function Below(n: nat): (s: set<int>)
    ensures forall k :: k in s <==> 0 <= k < n
  {
    if n == 0 then {} else Below(n - 1) + {n - 1}
  }

  lemma {:induction false} BelowSize(n: nat)
    ensures |Below(n)| == n
  {
    if n > 0 {
      BelowSize(n - 1);
    }
  }

  lemma Pick<T>(s: set<T>) returns (x: T)
    requires s != {}
    ensures x in s
  {
    x :| x in s;
  }

  lemma PickOutside<T>(s: set<T>, t: set<T>) returns (x: T)
    requires t < s
    ensures x in s && x !in t
  {
    x :| x in s && x !in t;
  }

  lemma Extensional<T>(s: set<T>, t: set<T>)
    requires forall x :: x in s <==> x in t
    ensures s == t
  {
  }

  lemma Subset<T>(s: set<T>, t: set<T>)
    requires forall x :: x in s ==> x in t
    ensures s <= t
  {
  }

  lemma DisjointSizes<T>(s: set<T>, t: set<T>, u: set<T>)
    requires s <= u && t <= u
    requires forall x :: x in s ==> x !in t
    ensures |s| + |t| <= |u|
  {
    assert |s + t| == |s| + |t|;
    SubsetSize(s + t, u);
  }

  lemma PickOther<T>(s: set<T>, x: T) returns (y: T)
    requires |s| > 1
    ensures y in s && y != x
  {
    if x in s {
      assert |s - {x}| == |s| - 1;
      y := Pick(s - {x});
    } else {
      y := Pick(s);
    }
  }

  lemma PickCommon<T>(s: set<T>, t: set<T>) returns (x: T)
    requires !(s !! t)
    ensures x in s && x in t
  {
    x :| x in s && x in t;
  }

  lemma ThreeOf<T>(s: set<T>, x: T, y: T, z: T)
    requires x in s && y in s && z in s && x != y && y != z && x != z
    ensures |s| >= 3
  {
    assert |{x, y, z}| == 3;
    SubsetSize({x, y, z}, s);
  }

  lemma SubsetSize<T>(s: set<T>, t: set<T>)
    requires s <= t
    ensures |s| <= |t|
    ensures |s| == |t| ==> s == t
  {
    assert s + (t - s) == t;
  }
}

/** The built-in `sorted` on a finite set of integers. */
module Sorting {
  import opened Sets

  ghost predicate IsMin(s: set<int>, m: int) {
    m in s && forall x :: x in s ==> m <= x
  }

  lemma MinExists(s: set<int>)
    requires s != {}
    ensures exists m :: IsMin(s, m)
  {
    var m := Pick(s);
    if s == {m} {
      assert IsMin(s, m);
    } else {
      MinExists(s - {m});
      var k :| IsMin(s - {m}, k);
      assert forall x :: x in s ==> x == m || x in s - {m};
      assert IsMin(s, if k < m then k else m);
    }
  }

  function Min(s: set<int>): (m: int)
    requires s != {}
    ensures m in s && forall x :: x in s ==> m <= x
  {
    MinExists(s);
    assert exists m :: m in s && forall x :: x in s ==> m <= x by {
      var k :| IsMin(s, k);
    }
    var m :| m in s && forall x :: x in s ==> m <= x;
    m
  }

  function Sorted(s: set<int>): (r: seq<int>)
    ensures |r| == |s|
    ensures forall x :: x in r <==> x in s
    ensures forall i, j :: 0 <= i < j < |r| ==> r[i] < r[j]
    decreases |s|
  {
    if s == {} then [] else
      var m := Min(s);
      [m] + Sorted(s - {m})
  }
}
