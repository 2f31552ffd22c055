/**
 * The canonical form of a polycube (demo.cc, canonicalized): translated so that
 * its componentwise minimum sits at the origin, then sorted lexicographically.
 * Two block lists describe the same placed shape up to translation exactly when
 * their canonical forms are equal.
 */
module Canonical {
  import opened Geometry

  /** std::accumulate with glm::min from `acc` over `s`, left to right. */
  function MinFold(s: Blocks, acc: Vec3): (r: Vec3)
    ensures r.x <= acc.x && r.y <= acc.y && r.z <= acc.z
    ensures forall i :: 0 <= i < |s| ==> r.x <= s[i].x && r.y <= s[i].y && r.z <= s[i].z
    ensures r.x == acc.x || exists i :: 0 <= i < |s| && r.x == s[i].x
    ensures r.y == acc.y || exists i :: 0 <= i < |s| && r.y == s[i].y
    ensures r.z == acc.z || exists i :: 0 <= i < |s| && r.z == s[i].z
    decreases |s|
  {
    if s == [] then acc
    else
      var r := MinFold(s[1..], Min3(acc, s[0]));
      assert forall i :: 1 <= i < |s| ==> s[i] == s[1..][i - 1];
      r
  }

  /** The corner the shape is moved to the origin by: the minimum fold seeded with (IntMax, IntMax, IntMax). */
  function OriginOf(s: Blocks): Vec3 {
    MinFold(s, Vec3(IntMax, IntMax, IntMax))
  }

  /** Insert `p` into the sorted `s` at its ordered place. */
  function InsertSorted(p: Vec3, s: Blocks): (r: Blocks)
    requires Sorted(s)
    ensures Sorted(r)
    ensures multiset(r) == multiset(s) + multiset{p}
    ensures |r| == |s| + 1
    decreases |s|
  {
    if s == [] then [p]
    else if LexLe(p, s[0]) then
      assert forall i :: 0 <= i < |s| ==> LexLe(s[0], s[i]);
      [p] + s
    else
      var t := InsertSorted(p, s[1..]);
      assert s == [s[0]] + s[1..];
      AboveHead(p, s, t);
      SortedCons(s[0], t);
      [s[0]] + t
  }

  /** What is inserted after the head of a sorted list lies at or above that head. */
  lemma AboveHead(p: Vec3, s: Blocks, t: Blocks)
    requires Sorted(s) && s != [] && !LexLe(p, s[0])
    requires multiset(t) == multiset(s[1..]) + multiset{p}
    ensures forall i :: 0 <= i < |t| ==> LexLe(s[0], t[i])
  {
    forall i | 0 <= i < |t|
      ensures LexLe(s[0], t[i])
    {
      assert t[i] in multiset(t);
      if t[i] != p {
        assert t[i] in multiset(s[1..]);
        var j :| 0 <= j < |s[1..]| && s[1..][j] == t[i];
        assert s[j + 1] == t[i];
      }
    }
  }

  /** A sorted list with a head at or below all of it is sorted. */
  lemma SortedCons(x: Vec3, t: Blocks)
    requires Sorted(t) && forall i :: 0 <= i < |t| ==> LexLe(x, t[i])
    ensures Sorted([x] + t)
  {
    var r := [x] + t;
    forall i, j | 0 <= i < j < |r|
      ensures LexLe(r[i], r[j])
    {
      if i > 0 {
        assert r[i] == t[i - 1] && r[j] == t[j - 1];
      } else {
        assert r[j] == t[j - 1];
      }
    }
  }

  /** std::sort of the blocks with the lexicographic order. */
  function SortBlocks(s: Blocks): (r: Blocks)
    ensures Sorted(r)
    ensures multiset(r) == multiset(s)
    ensures |r| == |s|
    decreases |s|
  {
    if s == [] then []
    else
      assert s == [s[0]] + s[1..];
      InsertSorted(s[0], SortBlocks(s[1..]))
  }

  /** demo.cc canonicalized: shift the minimum corner to the origin, then sort. */
  function Canonicalized(s: Blocks): (r: Blocks)
    ensures |r| == |s|
    ensures Sorted(r)
    ensures multiset(r) == multiset(Shift(s, OriginOf(s)))
  {
    SortBlocks(Shift(s, OriginOf(s)))
  }

  /** Two non-empty sorted permutations of each other start with the same block. */
  lemma SortedSameHead(a: Blocks, b: Blocks)
    requires Sorted(a) && Sorted(b) && |a| > 0
    requires multiset(a) == multiset(b)
    ensures |b| > 0 && a[0] == b[0]
  {
    assert a[0] in multiset(b);
    var j :| 0 <= j < |b| && b[j] == a[0];
    assert b[0] in multiset(a);
    var i :| 0 <= i < |a| && a[i] == b[0];
    assert LexLe(b[0], b[j]);
    assert LexLe(a[0], a[i]);
    LexLeTotal(a[0], b[0]);
  }

  /** Dropping the first block of a sorted list leaves it sorted. */
  lemma SortedTail(a: Blocks)
    requires Sorted(a) && |a| > 0
    ensures Sorted(a[1..])
  {
    assert forall i :: 0 <= i < |a| - 1 ==> a[1..][i] == a[i + 1];
  }

  /** Two sorted lists with the same elements are equal: a sorted permutation is unique. */
  lemma {:induction false} SortedUnique(a: Blocks, b: Blocks)
    requires Sorted(a) && Sorted(b)
    requires multiset(a) == multiset(b)
    ensures a == b
    decreases |a|
  {
    if a == [] {
      assert |b| == |multiset(b)| == 0;
    } else {
      SortedSameHead(a, b);
      assert a == [a[0]] + a[1..];
      assert b == [b[0]] + b[1..];
      assert multiset(a) == multiset{a[0]} + multiset(a[1..]);
      assert multiset(b) == multiset{b[0]} + multiset(b[1..]);
      assert multiset(a[1..]) == multiset(a) - multiset{a[0]};
      assert multiset(b[1..]) == multiset(b) - multiset{b[0]};
      SortedTail(a);
      SortedTail(b);
      SortedUnique(a[1..], b[1..]);
    }
  }

  /** Sorting equal multisets gives equal results. */
  lemma SortPermutation(a: Blocks, b: Blocks)
    requires multiset(a) == multiset(b)
    ensures SortBlocks(a) == SortBlocks(b)
  {
    SortedUnique(SortBlocks(a), SortBlocks(b));
  }

  /** Sorting a sorted list changes nothing. */
  lemma SortIdempotent(s: Blocks)
    requires Sorted(s)
    ensures SortBlocks(s) == s
  {
    SortedUnique(SortBlocks(s), s);
  }

  /** The minimum corner of a non-empty shape whose coordinates are at most IntMax is the true minimum. */
  lemma OriginIsMinimum(s: Blocks)
    requires |s| > 0 && BelowIntMax(s)
    ensures forall i :: 0 <= i < |s| ==> OriginOf(s).x <= s[i].x && OriginOf(s).y <= s[i].y && OriginOf(s).z <= s[i].z
    ensures exists i :: 0 <= i < |s| && OriginOf(s).x == s[i].x
    ensures exists i :: 0 <= i < |s| && OriginOf(s).y == s[i].y
    ensures exists i :: 0 <= i < |s| && OriginOf(s).z == s[i].z
  {
    var o := OriginOf(s);
    if o.x == IntMax { assert o.x == s[0].x; }
    if o.y == IntMax { assert o.y == s[0].y; }
    if o.z == IntMax { assert o.z == s[0].z; }
  }

  /** Shapes with the same blocks, in any order, have the same minimum corner. */
  lemma OriginPermutation(a: Blocks, b: Blocks)
    requires multiset(a) == multiset(b)
    ensures OriginOf(a) == OriginOf(b)
  {
    var oa, ob := OriginOf(a), OriginOf(b);
    forall i | 0 <= i < |a| ensures a[i] in multiset(b) { }
    forall i | 0 <= i < |b| ensures b[i] in multiset(a) { }
    assert oa.x <= ob.x && ob.x <= oa.x;
    assert oa.y <= ob.y && ob.y <= oa.y;
    assert oa.z <= ob.z && ob.z <= oa.z;
  }

  /** The canonical form does not depend on the order the blocks are listed in. */
  lemma CanonicalPermutation(a: Blocks, b: Blocks)
    requires multiset(a) == multiset(b)
    ensures Canonicalized(a) == Canonicalized(b)
  {
    OriginPermutation(a, b);
    var o := OriginOf(a);
    MapBlocksPermutation(p => Sub(p, o), a, b);
    SortPermutation(Shift(a, o), Shift(b, o));
  }

  /** The canonical form lies in the non-negative octant and touches each of the three coordinate planes. */
  lemma CanonicalIsNormalized(s: Blocks)
    requires |s| > 0 && BelowIntMax(s)
    ensures forall i :: 0 <= i < |s| ==> Canonicalized(s)[i].x >= 0 && Canonicalized(s)[i].y >= 0 && Canonicalized(s)[i].z >= 0
    ensures exists i :: 0 <= i < |s| && Canonicalized(s)[i].x == 0
    ensures exists i :: 0 <= i < |s| && Canonicalized(s)[i].y == 0
    ensures exists i :: 0 <= i < |s| && Canonicalized(s)[i].z == 0
  {
    var c, o := Canonicalized(s), OriginOf(s);
    var t := Shift(s, o);
    OriginIsMinimum(s);
    forall i | 0 <= i < |s| ensures c[i].x >= 0 && c[i].y >= 0 && c[i].z >= 0 {
      assert c[i] in multiset(t);
    }
    var ix :| 0 <= ix < |s| && o.x == s[ix].x;
    var iy :| 0 <= iy < |s| && o.y == s[iy].y;
    var iz :| 0 <= iz < |s| && o.z == s[iz].z;
    assert t[ix] in multiset(c);
    assert t[iy] in multiset(c);
    assert t[iz] in multiset(c);
  }

  /** The minimum corner of an already normalized shape is the origin. */
  lemma OriginOfNormalized(c: Blocks)
    requires |c| > 0
    requires forall i :: 0 <= i < |c| ==> c[i].x >= 0 && c[i].y >= 0 && c[i].z >= 0
    requires exists i :: 0 <= i < |c| && c[i].x == 0
    requires exists i :: 0 <= i < |c| && c[i].y == 0
    requires exists i :: 0 <= i < |c| && c[i].z == 0
    ensures OriginOf(c) == Origin3
  {
  }

  /** Canonicalizing twice is the same as canonicalizing once. */
  lemma CanonicalIdempotent(s: Blocks)
    requires BelowIntMax(s)
    ensures Canonicalized(Canonicalized(s)) == Canonicalized(s)
  {
    var c := Canonicalized(s);
    if |s| > 0 {
      CanonicalIsNormalized(s);
      OriginOfNormalized(c);
      assert Shift(c, Origin3) == c;
      SortIdempotent(c);
    }
  }

  /** Translating a shape moves its minimum corner by the same amount. */
  lemma OriginTranslation(s: Blocks, t: Vec3)
    requires |s| > 0 && BelowIntMax(s) && BelowIntMax(Translate(s, t))
    ensures OriginOf(Translate(s, t)) == Add(OriginOf(s), t)
  {
    var m := Translate(s, t);
    OriginIsMinimum(s);
    OriginIsMinimum(m);
    var o, om := OriginOf(s), OriginOf(m);
    var ix :| 0 <= ix < |s| && o.x == s[ix].x;
    var jx :| 0 <= jx < |s| && om.x == m[jx].x;
    assert om.x == o.x + t.x by { assert om.x <= m[ix].x; assert o.x <= s[jx].x; }
    var iy :| 0 <= iy < |s| && o.y == s[iy].y;
    var jy :| 0 <= jy < |s| && om.y == m[jy].y;
    assert om.y == o.y + t.y by { assert om.y <= m[iy].y; assert o.y <= s[jy].y; }
    var iz :| 0 <= iz < |s| && o.z == s[iz].z;
    var jz :| 0 <= jz < |s| && om.z == m[jz].z;
    assert om.z == o.z + t.z by { assert om.z <= m[iz].z; assert o.z <= s[jz].z; }
  }

  /** Translating a shape does not change its canonical form. */
  lemma CanonicalTranslation(s: Blocks, t: Vec3)
    requires BelowIntMax(s) && BelowIntMax(Translate(s, t))
    ensures Canonicalized(Translate(s, t)) == Canonicalized(s)
  {
    var m := Translate(s, t);
    if |s| > 0 {
      OriginTranslation(s, t);
      var o := OriginOf(s);
      forall i | 0 <= i < |s| ensures Shift(m, OriginOf(m))[i] == Shift(s, o)[i] { }
      assert Shift(m, OriginOf(m)) == Shift(s, o);
    }
  }
}
