/**
 * Rotation-invariant shape equality (demo.cc, sameShape): two block lists are
 * the same shape when one of the 24 table rotations of the right one has the
 * canonical form of the left one.
 */
module ShapeMatch {
  import opened Geometry
  import opened Canonical
  import opened CubeRotations

  /** Rotation k of `rhs` canonicalizes to `base`. */
  predicate MatchesUnder(base: Blocks, rhs: Blocks, k: nat)
    requires k < |Rotations|
  {
    base == Canonicalized(Rotated(rhs, Rotations[k]))
  }

  /** What sameShape decides: equal size, and some table rotation of `rhs` canonicalizes like `lhs`. */
  predicate Congruent(lhs: Blocks, rhs: Blocks) {
    |lhs| == |rhs| &&
    exists k :: 0 <= k < |Rotations| && MatchesUnder(Canonicalized(lhs), rhs, k)
  }

  /** demo.cc sameShape: try the table rotations in order, stopping at the first match. */
  method SameShape(lhs: Blocks, rhs: Blocks) returns (r: bool)
    ensures r == Congruent(lhs, rhs)
  {
    if |lhs| != |rhs| {
      return false;
    }
    var base := Canonicalized(lhs);
    for k := 0 to |Rotations|
      invariant NoMatchBelow(base, rhs, k)
    {
      if base == Canonicalized(Rotated(rhs, Rotations[k])) {
        assert MatchesUnder(base, rhs, k);
        return true;
      }
      NoMatchExtend(base, rhs, k);
    }
    return false;
  }

  /** None of the first k table rotations of `rhs` canonicalizes to `base`. */
  predicate NoMatchBelow(base: Blocks, rhs: Blocks, k: nat)
    requires k <= |Rotations|
  {
    forall j :: 0 <= j < k ==> !MatchesUnder(base, rhs, j)
  }

  lemma NoMatchExtend(base: Blocks, rhs: Blocks, k: nat)
    requires k < |Rotations| && NoMatchBelow(base, rhs, k)
    requires base != Canonicalized(Rotated(rhs, Rotations[k]))
    ensures NoMatchBelow(base, rhs, k + 1)
  {
  }

  /** Every shape is the same shape as itself, because the identity is in the table. */
  lemma CongruentReflexive(s: Blocks)
    ensures Congruent(s, s)
  {
    RotatedIdentity(s);
    assert MatchesUnder(Canonicalized(s), s, IdentityIndex);
  }

  /** Shifting by a corner below every block and within the bound keeps the shape within twice the bound. */
  lemma ShiftBelowWithin(s: Blocks, o: Vec3, bound: int)
    requires Within(s, bound)
    requires Abs(o.x) <= bound && Abs(o.y) <= bound && Abs(o.z) <= bound
    requires forall i :: 0 <= i < |s| ==> o.x <= s[i].x && o.y <= s[i].y && o.z <= s[i].z
    ensures Within(Shift(s, o), 2 * bound)
  {
  }

  /** Shifting a shape so that its minimum corner is the origin keeps it within twice the bound. */
  lemma ShiftToOriginWithin(s: Blocks, bound: int)
    requires |s| > 0 && 0 <= bound <= HalfRange && Within(s, bound)
    ensures Within(Shift(s, OriginOf(s)), 2 * bound)
  {
    WithinBelowIntMax(s, bound);
    OriginIsMinimum(s);
    var o := OriginOf(s);
    var ix :| 0 <= ix < |s| && o.x == s[ix].x;
    var iy :| 0 <= iy < |s| && o.y == s[iy].y;
    var iz :| 0 <= iz < |s| && o.z == s[iz].z;
    ShiftBelowWithin(s, o, bound);
  }

  /** Shifting by `o` is translating by `-o`. */
  lemma ShiftIsTranslate(s: Blocks, o: Vec3)
    ensures Shift(s, o) == Translate(s, Neg(o))
  {
    assert forall i :: 0 <= i < |s| ==> Shift(s, o)[i] == Translate(s, Neg(o))[i];
  }

  /** Rotating the canonical form canonicalizes like rotating the shape itself. */
  lemma RotateCanonical(s: Blocks, k: nat)
    requires k < |Rotations| && Within(s, HalfRange)
    ensures Canonicalized(Rotated(Canonicalized(s), Rotations[k])) == Canonicalized(Rotated(s, Rotations[k]))
  {
    if |s| > 0 {
      var m := Rotations[k];
      var o := OriginOf(s);
      var c := Canonicalized(s);
      var shifted := Shift(s, o);
      var rotated := Rotated(s, m);
      MapBlocksPermutation(p => Apply(m, p), c, shifted);
      CanonicalPermutation(Rotated(c, m), Rotated(shifted, m));
      RotatedShift(s, o, k);
      ShiftIsTranslate(rotated, Linear(m, o));
      assert Rotated(shifted, m) == Translate(rotated, Neg(Linear(m, o)));
      RotatedWithin(s, k, HalfRange);
      WithinBelowIntMax(rotated, HalfRange);
      ShiftToOriginWithin(s, HalfRange);
      RotatedWithin(shifted, k, 2 * HalfRange);
      WithinBelowIntMax(Rotated(shifted, m), 2 * HalfRange);
      CanonicalTranslation(rotated, Neg(Linear(m, o)));
    }
  }

  /** sameShape is symmetric on shapes whose coordinates stay within half the int range. */
  lemma CongruentSymmetric(a: Blocks, b: Blocks)
    requires Within(a, HalfRange) && Within(b, HalfRange)
    requires Congruent(a, b)
    ensures Congruent(b, a)
  {
    var k :| 0 <= k < |Rotations| && MatchesUnder(Canonicalized(a), b, k);
    var j := Inverse[k];
    var bk := Rotated(b, Rotations[k]);
    RotatedInverse(b, k);
    RotatedWithin(b, k, HalfRange);
    RotateCanonical(a, j);
    RotateCanonical(bk, j);
    assert Canonicalized(a) == Canonicalized(bk);
    assert Canonicalized(Rotated(a, Rotations[j])) == Canonicalized(Rotated(bk, Rotations[j]));
    assert MatchesUnder(Canonicalized(b), a, j);
  }

  /** A rotated copy of a shape is the same shape as the original, in both argument orders. */
  lemma CongruentRotated(s: Blocks, k: nat)
    requires k < |Rotations| && Within(s, HalfRange)
    ensures Congruent(Rotated(s, Rotations[k]), s)
    ensures Congruent(s, Rotated(s, Rotations[k]))
  {
    assert MatchesUnder(Canonicalized(Rotated(s, Rotations[k])), s, k);
    RotatedWithin(s, k, HalfRange);
    CongruentSymmetric(Rotated(s, Rotations[k]), s);
  }

  /** A translated copy of a shape is the same shape as the original. */
  lemma CongruentTranslated(s: Blocks, t: Vec3)
    requires BelowIntMax(s) && BelowIntMax(Translate(s, t))
    ensures Congruent(s, Translate(s, t))
  {
    RotatedIdentity(Translate(s, t));
    CanonicalTranslation(s, t);
    assert MatchesUnder(Canonicalized(s), Translate(s, t), IdentityIndex);
  }
}
