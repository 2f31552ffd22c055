/**
 * The 24 proper rotations of the cube (demo.cc, Rotations) as glm integer
 * 4x4 matrices, and `rotated`, which applies one of them to every block.
 * glm stores matrices by columns: the four vectors of each table entry are
 * the columns c0..c3, and M * v = c0 * v.x + c1 * v.y + c2 * v.z + c3 * v.w.
 */
module CubeRotations {
  import opened Geometry

  datatype IVec4 = IVec4(x: int, y: int, z: int, w: int)

  /** A glm::imat4x4, column by column. */
  datatype IMat4 = IMat4(c0: IVec4, c1: IVec4, c2: IVec4, c3: IVec4)

  /** A table entry: three columns and the fixed homogeneous column (0, 0, 0, 1). */
  function M(a: IVec4, b: IVec4, c: IVec4): IMat4 { IMat4(a, b, c, IVec4(0, 0, 0, 1)) }

  function V(x: int, y: int, z: int): IVec4 { IVec4(x, y, z, 0) }

  /** The rotation table of demo.cc, in the source's order. */
  const Rotations: seq<IMat4> := [
    M(V(0, 0, -1), V(0, -1, 0), V(-1, 0, 0)),
    M(V(0, 0, -1), V(0, 1, 0), V(1, 0, 0)),
    M(V(0, 0, 1), V(0, -1, 0), V(1, 0, 0)),
    M(V(0, 0, 1), V(0, 1, 0), V(-1, 0, 0)),
    M(V(0, 0, -1), V(-1, 0, 0), V(0, 1, 0)),
    M(V(0, 0, -1), V(1, 0, 0), V(0, -1, 0)),
    M(V(0, 0, 1), V(-1, 0, 0), V(0, -1, 0)),
    M(V(0, 0, 1), V(1, 0, 0), V(0, 1, 0)),
    M(V(0, -1, 0), V(0, 0, -1), V(1, 0, 0)),
    M(V(0, -1, 0), V(0, 0, 1), V(-1, 0, 0)),
    M(V(0, 1, 0), V(0, 0, -1), V(-1, 0, 0)),
    M(V(0, 1, 0), V(0, 0, 1), V(1, 0, 0)),
    M(V(0, -1, 0), V(-1, 0, 0), V(0, 0, -1)),
    M(V(0, -1, 0), V(1, 0, 0), V(0, 0, 1)),
    M(V(0, 1, 0), V(-1, 0, 0), V(0, 0, 1)),
    M(V(0, 1, 0), V(1, 0, 0), V(0, 0, -1)),
    M(V(-1, 0, 0), V(0, 0, -1), V(0, -1, 0)),
    M(V(-1, 0, 0), V(0, 0, 1), V(0, 1, 0)),
    M(V(1, 0, 0), V(0, 0, -1), V(0, 1, 0)),
    M(V(1, 0, 0), V(0, 0, 1), V(0, -1, 0)),
    M(V(-1, 0, 0), V(0, -1, 0), V(0, 0, 1)),
    M(V(-1, 0, 0), V(0, 1, 0), V(0, 0, -1)),
    M(V(1, 0, 0), V(0, -1, 0), V(0, 0, -1)),
    M(V(1, 0, 0), V(0, 1, 0), V(0, 0, 1))]

  /** Index of the identity in the table. */
  const IdentityIndex: nat := 23

  /** For each entry j, the index of the entry that undoes it. */
  const Inverse: seq<nat> := [0, 3, 2, 1, 9, 10, 8, 11, 6, 4, 5, 7, 12, 14, 13, 15, 16, 17, 19, 18, 20, 21, 22, 23]

  /** glm's matrix-vector product on integers. */
  function MulVec(m: IMat4, v: IVec4): IVec4 {
    IVec4(m.c0.x * v.x + m.c1.x * v.y + m.c2.x * v.z + m.c3.x * v.w,
          m.c0.y * v.x + m.c1.y * v.y + m.c2.y * v.z + m.c3.y * v.w,
          m.c0.z * v.x + m.c1.z * v.y + m.c2.z * v.z + m.c3.z * v.w,
          m.c0.w * v.x + m.c1.w * v.y + m.c2.w * v.z + m.c3.w * v.w)
  }

  /** `rotation * glm::ivec4(p, 1)`, truncated back to an ivec3. */
  function Apply(m: IMat4, p: Vec3): Vec3 {
    var r := MulVec(m, IVec4(p.x, p.y, p.z, 1));
    Vec3(r.x, r.y, r.z)
  }

  /** The upper-left 3x3 block of `m` applied to `p`. */
  function Linear(m: IMat4, p: Vec3): Vec3 {
    Vec3(m.c0.x * p.x + m.c1.x * p.y + m.c2.x * p.z,
         m.c0.y * p.x + m.c1.y * p.y + m.c2.y * p.z,
         m.c0.z * p.x + m.c1.z * p.y + m.c2.z * p.z)
  }

  /** Determinant of the upper-left 3x3 block. */
  function Det3(m: IMat4): int {
    m.c0.x * (m.c1.y * m.c2.z - m.c2.y * m.c1.z)
    - m.c1.x * (m.c0.y * m.c2.z - m.c2.y * m.c0.z)
    + m.c2.x * (m.c0.y * m.c1.z - m.c1.y * m.c0.z)
  }

  predicate Unit(a: int) { a == -1 || a == 0 || a == 1 }

  /** The translation column is zero. */
  predicate NoTranslation(m: IMat4) { m.c3.x == 0 && m.c3.y == 0 && m.c3.z == 0 }

  /**
   * A proper rotation of the cube in homogeneous form: the linear block is a
   * signed permutation matrix (one entry of +1 or -1 in every row and column)
   * with determinant +1, and the last column and row are those of the identity.
   */
  predicate IsProperRotation(m: IMat4) {
    m.c3 == IVec4(0, 0, 0, 1) && m.c0.w == 0 && m.c1.w == 0 && m.c2.w == 0 &&
    Unit(m.c0.x) && Unit(m.c0.y) && Unit(m.c0.z) &&
    Unit(m.c1.x) && Unit(m.c1.y) && Unit(m.c1.z) &&
    Unit(m.c2.x) && Unit(m.c2.y) && Unit(m.c2.z) &&
    Abs(m.c0.x) + Abs(m.c0.y) + Abs(m.c0.z) == 1 &&
    Abs(m.c1.x) + Abs(m.c1.y) + Abs(m.c1.z) == 1 &&
    Abs(m.c2.x) + Abs(m.c2.y) + Abs(m.c2.z) == 1 &&
    Abs(m.c0.x) + Abs(m.c1.x) + Abs(m.c2.x) == 1 &&
    Abs(m.c0.y) + Abs(m.c1.y) + Abs(m.c2.y) == 1 &&
    Abs(m.c0.z) + Abs(m.c1.z) + Abs(m.c2.z) == 1 &&
    Det3(m) == 1
  }

  /** demo.cc rotated: every block mapped by the matrix, in order. */
  function Rotated(shape: Blocks, m: IMat4): (r: Blocks)
    ensures |r| == |shape|
    ensures NoTranslation(m) ==> forall i :: 0 <= i < |shape| ==> r[i] == Linear(m, shape[i])
  {
    MapBlocks(p => Apply(m, p), shape)
  }

  lemma ProperFirstSixth()
    ensures forall k :: 0 <= k < 4 ==> IsProperRotation(Rotations[k])
  {
  }

  lemma ProperSecondSixth()
    ensures forall k :: 4 <= k < 8 ==> IsProperRotation(Rotations[k])
  {
  }

  lemma ProperThirdSixth()
    ensures forall k :: 8 <= k < 12 ==> IsProperRotation(Rotations[k])
  {
  }

  lemma ProperFourthSixth()
    ensures forall k :: 12 <= k < 16 ==> IsProperRotation(Rotations[k])
  {
  }

  lemma ProperFifthSixth()
    ensures forall k :: 16 <= k < 20 ==> IsProperRotation(Rotations[k])
  {
  }

  lemma ProperLastSixth()
    ensures forall k :: 20 <= k < 24 ==> IsProperRotation(Rotations[k])
  {
  }

  /** Every table entry is a proper rotation with zero translation. */
  lemma AllProper()
    ensures |Rotations| == 24
    ensures forall k :: 0 <= k < |Rotations| ==> IsProperRotation(Rotations[k]) && NoTranslation(Rotations[k])
  {
    ProperFirstSixth();
    ProperSecondSixth();
    ProperThirdSixth();
    ProperFourthSixth();
    ProperFifthSixth();
    ProperLastSixth();
  }

  /** The four proper rotations whose first column is +x; the lemmas after it do the same for the other five axis directions. */
  lemma CompleteWithPlusX(m: IMat4)
    requires IsProperRotation(m) && m.c0 == V(1, 0, 0)
    ensures
      m == M(V(1, 0, 0), V(0, 0, -1), V(0, 1, 0)) || m == M(V(1, 0, 0), V(0, 0, 1), V(0, -1, 0)) ||
      m == M(V(1, 0, 0), V(0, -1, 0), V(0, 0, -1)) || m == M(V(1, 0, 0), V(0, 1, 0), V(0, 0, 1))
  {
    if m.c1 == V(0, 0, -1) {
      assert m == M(V(1, 0, 0), V(0, 0, -1), m.c2);
      assert m.c2.x == 0 && m.c2.z == 0 && m.c2.w == 0;
      assert Det3(m) == m.c2.y;
      assert m == M(V(1, 0, 0), V(0, 0, -1), V(0, 1, 0));
    } else if m.c1 == V(0, 0, 1) {
      assert m == M(V(1, 0, 0), V(0, 0, 1), m.c2);
      assert m.c2.x == 0 && m.c2.z == 0 && m.c2.w == 0;
      assert Det3(m) == -m.c2.y;
      assert m == M(V(1, 0, 0), V(0, 0, 1), V(0, -1, 0));
    } else if m.c1 == V(0, -1, 0) {
      assert m == M(V(1, 0, 0), V(0, -1, 0), m.c2);
      assert m.c2.x == 0 && m.c2.y == 0 && m.c2.w == 0;
      assert Det3(m) == -m.c2.z;
      assert m == M(V(1, 0, 0), V(0, -1, 0), V(0, 0, -1));
    } else {
      assert m.c1 == V(0, 1, 0);
      assert m == M(V(1, 0, 0), V(0, 1, 0), m.c2);
      assert m.c2.x == 0 && m.c2.y == 0 && m.c2.w == 0;
      assert Det3(m) == m.c2.z;
      assert m == M(V(1, 0, 0), V(0, 1, 0), V(0, 0, 1));
    }
  }

  lemma CompleteWithMinusX(m: IMat4)
    requires IsProperRotation(m) && m.c0 == V(-1, 0, 0)
    ensures
      m == M(V(-1, 0, 0), V(0, 0, -1), V(0, -1, 0)) || m == M(V(-1, 0, 0), V(0, 0, 1), V(0, 1, 0)) ||
      m == M(V(-1, 0, 0), V(0, -1, 0), V(0, 0, 1)) || m == M(V(-1, 0, 0), V(0, 1, 0), V(0, 0, -1))
  {
    if m.c1 == V(0, 0, -1) {
      assert m == M(V(-1, 0, 0), V(0, 0, -1), m.c2);
      assert m.c2.x == 0 && m.c2.z == 0 && m.c2.w == 0;
      assert Det3(m) == -m.c2.y;
      assert m == M(V(-1, 0, 0), V(0, 0, -1), V(0, -1, 0));
    } else if m.c1 == V(0, 0, 1) {
      assert m == M(V(-1, 0, 0), V(0, 0, 1), m.c2);
      assert m.c2.x == 0 && m.c2.z == 0 && m.c2.w == 0;
      assert Det3(m) == m.c2.y;
      assert m == M(V(-1, 0, 0), V(0, 0, 1), V(0, 1, 0));
    } else if m.c1 == V(0, -1, 0) {
      assert m == M(V(-1, 0, 0), V(0, -1, 0), m.c2);
      assert m.c2.x == 0 && m.c2.y == 0 && m.c2.w == 0;
      assert Det3(m) == m.c2.z;
      assert m == M(V(-1, 0, 0), V(0, -1, 0), V(0, 0, 1));
    } else {
      assert m.c1 == V(0, 1, 0);
      assert m == M(V(-1, 0, 0), V(0, 1, 0), m.c2);
      assert m.c2.x == 0 && m.c2.y == 0 && m.c2.w == 0;
      assert Det3(m) == -m.c2.z;
      assert m == M(V(-1, 0, 0), V(0, 1, 0), V(0, 0, -1));
    }
  }

  lemma CompleteWithPlusY(m: IMat4)
    requires IsProperRotation(m) && m.c0 == V(0, 1, 0)
    ensures
      m == M(V(0, 1, 0), V(0, 0, -1), V(-1, 0, 0)) || m == M(V(0, 1, 0), V(0, 0, 1), V(1, 0, 0)) ||
      m == M(V(0, 1, 0), V(-1, 0, 0), V(0, 0, 1)) || m == M(V(0, 1, 0), V(1, 0, 0), V(0, 0, -1))
  {
    if m.c1 == V(0, 0, -1) {
      assert m == M(V(0, 1, 0), V(0, 0, -1), m.c2);
      assert m.c2.y == 0 && m.c2.z == 0 && m.c2.w == 0;
      assert Det3(m) == -m.c2.x;
      assert m == M(V(0, 1, 0), V(0, 0, -1), V(-1, 0, 0));
    } else if m.c1 == V(0, 0, 1) {
      assert m == M(V(0, 1, 0), V(0, 0, 1), m.c2);
      assert m.c2.y == 0 && m.c2.z == 0 && m.c2.w == 0;
      assert Det3(m) == m.c2.x;
      assert m == M(V(0, 1, 0), V(0, 0, 1), V(1, 0, 0));
    } else if m.c1 == V(-1, 0, 0) {
      assert m == M(V(0, 1, 0), V(-1, 0, 0), m.c2);
      assert m.c2.x == 0 && m.c2.y == 0 && m.c2.w == 0;
      assert Det3(m) == m.c2.z;
      assert m == M(V(0, 1, 0), V(-1, 0, 0), V(0, 0, 1));
    } else {
      assert m.c1 == V(1, 0, 0);
      assert m == M(V(0, 1, 0), V(1, 0, 0), m.c2);
      assert m.c2.x == 0 && m.c2.y == 0 && m.c2.w == 0;
      assert Det3(m) == -m.c2.z;
      assert m == M(V(0, 1, 0), V(1, 0, 0), V(0, 0, -1));
    }
  }

  lemma CompleteWithMinusY(m: IMat4)
    requires IsProperRotation(m) && m.c0 == V(0, -1, 0)
    ensures
      m == M(V(0, -1, 0), V(0, 0, -1), V(1, 0, 0)) || m == M(V(0, -1, 0), V(0, 0, 1), V(-1, 0, 0)) ||
      m == M(V(0, -1, 0), V(-1, 0, 0), V(0, 0, -1)) || m == M(V(0, -1, 0), V(1, 0, 0), V(0, 0, 1))
  {
    if m.c1 == V(0, 0, -1) {
      assert m == M(V(0, -1, 0), V(0, 0, -1), m.c2);
      assert m.c2.y == 0 && m.c2.z == 0 && m.c2.w == 0;
      assert Det3(m) == m.c2.x;
      assert m == M(V(0, -1, 0), V(0, 0, -1), V(1, 0, 0));
    } else if m.c1 == V(0, 0, 1) {
      assert m == M(V(0, -1, 0), V(0, 0, 1), m.c2);
      assert m.c2.y == 0 && m.c2.z == 0 && m.c2.w == 0;
      assert Det3(m) == -m.c2.x;
      assert m == M(V(0, -1, 0), V(0, 0, 1), V(-1, 0, 0));
    } else if m.c1 == V(-1, 0, 0) {
      assert m == M(V(0, -1, 0), V(-1, 0, 0), m.c2);
      assert m.c2.x == 0 && m.c2.y == 0 && m.c2.w == 0;
      assert Det3(m) == -m.c2.z;
      assert m == M(V(0, -1, 0), V(-1, 0, 0), V(0, 0, -1));
    } else {
      assert m.c1 == V(1, 0, 0);
      assert m == M(V(0, -1, 0), V(1, 0, 0), m.c2);
      assert m.c2.x == 0 && m.c2.y == 0 && m.c2.w == 0;
      assert Det3(m) == m.c2.z;
      assert m == M(V(0, -1, 0), V(1, 0, 0), V(0, 0, 1));
    }
  }

  lemma CompleteWithPlusZ(m: IMat4)
    requires IsProperRotation(m) && m.c0 == V(0, 0, 1)
    ensures
      m == M(V(0, 0, 1), V(0, -1, 0), V(1, 0, 0)) || m == M(V(0, 0, 1), V(0, 1, 0), V(-1, 0, 0)) ||
      m == M(V(0, 0, 1), V(-1, 0, 0), V(0, -1, 0)) || m == M(V(0, 0, 1), V(1, 0, 0), V(0, 1, 0))
  {
    if m.c1 == V(0, -1, 0) {
      assert m == M(V(0, 0, 1), V(0, -1, 0), m.c2);
      assert m.c2.y == 0 && m.c2.z == 0 && m.c2.w == 0;
      assert Det3(m) == m.c2.x;
      assert m == M(V(0, 0, 1), V(0, -1, 0), V(1, 0, 0));
    } else if m.c1 == V(0, 1, 0) {
      assert m == M(V(0, 0, 1), V(0, 1, 0), m.c2);
      assert m.c2.y == 0 && m.c2.z == 0 && m.c2.w == 0;
      assert Det3(m) == -m.c2.x;
      assert m == M(V(0, 0, 1), V(0, 1, 0), V(-1, 0, 0));
    } else if m.c1 == V(-1, 0, 0) {
      assert m == M(V(0, 0, 1), V(-1, 0, 0), m.c2);
      assert m.c2.x == 0 && m.c2.z == 0 && m.c2.w == 0;
      assert Det3(m) == -m.c2.y;
      assert m == M(V(0, 0, 1), V(-1, 0, 0), V(0, -1, 0));
    } else {
      assert m.c1 == V(1, 0, 0);
      assert m == M(V(0, 0, 1), V(1, 0, 0), m.c2);
      assert m.c2.x == 0 && m.c2.z == 0 && m.c2.w == 0;
      assert Det3(m) == m.c2.y;
      assert m == M(V(0, 0, 1), V(1, 0, 0), V(0, 1, 0));
    }
  }

  lemma CompleteWithMinusZ(m: IMat4)
    requires IsProperRotation(m) && m.c0 == V(0, 0, -1)
    ensures
      m == M(V(0, 0, -1), V(0, -1, 0), V(-1, 0, 0)) || m == M(V(0, 0, -1), V(0, 1, 0), V(1, 0, 0)) ||
      m == M(V(0, 0, -1), V(-1, 0, 0), V(0, 1, 0)) || m == M(V(0, 0, -1), V(1, 0, 0), V(0, -1, 0))
  {
    if m.c1 == V(0, -1, 0) {
      assert m == M(V(0, 0, -1), V(0, -1, 0), m.c2);
      assert m.c2.y == 0 && m.c2.z == 0 && m.c2.w == 0;
      assert Det3(m) == -m.c2.x;
      assert m == M(V(0, 0, -1), V(0, -1, 0), V(-1, 0, 0));
    } else if m.c1 == V(0, 1, 0) {
      assert m == M(V(0, 0, -1), V(0, 1, 0), m.c2);
      assert m.c2.y == 0 && m.c2.z == 0 && m.c2.w == 0;
      assert Det3(m) == m.c2.x;
      assert m == M(V(0, 0, -1), V(0, 1, 0), V(1, 0, 0));
    } else if m.c1 == V(-1, 0, 0) {
      assert m == M(V(0, 0, -1), V(-1, 0, 0), m.c2);
      assert m.c2.x == 0 && m.c2.z == 0 && m.c2.w == 0;
      assert Det3(m) == m.c2.y;
      assert m == M(V(0, 0, -1), V(-1, 0, 0), V(0, 1, 0));
    } else {
      assert m.c1 == V(1, 0, 0);
      assert m == M(V(0, 0, -1), V(1, 0, 0), m.c2);
      assert m.c2.x == 0 && m.c2.z == 0 && m.c2.w == 0;
      assert Det3(m) == -m.c2.y;
      assert m == M(V(0, 0, -1), V(1, 0, 0), V(0, -1, 0));
    }
  }

  /**
   * The table holds every proper rotation of the cube: with AllProper and
   * AllDistinct, it is exactly the group of the 24 signed permutation
   * matrices of determinant +1.
   */
  lemma AllRotationsInTable(m: IMat4)
    requires IsProperRotation(m)
    ensures m in Rotations
  {
    if m.c0 == V(1, 0, 0) {
      CompleteWithPlusX(m);
    } else if m.c0 == V(-1, 0, 0) {
      CompleteWithMinusX(m);
    } else if m.c0 == V(0, 1, 0) {
      CompleteWithPlusY(m);
    } else if m.c0 == V(0, -1, 0) {
      CompleteWithMinusY(m);
    } else if m.c0 == V(0, 0, 1) {
      CompleteWithPlusZ(m);
    } else {
      CompleteWithMinusZ(m);
    }
  }

  /** The 24 table entries are pairwise distinct. */
  lemma AllDistinct()
    ensures forall i, j :: 0 <= i < j < |Rotations| ==> Rotations[i] != Rotations[j]
  {
  }

  /** The table holds the identity, at IdentityIndex. */
  lemma IdentityInTable(p: Vec3)
    ensures IdentityIndex < |Rotations|
    ensures Apply(Rotations[IdentityIndex], p) == p
  {
  }

  lemma InverseFirstThird(p: Vec3)
    ensures forall j :: 0 <= j < 8 ==> Apply(Rotations[Inverse[j]], Apply(Rotations[j], p)) == p
  {
  }

  lemma InverseSecondThird(p: Vec3)
    ensures forall j :: 8 <= j < 16 ==> Apply(Rotations[Inverse[j]], Apply(Rotations[j], p)) == p
  {
  }

  lemma InverseLastThird(p: Vec3)
    ensures forall j :: 16 <= j < 24 ==> Apply(Rotations[Inverse[j]], Apply(Rotations[j], p)) == p
  {
  }

  /** Every table entry is undone by the table entry Inverse[j]. */
  lemma InverseUndoes(j: nat, p: Vec3)
    requires j < |Rotations|
    ensures |Inverse| == |Rotations| && Inverse[j] < |Rotations|
    ensures Apply(Rotations[Inverse[j]], Apply(Rotations[j], p)) == p
  {
    if j < 8 { InverseFirstThird(p); }
    else if j < 16 { InverseSecondThird(p); }
    else { InverseLastThird(p); }
  }

  /** The linear part distributes over differences. */
  lemma LinearSub(m: IMat4, p: Vec3, q: Vec3)
    ensures Linear(m, Sub(p, q)) == Sub(Linear(m, p), Linear(m, q))
  {
  }

  /** Each coordinate of `r` equals, up to sign, some coordinate of `p`. */
  predicate SignedPermutationOf(r: Vec3, p: Vec3) {
    (Abs(r.x) == Abs(p.x) || Abs(r.x) == Abs(p.y) || Abs(r.x) == Abs(p.z)) &&
    (Abs(r.y) == Abs(p.x) || Abs(r.y) == Abs(p.y) || Abs(r.y) == Abs(p.z)) &&
    (Abs(r.z) == Abs(p.x) || Abs(r.z) == Abs(p.y) || Abs(r.z) == Abs(p.z))
  }

  lemma PermutesFirstThird(p: Vec3)
    ensures forall k :: 0 <= k < 8 ==> SignedPermutationOf(Apply(Rotations[k], p), p)
  {
  }

  lemma PermutesSecondThird(p: Vec3)
    ensures forall k :: 8 <= k < 16 ==> SignedPermutationOf(Apply(Rotations[k], p), p)
  {
  }

  lemma PermutesLastThird(p: Vec3)
    ensures forall k :: 16 <= k < 24 ==> SignedPermutationOf(Apply(Rotations[k], p), p)
  {
  }

  /** Rotating a shape by a table entry keeps every coordinate within the same bound. */
  lemma RotatedWithin(s: Blocks, k: nat, bound: int)
    requires k < |Rotations| && Within(s, bound)
    ensures Within(Rotated(s, Rotations[k]), bound)
  {
    var r := Rotated(s, Rotations[k]);
    forall i | 0 <= i < |s|
      ensures Abs(r[i].x) <= bound && Abs(r[i].y) <= bound && Abs(r[i].z) <= bound
    {
      PermutesFirstThird(s[i]);
      PermutesSecondThird(s[i]);
      PermutesLastThird(s[i]);
    }
  }

  /** Rotating a shifted shape is shifting the rotated shape by the rotated offset. */
  lemma RotatedShift(s: Blocks, o: Vec3, k: nat)
    requires k < |Rotations|
    ensures Rotated(Shift(s, o), Rotations[k]) == Shift(Rotated(s, Rotations[k]), Linear(Rotations[k], o))
  {
    AllProper();
    var m := Rotations[k];
    forall i | 0 <= i < |s|
      ensures Rotated(Shift(s, o), m)[i] == Shift(Rotated(s, m), Linear(m, o))[i]
    {
      LinearSub(m, s[i], o);
    }
  }

  /** Rotating by entry k and then by entry Inverse[k] gives back the shape. */
  lemma RotatedInverse(s: Blocks, k: nat)
    requires k < |Rotations|
    ensures Inverse[k] < |Rotations|
    ensures Rotated(Rotated(s, Rotations[k]), Rotations[Inverse[k]]) == s
  {
    forall i | 0 <= i < |s|
      ensures Rotated(Rotated(s, Rotations[k]), Rotations[Inverse[k]])[i] == s[i]
    {
      InverseUndoes(k, s[i]);
    }
  }

  /** Rotating by the identity entry changes nothing. */
  lemma RotatedIdentity(s: Blocks)
    ensures IdentityIndex < |Rotations|
    ensures Rotated(s, Rotations[IdentityIndex]) == s
  {
    forall i | 0 <= i < |s| ensures Rotated(s, Rotations[IdentityIndex])[i] == s[i] {
      IdentityInTable(s[i]);
    }
  }
}
