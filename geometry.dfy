/** Integer 3D points (glm::ivec3) and the block sequences that make up a polycube. */
module Geometry {

  /** One block of a shape: the integer centre of a unit cube. */
  datatype Vec3 = Vec3(x: int, y: int, z: int)

  /** Blocks: the ordered block list of one polycube, in insertion order. */
  type Blocks = seq<Vec3>

  /** std::numeric_limits<int>::max(), the seed of the minimum fold in canonicalized. */
  const IntMax: int := 0x7fff_ffff

  /** Coordinates this small keep every difference of two of them within int. */
  const HalfRange: int := IntMax / 2

  const Origin3: Vec3 := Vec3(0, 0, 0)

  function Add(a: Vec3, b: Vec3): Vec3 { Vec3(a.x + b.x, a.y + b.y, a.z + b.z) }

  function Sub(a: Vec3, b: Vec3): Vec3 { Vec3(a.x - b.x, a.y - b.y, a.z - b.z) }

  function Neg(a: Vec3): Vec3 { Vec3(-a.x, -a.y, -a.z) }

  function Min(a: int, b: int): int { if a <= b then a else b }

  /** glm::min on vectors: the componentwise minimum. */
  function Min3(a: Vec3, b: Vec3): Vec3 { Vec3(Min(a.x, b.x), Min(a.y, b.y), Min(a.z, b.z)) }

  /** The strict order std::tie(x, y, z) < std::tie(x', y', z') used to sort blocks. */
  predicate LexLess(a: Vec3, b: Vec3) {
    a.x < b.x || (a.x == b.x && (a.y < b.y || (a.y == b.y && a.z < b.z)))
  }

  predicate LexLe(a: Vec3, b: Vec3) { !LexLess(b, a) }

  predicate Sorted(s: Blocks) {
    forall i, j :: 0 <= i < j < |s| ==> LexLe(s[i], s[j])
  }

  /** No two blocks coincide. */
  predicate NoDuplicates(s: Blocks) {
    forall i, j :: 0 <= i < j < |s| ==> s[i] != s[j]
  }

  function Abs(a: int): int { if a < 0 then -a else a }

  /** Every coordinate of every block is at most `bound` in absolute value. */
  predicate Within(s: Blocks, bound: int) {
    forall i :: 0 <= i < |s| ==> Abs(s[i].x) <= bound && Abs(s[i].y) <= bound && Abs(s[i].z) <= bound
  }

  /** Every coordinate is at most IntMax, so a minimum fold seeded with IntMax finds the true minimum. */
  predicate BelowIntMax(s: Blocks) {
    forall i :: 0 <= i < |s| ==> s[i].x <= IntMax && s[i].y <= IntMax && s[i].z <= IntMax
  }

  lemma WithinBelowIntMax(s: Blocks, bound: int)
    requires Within(s, bound) && bound <= IntMax
    ensures BelowIntMax(s)
  {
  }

  /** Apply `f` to every block, keeping the order (std::transform). */
  function MapBlocks(f: Vec3 -> Vec3, s: Blocks): (r: Blocks)
    ensures |r| == |s|
    ensures forall i :: 0 <= i < |s| ==> r[i] == f(s[i])
  {
    if s == [] then [] else [f(s[0])] + MapBlocks(f, s[1..])
  }

  /** Every block moved by `t` (shape + t). */
  function Translate(s: Blocks, t: Vec3): Blocks {
    MapBlocks(p => Add(p, t), s)
  }

  /** Every block moved by -o (the `p - origin` transform of canonicalized). */
  function Shift(s: Blocks, o: Vec3): Blocks {
    MapBlocks(p => Sub(p, o), s)
  }

  lemma LexLeTotal(a: Vec3, b: Vec3)
    ensures LexLe(a, b) || LexLe(b, a)
    ensures LexLe(a, b) && LexLe(b, a) ==> a == b
  {
  }

  lemma MapBlocksAppend(f: Vec3 -> Vec3, a: Blocks, b: Blocks)
    ensures MapBlocks(f, a + b) == MapBlocks(f, a) + MapBlocks(f, b)
  {
    assert |MapBlocks(f, a + b)| == |MapBlocks(f, a) + MapBlocks(f, b)|;
    forall i | 0 <= i < |a + b|
      ensures MapBlocks(f, a + b)[i] == (MapBlocks(f, a) + MapBlocks(f, b))[i]
    {
      if i < |a| {
        assert (a + b)[i] == a[i];
      } else {
        assert (a + b)[i] == b[i - |a|];
      }
    }
  }

  /** Mapping every block with the same function keeps two permutations permutations of each other. */
  lemma {:induction false} MapBlocksPermutation(f: Vec3 -> Vec3, a: Blocks, b: Blocks)
    requires multiset(a) == multiset(b)
    ensures multiset(MapBlocks(f, a)) == multiset(MapBlocks(f, b))
    decreases |a|
  {
    if a == [] {
      assert |b| == |multiset(b)| == 0;
    } else {
      assert a[0] in multiset(b);
      var i :| 0 <= i < |b| && b[i] == a[0];
      var rest := b[..i] + b[i + 1..];
      assert b == b[..i] + [b[i]] + b[i + 1..];
      assert a == [a[0]] + a[1..];
      calc {
        multiset(a[1..]);
        multiset(a) - multiset{a[0]};
        multiset(b) - multiset{b[i]};
        multiset(b[..i]) + multiset(b[i + 1..]);
        multiset(rest);
      }
      MapBlocksPermutation(f, a[1..], rest);
      MapBlocksAppend(f, [a[0]], a[1..]);
      MapBlocksAppend(f, b[..i] + [b[i]], b[i + 1..]);
      MapBlocksAppend(f, b[..i], [b[i]]);
      MapBlocksAppend(f, b[..i], b[i + 1..]);
    }
  }
}
