/**
 * The random polycube generator (demo.cc, generateShape): a walk of
 * ShapeSegments straight segments through a lattice of spacing 2. It starts
 * at the origin heading along y, and each segment turns onto one of the other
 * two axes and may reverse its sign. A walk that would revisit a block is
 * rejected.
 *
 * The walk the generator takes is fixed by the random source and by where
 * reading starts. For segment i, draw base + 3i picks its length, draw
 * base + 3i + 1 the next axis and draw base + 3i + 2 whether the side flips.
 * The functions below compute that planned walk, and GenerateShape is proved
 * to return it exactly when it does not cross itself.
 */
module ShapeGenerator {
  import opened Geometry
  import opened Wrappers
  import opened Random

  const ShapeSegments: nat := 4

  /** Where the walk stands before a segment: its current block, axis bit (1 = z, 2 = y, 4 = x) and sign. */
  datatype Walker = Walker(center: Vec3, direction: nat, side: int)

  const Start: Walker := Walker(Origin3, 2, 1)

  /** randomBit(): a uniform draw from {0, 1}, as draw n of the source yields it. */
  function Bit(source: nat -> nat, n: nat): int {
    if source(n) % 2 == 0 then 0 else 1
  }

  lemma BitIsDraw(source: nat -> nat, n: nat)
    ensures Bit(source, n) == Draw(source, n, 0, 1)
  {
  }

  /** `2 * side * ivec3(direction >> 2, (direction >> 1) & 1, direction & 1)`. */
  function StepOf(w: Walker): Vec3 {
    Vec3(2 * w.side * (w.direction / 4), 2 * w.side * ((w.direction / 2) % 2), 2 * w.side * (w.direction % 2))
  }

  /** One of the six lattice steps: 2 or -2 along exactly one axis. */
  predicate IsAxisStep(d: Vec3) {
    (Abs(d.x) == 2 && d.y == 0 && d.z == 0) ||
    (d.x == 0 && Abs(d.y) == 2 && d.z == 0) ||
    (d.x == 0 && d.y == 0 && Abs(d.z) == 2)
  }

  predicate IsAxisBit(direction: nat) { direction == 1 || direction == 2 || direction == 4 }

  /** The switch on the direction: turn onto one of the two other axes; leave an invalid value alone. */
  function NextDirection(direction: nat, bit: int): (r: nat)
    ensures IsAxisBit(direction) ==> IsAxisBit(r) && r != direction
    ensures !IsAxisBit(direction) ==> r == direction
  {
    if direction == 1 then (if bit != 0 then 2 else 4)
    else if direction == 2 then (if bit != 0 then 1 else 4)
    else if direction == 4 then (if bit != 0 then 1 else 2)
    else direction
  }

  /** `2 + (i & 1) + randomBit()`: the number of blocks of segment i. */
  function SegmentLength(source: nat -> nat, base: nat, i: nat): (l: nat)
    ensures i % 2 == 0 ==> 2 <= l <= 3
    ensures i % 2 == 1 ==> 3 <= l <= 4
  {
    2 + i % 2 + Bit(source, base + 3 * i)
  }

  /** c + k * d: the block k steps of d past c. */
  function Advance(c: Vec3, d: Vec3, k: nat): Vec3
    decreases k
  {
    if k == 0 then c else Add(Advance(c, d, k - 1), d)
  }

  /** The `l` blocks c, c + d, c + 2d, ... of a straight segment. */
  function Segment(c: Vec3, d: Vec3, l: nat): (r: Blocks)
    ensures |r| == l
  {
    seq(l, (k: int) requires 0 <= k < l => Advance(c, d, k))
  }

  /** The side after the flip draw: reversed when the draw is 1. */
  function Flipped(side: int, flip: int): int {
    if flip != 0 then -side else side
  }

  /** The walker after a segment of `l` blocks and the turn and flip draws that follow it. */
  function WalkerStep(w: Walker, l: nat, turn: int, flip: int): Walker {
    Walker(Advance(w.center, StepOf(w), l), NextDirection(w.direction, turn), Flipped(w.side, flip))
  }

  /** The walker after i segments. */
  function WalkerAt(source: nat -> nat, base: nat, i: nat): Walker
    decreases i
  {
    if i == 0 then Start
    else
      var j := i - 1;
      WalkerStep(WalkerAt(source, base, j), SegmentLength(source, base, j),
                 Bit(source, base + 3 * j + 1), Bit(source, base + 3 * j + 2))
  }

  /** The blocks segment i lays. */
  function SegmentOf(source: nat -> nat, base: nat, i: nat): Blocks {
    var w := WalkerAt(source, base, i);
    Segment(w.center, StepOf(w), SegmentLength(source, base, i))
  }

  /** The blocks of segments 0 .. i - 1, one after another. */
  function Concat(segments: nat -> Blocks, i: nat): Blocks {
    if i == 0 then [] else Concat(segments, i - 1) + segments(i - 1)
  }

  /** The blocks laid by the first i segments. */
  function Planned(source: nat -> nat, base: nat, i: nat): Blocks {
    Concat(SegmentsOf(source, base), i)
  }

  /** Segment k of the walk, as a function of k. */
  function SegmentsOf(source: nat -> nat, base: nat): nat -> Blocks {
    (k: nat) => SegmentOf(source, base, k)
  }

  /** Where the walk stands before segment k, as a function of k. */
  function CentersOf(source: nat -> nat, base: nat): nat -> Vec3 {
    (k: nat) => WalkerAt(source, base, k).center
  }

  lemma PlannedNext(source: nat -> nat, base: nat, i: nat)
    ensures Planned(source, base, i + 1) == Planned(source, base, i) + SegmentOf(source, base, i)
  {
  }

  /** A sequence with a repeated block keeps it when extended. */
  lemma DuplicatesPersist(a: Blocks, b: Blocks)
    requires !NoDuplicates(a)
    ensures !NoDuplicates(a + b)
  {
    var i, j :| 0 <= i < j < |a| && a[i] == a[j];
    assert (a + b)[i] == (a + b)[j];
  }

  /** Appending a block already present creates a repeat. */
  lemma RepeatCreatesDuplicate(a: Blocks, c: Vec3, rest: Blocks)
    requires c in a
    ensures !NoDuplicates(a + [c] + rest)
  {
    var i :| 0 <= i < |a| && a[i] == c;
    assert (a + [c] + rest)[i] == (a + [c] + rest)[|a|];
  }

  lemma PrefixOfAppend(a: Blocks, b: Blocks, n: nat)
    requires n <= |a|
    ensures (a + b)[..n] == a[..n]
  {
  }

  /** The first i segments are a prefix of the first j segments. */
  lemma {:induction false} ConcatPrefix(f: nat -> Blocks, i: nat, j: nat)
    requires i <= j
    ensures |Concat(f, i)| <= |Concat(f, j)|
    ensures Concat(f, j)[..|Concat(f, i)|] == Concat(f, i)
    decreases j
  {
    if i < j {
      ConcatPrefix(f, i, j - 1);
      PrefixOfAppend(Concat(f, j - 1), f(j - 1), |Concat(f, i)|);
    }
  }

  /** The walk of i segments is a prefix of the walk of any later number of segments. */
  lemma PlannedPrefix(source: nat -> nat, base: nat, i: nat, j: nat)
    requires i <= j
    ensures |Planned(source, base, i)| <= |Planned(source, base, j)|
    ensures Planned(source, base, j)[..|Planned(source, base, i)|] == Planned(source, base, i)
  {
    ConcatPrefix(SegmentsOf(source, base), i, j);
  }

  /** A repeat in an early prefix of the walk is a repeat in the whole walk. */
  lemma DuplicateInPrefix(source: nat -> nat, base: nat, i: nat, j: nat)
    requires i <= j && !NoDuplicates(Planned(source, base, i))
    ensures !NoDuplicates(Planned(source, base, j))
  {
    PlannedPrefix(source, base, i, j);
    var p := Planned(source, base, j);
    var n := |Planned(source, base, i)|;
    assert p == p[..n] + p[n..];
    DuplicatesPersist(p[..n], p[n..]);
  }

  /** Block j of a segment is j steps past its start, and extends the first j blocks. */
  lemma SegmentGrows(c: Vec3, d: Vec3, l: nat, j: nat)
    requires j < l
    ensures Segment(c, d, l)[j] == Advance(c, d, j)
    ensures Segment(c, d, l)[..j + 1] == Segment(c, d, l)[..j] + [Advance(c, d, j)]
  {
  }

  /** The length the generator computes from its draw is the planned segment length. */
  lemma LengthDraw(source: nat -> nat, base: nat, i: nat, n: nat, bit: int)
    requires n == base + 3 * i && bit == Draw(source, n, 0, 1)
    ensures 2 + i % 2 + bit == SegmentLength(source, base, i)
  {
    BitIsDraw(source, n);
  }

  /**
   * The switch on the direction: turn onto one of the two other axes as the
   * turn draw says. Its default branch asserts that the direction is always
   * an axis bit, so that is a precondition here.
   */
  method Turn(rng: Rng, direction: nat) returns (next: nat)
    requires IsAxisBit(direction)
    modifies rng
    ensures rng.draws == old(rng.draws) + 1
    ensures next == NextDirection(direction, Bit(rng.source, old(rng.draws)))
  {
    BitIsDraw(rng.source, rng.draws);
    var turn;
    if direction == 1 {
      turn := rng.UniformInt(0, 1);
      next := if turn != 0 then 2 else 4;
    } else if direction == 2 {
      turn := rng.UniformInt(0, 1);
      next := if turn != 0 then 1 else 4;
    } else {
      turn := rng.UniformInt(0, 1);
      next := if turn != 0 then 1 else 2;
    }
  }

  /** The flip draw: reverse the side when it is 1. */
  method Flip(rng: Rng, side: int) returns (next: int)
    modifies rng
    ensures rng.draws == old(rng.draws) + 1
    ensures next == Flipped(side, Bit(rng.source, old(rng.draws)))
  {
    BitIsDraw(rng.source, rng.draws);
    var flip := rng.UniformInt(0, 1);
    next := side;
    if flip != 0 {
      next := -side;
    }
  }

  /** The walker's turn and side flip after a segment: draws n and n + 1. */
  method TurnAndFlip(rng: Rng, ghost n: nat, direction: nat, side: int)
    returns (nextDirection: nat, nextSide: int, ghost turn: int, ghost flip: int)
    requires rng.draws == n && IsAxisBit(direction)
    modifies rng
    ensures rng.draws == n + 2
    ensures turn == Bit(rng.source, n) && flip == Bit(rng.source, n + 1)
    ensures nextDirection == NextDirection(direction, turn) && nextSide == Flipped(side, flip)
  {
    turn, flip := Bit(rng.source, n), Bit(rng.source, n + 1);
    nextDirection := Turn(rng, direction);
    nextSide := Flip(rng, side);
  }

  /** The walker after segment i, from the walker before it and its three new fields. */
  lemma WalkerNext(source: nat -> nat, base: nat, i: nat, w: Walker, center: Vec3, direction: nat, side: int,
                   nt: nat, turn: int, flip: int)
    requires w == WalkerAt(source, base, i)
    requires nt == base + 3 * i + 1 && turn == Bit(source, nt) && flip == Bit(source, nt + 1)
    requires center == Advance(w.center, StepOf(w), SegmentLength(source, base, i))
    requires direction == NextDirection(w.direction, turn)
    requires side == Flipped(w.side, flip)
    ensures Walker(center, direction, side) == WalkerAt(source, base, i + 1)
  {
    TurnFlipBits(source, base, i, nt, turn, flip);
    WalkerAtSucc(source, base, i);
  }

  /** The turn and flip bits read at draw nt are those planned for segment i. */
  lemma TurnFlipBits(source: nat -> nat, base: nat, i: nat, nt: nat, turn: int, flip: int)
    requires nt == base + 3 * i + 1 && turn == Bit(source, nt) && flip == Bit(source, nt + 1)
    ensures turn == Bit(source, base + 3 * i + 1) && flip == Bit(source, base + 3 * i + 2)
  {
  }

  /** One more segment: the walker steps from where it stood after segment i. */
  lemma WalkerAtSucc(source: nat -> nat, base: nat, i: nat)
    ensures WalkerAt(source, base, i + 1) ==
      WalkerStep(WalkerAt(source, base, i), SegmentLength(source, base, i), Bit(source, base + 3 * i + 1), Bit(source, base + 3 * i + 2))
  {
  }

  /** A segment that crosses the walk laid before it makes the whole walk cross itself. */
  lemma Rejected(source: nat -> nat, base: nat, i: nat, laid: Blocks)
    requires i < ShapeSegments && laid == Planned(source, base, i)
    requires !NoDuplicates(laid + SegmentOf(source, base, i))
    ensures !NoDuplicates(Planned(source, base, i + 1))
    ensures !NoDuplicates(Planned(source, base, ShapeSegments))
  {
    PlannedNext(source, base, i);
    DuplicateInPrefix(source, base, i + 1, ShapeSegments);
  }

  /**
   * The inner loop of generateShape: append the l blocks start, start + d, ...
   * to `blocks`, stopping at the first block already present.
   */
  method LaySegment(blocks: Blocks, start: Vec3, d: Vec3, l: nat) returns (extended: Blocks, end: Vec3, ok: bool)
    requires NoDuplicates(blocks)
    ensures ok == NoDuplicates(blocks + Segment(start, d, l))
    ensures ok ==> extended == blocks + Segment(start, d, l) && end == Advance(start, d, l)
  {
    ghost var seg := Segment(start, d, l);
    extended, end := blocks, start;
    for j := 0 to l
      invariant end == Advance(start, d, j)
      invariant extended == blocks + seg[..j]
      invariant NoDuplicates(extended)
    {
      SegmentGrows(start, d, l, j);
      if end in extended {
        assert seg == seg[..j] + [seg[j]] + seg[j + 1..];
        assert blocks + seg == extended + [end] + seg[j + 1..];
        RepeatCreatesDuplicate(extended, end, seg[j + 1..]);
        return extended, end, false;
      }
      extended := extended + [end];
      end := Add(end, d);
    }
    assert seg[..l] == seg;
    return extended, end, true;
  }

  /** demo.cc generateShape: lay the segments block by block, giving up at the first block already laid. */
  method GenerateShape(rng: Rng) returns (r: Option<Blocks>)
    modifies rng
    ensures var base := old(rng.draws);
      NoDuplicates(Planned(rng.source, base, ShapeSegments)) ==>
        r == Some(Planned(rng.source, base, ShapeSegments)) && rng.draws == base + 3 * ShapeSegments
    ensures var base := old(rng.draws);
      !NoDuplicates(Planned(rng.source, base, ShapeSegments)) ==>
        r == None &&
        exists i :: 0 <= i < ShapeSegments && NoDuplicates(Planned(rng.source, base, i)) &&
          !NoDuplicates(Planned(rng.source, base, i + 1)) && rng.draws == base + 3 * i + 1
  {
    ghost var base := rng.draws;
    ghost var source := rng.source;
    var center := Origin3;
    var direction: nat := 2;
    var side := 1;
    var blocks: Blocks := [];
    for i := 0 to ShapeSegments
      invariant rng.source == source
      invariant rng.draws == base + 3 * i
      invariant Walker(center, direction, side) == WalkerAt(source, base, i)
      invariant blocks == Planned(source, base, i)
      invariant NoDuplicates(blocks)
    {
      ghost var w := Walker(center, direction, side);
      var d := StepOf(Walker(center, direction, side));
      ghost var n := rng.draws;
      var bit := rng.UniformInt(0, 1);
      var l := 2 + i % 2 + bit;
      LengthDraw(source, base, i, n, bit);
      ghost var laid := blocks;
      assert Segment(center, d, l) == SegmentOf(source, base, i);
      var ok;
      blocks, center, ok := LaySegment(blocks, center, d, l);
      if !ok {
        Rejected(source, base, i, laid);
        return None;
      }
      PlannedNext(source, base, i);
      assert center == Advance(w.center, StepOf(w), SegmentLength(source, base, i));
      WalkerShape(source, base, i);
      ghost var nt := base + 3 * i + 1;
      ghost var turn, flip;
      direction, side, turn, flip := TurnAndFlip(rng, nt, direction, side);
      WalkerNext(source, base, i, w, center, direction, side, nt, turn, flip);
    }
    return Some(blocks);
  }

  /** From an axis bit and a sign of +1 or -1 the step is one lattice step along that axis. */
  lemma StepIsAxisStep(w: Walker)
    requires IsAxisBit(w.direction) && (w.side == 1 || w.side == -1)
    ensures IsAxisStep(StepOf(w))
  {
    if w.direction == 1 {
      assert StepOf(w) == Vec3(0, 0, 2 * w.side);
    } else if w.direction == 2 {
      assert StepOf(w) == Vec3(0, 2 * w.side, 0);
    } else {
      assert StepOf(w) == Vec3(2 * w.side, 0, 0);
    }
  }

  /** The walker's axis stays one of the three axis bits, its sign stays +1 or -1, and it turns at every segment. */
  lemma {:induction false} WalkerShape(source: nat -> nat, base: nat, i: nat)
    ensures IsAxisBit(WalkerAt(source, base, i).direction)
    ensures WalkerAt(source, base, i).side == 1 || WalkerAt(source, base, i).side == -1
    ensures IsAxisStep(StepOf(WalkerAt(source, base, i)))
    ensures WalkerAt(source, base, i + 1).direction != WalkerAt(source, base, i).direction
    decreases i
  {
    if i > 0 {
      WalkerShape(source, base, i - 1);
    }
    StepIsAxisStep(WalkerAt(source, base, i));
  }

  /** The walk laid by all segments has between 10 and 14 blocks. */
  lemma {:induction false} PlannedLength(source: nat -> nat, base: nat)
    ensures 10 <= |Planned(source, base, ShapeSegments)| <= 14
  {
    var l0, l1 := SegmentLength(source, base, 0), SegmentLength(source, base, 1);
    var l2, l3 := SegmentLength(source, base, 2), SegmentLength(source, base, 3);
    assert |Planned(source, base, 1)| == l0;
    assert |Planned(source, base, 2)| == l0 + l1;
    assert |Planned(source, base, 3)| == l0 + l1 + l2;
    assert |Planned(source, base, 4)| == l0 + l1 + l2 + l3;
  }

  /** Consecutive blocks are one lattice step apart. */
  predicate StepChain(p: Blocks) {
    forall n :: 0 <= n < |p| - 1 ==> IsAxisStep(Sub(p[n + 1], p[n]))
  }

  /** Two step chains joined by one lattice step form a step chain. */
  lemma ChainAppend(a: Blocks, b: Blocks)
    requires StepChain(a) && StepChain(b)
    requires |a| > 0 && |b| > 0 ==> IsAxisStep(Sub(b[0], a[|a| - 1]))
    ensures StepChain(a + b)
  {
    var p := a + b;
    forall n | 0 <= n < |p| - 1 ensures IsAxisStep(Sub(p[n + 1], p[n])) {
      if n + 1 < |a| {
        assert p[n] == a[n] && p[n + 1] == a[n + 1];
      } else if n + 1 == |a| {
        assert p[n] == a[|a| - 1] && p[n + 1] == b[0];
      } else {
        assert p[n] == b[n - |a|] && p[n + 1] == b[n - |a| + 1];
      }
    }
  }

  /** A straight segment along a lattice step is a step chain that starts at its start and ends one step before its end. */
  lemma SegmentChain(c: Vec3, d: Vec3, l: nat)
    requires IsAxisStep(d)
    ensures StepChain(Segment(c, d, l))
    ensures l > 0 ==> Segment(c, d, l)[0] == c
    ensures l > 0 ==> Sub(Advance(c, d, l), Segment(c, d, l)[l - 1]) == d
  {
    var s := Segment(c, d, l);
    forall n | 0 <= n < l - 1 ensures IsAxisStep(Sub(s[n + 1], s[n])) {
      assert s[n + 1] == Add(s[n], d);
    }
  }

  /** Segment k starts at the walker, is a step chain, and ends one lattice step before the next walker. */
  lemma SegmentOfSteps(source: nat -> nat, base: nat, k: nat)
    ensures Links(SegmentsOf(source, base), CentersOf(source, base), k)
  {
    var w := WalkerAt(source, base, k);
    WalkerShape(source, base, k);
    SegmentOfShape(source, base, k);
    SegmentOfEnd(source, base, k);
    var seg := SegmentsOf(source, base)(k);
    var e := Sub(CentersOf(source, base)(k + 1), seg[|seg| - 1]);
    assert e == StepOf(w);
  }

  /** Segment k, as the function of k, is the straight segment from walker k. */
  lemma SegmentsOfAt(source: nat -> nat, base: nat, k: nat)
    ensures var w := WalkerAt(source, base, k);
      SegmentsOf(source, base)(k) == Segment(w.center, StepOf(w), SegmentLength(source, base, k))
  {
  }

  /** Walker k + 1 stands one full segment past walker k. */
  lemma CentersOfNext(source: nat -> nat, base: nat, k: nat)
    ensures var w := WalkerAt(source, base, k);
      CentersOf(source, base)(k + 1) == Advance(w.center, StepOf(w), SegmentLength(source, base, k))
  {
  }

  /** Segment k starts at the walker and, if the walker's step is a lattice step, is a step chain. */
  lemma SegmentOfShape(source: nat -> nat, base: nat, k: nat)
    requires IsAxisStep(StepOf(WalkerAt(source, base, k)))
    ensures var seg := SegmentsOf(source, base)(k);
      |seg| > 0 && seg[0] == CentersOf(source, base)(k) && StepChain(seg)
  {
    var w := WalkerAt(source, base, k);
    SegmentsOfAt(source, base, k);
    SegmentChain(w.center, StepOf(w), SegmentLength(source, base, k));
  }

  /** Segment k ends one walker step before the next walker. */
  lemma SegmentOfEnd(source: nat -> nat, base: nat, k: nat)
    ensures |SegmentsOf(source, base)(k)| == SegmentLength(source, base, k)
    ensures var w := WalkerAt(source, base, k); var l := SegmentLength(source, base, k);
      Sub(CentersOf(source, base)(k + 1), SegmentsOf(source, base)(k)[l - 1]) == StepOf(w)
  {
    var w := WalkerAt(source, base, k);
    var l := SegmentLength(source, base, k);
    SegmentsOfAt(source, base, k);
    CentersOfNext(source, base, k);
    SegmentEnd(w.center, StepOf(w), l);
  }

  /** The block after a non-empty segment is one step past its last block. */
  lemma SegmentEnd(c: Vec3, d: Vec3, l: nat)
    requires l > 0
    ensures Sub(Advance(c, d, l), Segment(c, d, l)[l - 1]) == d
  {
  }

  /** Segment k starts where the walk stands, is a step chain, and ends one step before where the walk stands next. */
  predicate Links(f: nat -> Blocks, at: nat -> Vec3, k: nat) {
    |f(k)| > 0 && f(k)[0] == at(k) && StepChain(f(k)) && IsAxisStep(Sub(at(k + 1), f(k)[|f(k)| - 1]))
  }

  /**
   * Segments that each start where the walk stands and end one lattice step
   * before where it stands next, starting from the origin, join into a step
   * chain from the origin that ends one step before the walk's position.
   */
  lemma {:induction false} ConcatSteps(f: nat -> Blocks, at: nat -> Vec3, i: nat)
    requires at(0) == Origin3
    requires forall k: nat :: k < i ==> Links(f, at, k)
    ensures var p := Concat(f, i);
      (|p| > 0 ==> p[0] == Origin3) && StepChain(p) &&
      (|p| > 0 ==> IsAxisStep(Sub(at(i), p[|p| - 1]))) &&
      (|p| == 0 ==> at(i) == Origin3)
    decreases i
  {
    if i > 0 {
      ConcatSteps(f, at, i - 1);
      var q := Concat(f, i - 1);
      var seg := f(i - 1);
      assert Links(f, at, i - 1);
      ChainAppend(q, seg);
      assert Concat(f, i) == q + seg;
      if |q| > 0 {
        assert (q + seg)[0] == q[0];
      }
      assert (q + seg)[|q + seg| - 1] == seg[|seg| - 1];
    }
  }

  /** The walk after i segments: starts at the origin, moves one axis step per block, and ends one step before the walker. */
  lemma PlannedSteps(source: nat -> nat, base: nat, i: nat)
    ensures var p := Planned(source, base, i);
      (|p| > 0 ==> p[0] == Origin3) && StepChain(p)
  {
    var f, at := SegmentsOf(source, base), CentersOf(source, base);
    forall k: nat | k < i ensures Links(f, at, k) {
      SegmentOfSteps(source, base, k);
    }
    ConcatSteps(f, at, i);
  }

  /** Block n of a walk from the origin by axis steps lies within 2n of the origin on every axis. */
  lemma {:induction false} StepsBound(p: Blocks, n: nat)
    requires n < |p| && p[0] == Origin3
    requires StepChain(p)
    ensures Abs(p[n].x) <= 2 * n && Abs(p[n].y) <= 2 * n && Abs(p[n].z) <= 2 * n
    decreases n
  {
    if n > 0 {
      StepsBound(p, n - 1);
      assert IsAxisStep(Sub(p[n], p[n - 1]));
    }
  }

  /** Every planned block lies within 28 of the origin on each axis: at most 14 blocks, one step of 2 apart. */
  lemma PlannedWithin(source: nat -> nat, base: nat)
    ensures Within(Planned(source, base, ShapeSegments), 28)
  {
    var p := Planned(source, base, ShapeSegments);
    PlannedLength(source, base);
    PlannedSteps(source, base, ShapeSegments);
    forall n | 0 <= n < |p| ensures Abs(p[n].x) <= 28 && Abs(p[n].y) <= 28 && Abs(p[n].z) <= 28 {
      StepsBound(p, n);
    }
  }
}
