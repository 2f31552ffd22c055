/**
 * Box<Point> of util.h, instantiated with integer points (BoxI = Box<glm::ivec2>):
 * an axis-aligned box given by its min and max corners. The arithmetic is on
 * unbounded integers.
 */
module Boxes {
  datatype IVec2 = IVec2(x: int, y: int)

  function Add(p: IVec2, q: IVec2): IVec2 { IVec2(p.x + q.x, p.y + q.y) }
  function Sub(p: IVec2, q: IVec2): IVec2 { IVec2(p.x - q.x, p.y - q.y) }
  /** glm::min and glm::max: componentwise. */
  function MinOf(p: IVec2, q: IVec2): IVec2 {
    IVec2(if p.x <= q.x then p.x else q.x, if p.y <= q.y then p.y else q.y)
  }
  function MaxOf(p: IVec2, q: IVec2): IVec2 {
    IVec2(if p.x >= q.x then p.x else q.x, if p.y >= q.y then p.y else q.y)
  }

  /** A box as a value; the default box has both corners at the origin. */
  datatype BoxI = BoxI(min: IVec2, max: IVec2)

  const EmptyBox := BoxI(IVec2(0, 0), IVec2(0, 0))

  function Width(b: BoxI): int { b.max.x - b.min.x }
  function Height(b: BoxI): int { b.max.y - b.min.y }
  /** max - min, the size moveMin and moveMax keep. */
  function Size(b: BoxI): IVec2 { Sub(b.max, b.min) }

  /** contains: half-open on both axes. */
  predicate Contains(b: BoxI, p: IVec2) {
    p.x >= b.min.x && p.x < b.max.x && p.y >= b.min.y && p.y < b.max.y
  }

  /** `p` lies in `b` exactly when its offset from the min corner is within the width and height. */
  lemma ContainsOffset(b: BoxI, p: IVec2)
    ensures Contains(b, p) <==> 0 <= p.x - b.min.x < Width(b) && 0 <= p.y - b.min.y < Height(b)
  {
  }

  /** A box with no width or no height contains nothing; in particular one with min == max. */
  lemma FlatContainsNothing(b: BoxI, p: IVec2)
    requires Width(b) <= 0 || Height(b) <= 0
    ensures !Contains(b, p)
  {
  }

  /** moveMin: the min corner goes to `p`, the size is kept. */
  function MovedMin(b: BoxI, p: IVec2): (r: BoxI)
    ensures r.min == p && Size(r) == Size(b)
    ensures Width(r) == Width(b) && Height(r) == Height(b)
  {
    BoxI(p, Add(p, Size(b)))
  }

  /** moveMax: the max corner goes to `p`, the size is kept. */
  function MovedMax(b: BoxI, p: IVec2): (r: BoxI)
    ensures r.max == p && Size(r) == Size(b)
    ensures Width(r) == Width(b) && Height(r) == Height(b)
  {
    BoxI(Sub(p, Size(b)), p)
  }

  /** operator+: the box moved by `p`. */
  function Translated(b: BoxI, p: IVec2): (r: BoxI)
    ensures Size(r) == Size(b)
    ensures forall q :: Contains(r, Add(q, p)) <==> Contains(b, q)
  {
    BoxI(Add(b.min, p), Add(b.max, p))
  }

  /** Moving the min corner to where a translation takes it is that translation. */
  lemma MovedMinIsTranslated(b: BoxI, p: IVec2)
    ensures MovedMin(b, Add(b.min, p)) == Translated(b, p)
  {
  }

  /** Translations compose by adding their offsets. */
  lemma TranslatedTwice(b: BoxI, p: IVec2, q: IVec2)
    ensures Translated(Translated(b, p), q) == Translated(b, Add(p, q))
  {
  }

  /** operator|: the componentwise min of the mins and max of the maxes. */
  function United(a: BoxI, b: BoxI): (r: BoxI)
    ensures r.min.x <= a.min.x && r.min.x <= b.min.x && r.min.y <= a.min.y && r.min.y <= b.min.y
    ensures r.max.x >= a.max.x && r.max.x >= b.max.x && r.max.y >= a.max.y && r.max.y >= b.max.y
    ensures (r.min.x == a.min.x || r.min.x == b.min.x) && (r.min.y == a.min.y || r.min.y == b.min.y)
    ensures (r.max.x == a.max.x || r.max.x == b.max.x) && (r.max.y == a.max.y || r.max.y == b.max.y)
  {
    BoxI(MinOf(a.min, b.min), MaxOf(a.max, b.max))
  }

  lemma UnitedCommutative(a: BoxI, b: BoxI)
    ensures United(a, b) == United(b, a)
  {
  }

  lemma UnitedIdempotent(a: BoxI)
    ensures United(a, a) == a
  {
  }

  lemma UnitedAssociative(a: BoxI, b: BoxI, c: BoxI)
    ensures United(United(a, b), c) == United(a, United(b, c))
  {
  }

  /** The union contains every point of either box. */
  lemma UnitedContains(a: BoxI, b: BoxI, p: IVec2)
    ensures Contains(a, p) || Contains(b, p) ==> Contains(United(a, b), p)
  {
  }

  /** The union is the smallest box whose corners bound those of both boxes. */
  lemma UnitedLeast(a: BoxI, b: BoxI, c: BoxI)
    requires c.min.x <= a.min.x && c.min.x <= b.min.x && c.min.y <= a.min.y && c.min.y <= b.min.y
    requires c.max.x >= a.max.x && c.max.x >= b.max.x && c.max.y >= a.max.y && c.max.y >= b.max.y
    ensures c.min.x <= United(a, b).min.x && c.min.y <= United(a, b).min.y
    ensures c.max.x >= United(a, b).max.x && c.max.y >= United(a, b).max.y
  {
  }

  /** A Box object, whose moveMin, moveMax, += and |= update its corners in place. */
  class Box {
    var min: IVec2
    var max: IVec2

    function Value(): BoxI
      reads this
    {
      BoxI(min, max)
    }

    /** The default box: both corners at the origin. */
    constructor()
      ensures Value() == EmptyBox
    {
      min := IVec2(0, 0);
      max := IVec2(0, 0);
    }

    method MoveMin(p: IVec2)
      modifies this
      ensures Value() == MovedMin(old(Value()), p)
    {
      var size := Sub(max, min);
      min := p;
      max := Add(p, size);
    }

    method MoveMax(p: IVec2)
      modifies this
      ensures Value() == MovedMax(old(Value()), p)
    {
      var size := Sub(max, min);
      max := p;
      min := Sub(p, size);
    }

    /** operator+= */
    method Translate(p: IVec2)
      modifies this
      ensures Value() == Translated(old(Value()), p)
    {
      min := Add(min, p);
      max := Add(max, p);
    }

    /** operator|= */
    method Unite(rhs: BoxI)
      modifies this
      ensures Value() == United(old(Value()), rhs)
    {
      min := MinOf(min, rhs.min);
      max := MaxOf(max, rhs.max);
    }
  }
}
