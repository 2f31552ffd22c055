/**
 * One page of the texture atlas (textureatlaspage.cc): a guillotine binary
 * tree that hands out rectangles of a fixed-size page, and the page's pixel
 * buffer into which each inserted pixmap is copied row by row, one pixel of
 * margin away from the edges of its rectangle.
 */
module AtlasPage {
  import opened Wrappers
  import opened PixelTypes
  import opened Pixmaps

  /** The empty border kept around every pixmap on a page. */
  const Margin: int := 1

  datatype Rect = Rect(x: int, y: int, width: int, height: int)

  /** `inner` lies within `outer`. */
  predicate Inside(inner: Rect, outer: Rect) {
    outer.x <= inner.x && inner.x + inner.width <= outer.x + outer.width &&
    outer.y <= inner.y && inner.y + inner.height <= outer.y + outer.height
  }

  /** The rectangles do not overlap: one lies entirely to one side of the other. */
  predicate Disjoint(a: Rect, b: Rect) {
    a.x + a.width <= b.x || b.x + b.width <= a.x || a.y + a.height <= b.y || b.y + b.height <= a.y
  }

  /** The value of a Node: a leaf, free or handed out, or a node split into two children. */
  datatype Tree = Leaf(rect: Rect, used: bool) | Split(rect: Rect, used: bool, left: Tree, right: Tree)

  function Size(t: Tree): nat {
    match t
    case Leaf(_, _) => 1
    case Split(_, _, l, r) => 1 + Size(l) + Size(r)
  }

  /** How many of the two sides of the node still differ from the request. */
  function Slack(t: Tree, width: int, height: int): nat {
    (if t.rect.width == width then 0 else 1) + (if t.rect.height == height then 0 else 1)
  }

  /**
   * The two children a leaf is cut into for a width x height request: side by
   * side when the leftover width is larger than the leftover height, stacked
   * otherwise; the first child always has the request's width or height.
   */
  function Halves(rect: Rect, width: int, height: int): (Rect, Rect) {
    var splitX := rect.width - width;
    var splitY := rect.height - height;
    if splitX > splitY then
      (Rect(rect.x, rect.y, width, rect.height), Rect(rect.x + width, rect.y, splitX, rect.height))
    else
      (Rect(rect.x, rect.y, rect.width, height), Rect(rect.x, rect.y + height, rect.width, splitY))
  }

  /**
   * Node::insert on the value of the tree: the new tree and the rectangle
   * handed out, if any. A used node or one too small refuses; a split node
   * tries its left child and then its right; a leaf of exactly the requested
   * size is handed out whole; a larger leaf is split and its first child
   * tried.
   */
  function TreeInsert(t: Tree, width: int, height: int): (res: (Tree, Option<Rect>))
    ensures res.1.None? ==> res.0 == t
    ensures res.1.Some? ==> res.1.value.width == width && res.1.value.height == height
    ensures t.Leaf? && !t.used && width <= t.rect.width && height <= t.rect.height ==>
      res.1 == Some(Rect(t.rect.x, t.rect.y, width, height))
    ensures res.0.rect == t.rect
    decreases Size(t), Slack(t, width, height)
  {
    if t.used || width > t.rect.width || height > t.rect.height then (t, None)
    else match t
      case Split(rect, used, l, r) =>
        var left := TreeInsert(l, width, height);
        if left.1.Some? then (Split(rect, used, left.0, r), left.1)
        else
          var right := TreeInsert(r, width, height);
          (Split(rect, used, l, right.0), right.1)
      case Leaf(rect, _) =>
        if width == rect.width && height == rect.height then (Leaf(rect, true), Some(rect))
        else
          var halves := Halves(rect, width, height);
          var first := TreeInsert(Leaf(halves.0, false), width, height);
          (Split(rect, false, first.0, Leaf(halves.1, false)), first.1)
  }

  /**
   * The shape every tree built by inserts keeps: sizes are not negative,
   * split nodes are never used, and the two children of a split node cut it
   * into two non-overlapping parts that together cover it.
   */
  predicate Partitioned(t: Tree) {
    t.rect.width >= 0 && t.rect.height >= 0 &&
    match t
    case Leaf(_, _) => true
    case Split(rect, used, l, r) =>
      !used && Partitioned(l) && Partitioned(r) && Tiles(rect, l.rect, r.rect)
  }

  /** `a` and `b` cut `rect` in two, side by side or one above the other. */
  predicate Tiles(rect: Rect, a: Rect, b: Rect) {
    (a == Rect(rect.x, rect.y, a.width, rect.height) && b == Rect(rect.x + a.width, rect.y, rect.width - a.width, rect.height)) ||
    (a == Rect(rect.x, rect.y, rect.width, a.height) && b == Rect(rect.x, rect.y + a.height, rect.width, rect.height - a.height))
  }

  /** The rectangles handed out so far: the used leaves. */
  function Used(t: Tree): set<Rect> {
    match t
    case Leaf(rect, used) => if used then {rect} else {}
    case Split(_, _, l, r) => Used(l) + Used(r)
  }

  lemma {:induction false} UsedInside(t: Tree)
    requires Partitioned(t)
    ensures forall u :: u in Used(t) ==> Inside(u, t.rect)
  {
    match t
    case Leaf(_, _) =>
    case Split(rect, _, l, r) =>
      UsedInside(l);
      UsedInside(r);
  }

  /** Two rectangles inside two non-overlapping ones do not overlap either. */
  lemma InsideDisjoint(a: Rect, outerA: Rect, b: Rect, outerB: Rect)
    requires Inside(a, outerA) && Inside(b, outerB) && Disjoint(outerA, outerB)
    requires outerA.width >= 0 && outerA.height >= 0 && outerB.width >= 0 && outerB.height >= 0
    ensures Disjoint(a, b)
  {
  }

  /**
   * What an insert into `t` that returned `res` must have done: the tree is
   * still well formed, and a rectangle handed out lies inside the node,
   * overlaps none of the rectangles handed out before, and joins them.
   */
  predicate Packs(t: Tree, res: (Tree, Option<Rect>)) {
    Partitioned(res.0) &&
    (res.1.Some? ==>
      Inside(res.1.value, t.rect) &&
      (forall u :: u in Used(t) ==> Disjoint(res.1.value, u)) &&
      Used(res.0) == Used(t) + {res.1.value})
  }

  /** Every insert of a request of non-negative size into a well-formed tree packs. */
  lemma {:induction false} InsertPacks(t: Tree, width: int, height: int)
    requires Partitioned(t) && width >= 0 && height >= 0
    ensures Packs(t, TreeInsert(t, width, height))
    decreases Size(t), Slack(t, width, height)
  {
    if t.used || width > t.rect.width || height > t.rect.height {
    } else if t.Split? {
      InsertPacks(t.left, width, height);
      InsertPacks(t.right, width, height);
      SplitPacks(t, width, height);
    } else if width != t.rect.width || height != t.rect.height {
      var halves := Halves(t.rect, width, height);
      InsertPacks(Leaf(halves.0, false), width, height);
    }
  }

  /** The split-node step of InsertPacks: packing in either child packs in the node. */
  lemma SplitPacks(t: Tree, width: int, height: int)
    requires Partitioned(t) && t.Split? && !t.used && width <= t.rect.width && height <= t.rect.height
    requires Packs(t.left, TreeInsert(t.left, width, height))
    requires Packs(t.right, TreeInsert(t.right, width, height))
    ensures Packs(t, TreeInsert(t, width, height))
  {
    UsedInside(t.left);
    UsedInside(t.right);
    var left := TreeInsert(t.left, width, height);
    if left.1.Some? {
      PackedLeft(t, left.0, left.1.value);
    } else {
      var right := TreeInsert(t.right, width, height);
      if right.1.Some? {
        PackedRight(t, right.0, right.1.value);
      }
    }
  }

  /** A rectangle the left child hands out packs in the whole node. */
  lemma PackedLeft(t: Tree, l': Tree, v: Rect)
    requires Partitioned(t) && t.Split? && Packs(t.left, (l', Some(v)))
    requires l'.rect == t.left.rect
    requires forall u :: u in Used(t.right) ==> Inside(u, t.right.rect)
    ensures Packs(t, (Split(t.rect, t.used, l', t.right), Some(v)))
  {
    forall u | u in Used(t.right) ensures Disjoint(v, u) {
      InsideDisjoint(v, t.left.rect, u, t.right.rect);
    }
  }

  /** A rectangle the right child hands out packs in the whole node. */
  lemma PackedRight(t: Tree, r': Tree, v: Rect)
    requires Partitioned(t) && t.Split? && Packs(t.right, (r', Some(v)))
    requires r'.rect == t.right.rect
    requires forall u :: u in Used(t.left) ==> Inside(u, t.left.rect)
    ensures Packs(t, (Split(t.rect, t.used, t.left, r'), Some(v)))
  {
    forall u | u in Used(t.left) ensures Disjoint(v, u) {
      InsideDisjoint(u, t.left.rect, v, t.right.rect);
    }
  }

  /** The halves of a leaf cut it in two non-overlapping parts, the first at its corner. */
  lemma HalvesTile(rect: Rect, width: int, height: int)
    requires 0 <= width <= rect.width && 0 <= height <= rect.height
    ensures var halves := Halves(rect, width, height);
      Tiles(rect, halves.0, halves.1) && Disjoint(halves.0, halves.1) &&
      halves.0.x == rect.x && halves.0.y == rect.y &&
      width <= halves.0.width && height <= halves.0.height &&
      (halves.0.width == width || halves.0.height == height)
  {
  }

  /** A run of inserts, one per request, each into the tree the previous one left. */
  function InsertAll(t: Tree, requests: seq<(int, int)>): (res: (Tree, seq<Option<Rect>>))
    ensures |res.1| == |requests| && res.0.rect == t.rect
    decreases |requests|
  {
    if requests == [] then (t, [])
    else
      var first := TreeInsert(t, requests[0].0, requests[0].1);
      var rest := InsertAll(first.0, requests[1..]);
      (rest.0, [first.1] + rest.1)
  }

  /**
   * Over any run of inserts of non-negative sizes into a well-formed tree,
   * every rectangle handed out has the requested size, lies inside the root,
   * overlaps nothing the tree had handed out before and no other rectangle
   * of the run.
   */
  lemma {:induction false} InsertAllPacks(t: Tree, requests: seq<(int, int)>)
    requires Partitioned(t)
    requires forall i :: 0 <= i < |requests| ==> requests[i].0 >= 0 && requests[i].1 >= 0
    ensures var res := InsertAll(t, requests);
      Partitioned(res.0) && Used(t) <= Used(res.0) &&
      forall i :: 0 <= i < |requests| && res.1[i].Some? ==>
        res.1[i].value.width == requests[i].0 && res.1[i].value.height == requests[i].1 &&
        Inside(res.1[i].value, t.rect) && res.1[i].value in Used(res.0) &&
        (forall u :: u in Used(t) ==> Disjoint(res.1[i].value, u)) &&
        (forall j :: i < j < |requests| && res.1[j].Some? ==> Disjoint(res.1[i].value, res.1[j].value))
    decreases |requests|
  {
    if requests != [] {
      var first := TreeInsert(t, requests[0].0, requests[0].1);
      InsertPacks(t, requests[0].0, requests[0].1);
      InsertAllPacks(first.0, requests[1..]);
      var rest := InsertAll(first.0, requests[1..]);
      var res := InsertAll(t, requests);
      assert res.1 == [first.1] + rest.1;
      forall i | 1 <= i < |requests| && res.1[i].Some?
        ensures Inside(res.1[i].value, t.rect)
        ensures forall u :: u in Used(t) ==> Disjoint(res.1[i].value, u)
      {
        assert res.1[i] == rest.1[i - 1];
      }
      if first.1.Some? {
        forall j | 0 < j < |requests| && res.1[j].Some?
          ensures Disjoint(first.1.value, res.1[j].value)
        {
          assert res.1[j] == rest.1[j - 1];
        }
      }
    }
  }

  /** A node of the tree, which owns its two children (both absent in a leaf). */
  class Node {
    var rect: Rect
    var left: Node?
    var right: Node?
    var used: bool
    /** The value the subtree rooted here stands for. */
    ghost var model: Tree
    ghost var Repr: set<object>

    ghost predicate Valid()
      reads this, Repr
      decreases Repr
    {
      this in Repr &&
      (left == null <==> right == null) &&
      (left == null ==> model == Leaf(rect, used)) &&
      (left != null ==>
        left in Repr && right in Repr &&
        left.Repr <= Repr && right.Repr <= Repr &&
        this !in left.Repr && this !in right.Repr && left.Repr !! right.Repr &&
        left.Valid() && right.Valid() &&
        model == Split(rect, used, left.model, right.model))
    }

    /** Node{rect}: a free leaf. */
    constructor(rect: Rect)
      ensures Valid() && fresh(Repr) && Repr == {this}
      ensures model == Leaf(rect, false)
    {
      this.rect := rect;
      left := null;
      right := null;
      used := false;
      model := Leaf(rect, false);
      Repr := {this};
    }

    /** Node::insert: the subtree changes exactly as TreeInsert says. */
    method Insert(width: int, height: int) returns (r: Option<Rect>)
      requires Valid()
      modifies Repr
      ensures Valid() && fresh(Repr - old(Repr))
      ensures (model, r) == TreeInsert(old(model), width, height)
      decreases Size(model), Slack(model, width, height), 1
    {
      if used || width > rect.width || height > rect.height {
        return None;
      }
      if left != null {
        r := InsertIntoChildren(width, height);
      } else if width == rect.width && height == rect.height {
        used := true;
        model := Leaf(rect, true);
        return Some(rect);
      } else {
        r := SplitAndInsert(width, height);
      }
    }

    /** An internal node: the left child first, the right one only if the left refuses. */
    method InsertIntoChildren(width: int, height: int) returns (r: Option<Rect>)
      requires Valid() && left != null && !used && width <= rect.width && height <= rect.height
      modifies Repr
      ensures Valid() && fresh(Repr - old(Repr))
      ensures (model, r) == TreeInsert(old(model), width, height)
      decreases Size(model), Slack(model, width, height), 0
    {
      r := left.Insert(width, height);
      assert right.Valid() && left.Repr !! right.Repr;
      if r.None? {
        r := right.Insert(width, height);
        assert left.Valid() && left.Repr !! right.Repr;
      }
      Repr := Repr + left.Repr + right.Repr;
      model := Split(rect, used, left.model, right.model);
    }

    /** A free leaf larger than the request: cut it in two and insert into the first half. */
    method SplitAndInsert(width: int, height: int) returns (r: Option<Rect>)
      requires Valid() && left == null && !used && width <= rect.width && height <= rect.height
      requires width != rect.width || height != rect.height
      modifies Repr
      ensures Valid() && fresh(Repr - old(Repr))
      ensures (model, r) == TreeInsert(old(model), width, height)
      decreases Size(model), Slack(model, width, height), 0
    {
      var halves := Halves(rect, width, height);
      left := new Node(halves.0);
      right := new Node(halves.1);
      Repr := Repr + {left, right};
      r := left.Insert(width, height);
      assert right.Valid() && left.Repr !! right.Repr;
      Repr := Repr + left.Repr;
      model := Split(rect, used, left.model, right.model);
    }
  }

  /** The offset in the buffer of a page's row `i`, counted from the first one at `first`. */
  function RowStart(first: int, span: int, i: int): int {
    first + i * span
  }

  /**
   * Each of `rows` rows of `length` bytes, taken one after another from a
   * source of `srcSize` bytes, fits in a destination of `dstSize` bytes when
   * the rows are placed `span` bytes apart from `first` on.
   */
  predicate RowsFit(dstSize: int, srcSize: int, first: int, span: int, length: int, rows: nat) {
    0 <= length && rows * length <= srcSize &&
    forall i :: 0 <= i < rows ==> 0 <= RowStart(first, span, i) && RowStart(first, span, i) + length <= dstSize
  }

  /** std::copy of `length` bytes of `src` from `from` on into `dst` at `to`. */
  function CopyRow(dst: seq<byte>, src: seq<byte>, from: int, to: int, length: int): (r: seq<byte>)
    requires 0 <= from && from + length <= |src| && 0 <= to && to + length <= |dst|
    ensures |r| == |dst|
    ensures forall k :: 0 <= k < |dst| ==> r[k] == if to <= k < to + length then src[from + k - to] else dst[k]
  {
    seq(|dst|, k requires 0 <= k < |dst| => if to <= k < to + length then src[from + k - to] else dst[k])
  }

  /** The page buffer after the first `rows` rows of a pixmap have been copied into it. */
  function Blit(dst: seq<byte>, src: seq<byte>, first: int, span: int, length: int, rows: nat): (r: seq<byte>)
    requires RowsFit(|dst|, |src|, first, span, length, rows)
    ensures |r| == |dst|
    decreases rows
  {
    if rows == 0 then dst
    else
      assert RowsFit(|dst|, |src|, first, span, length, rows - 1);
      assert rows * length == (rows - 1) * length + length;
      CopyRow(Blit(dst, src, first, span, length, rows - 1), src, (rows - 1) * length, RowStart(first, span, rows - 1), length)
  }

  /** Every copied row holds the matching row of the pixmap, when rows are no longer than their spacing. */
  lemma {:induction false} BlitRow(dst: seq<byte>, src: seq<byte>, first: int, span: int, length: int, rows: nat, i: int, k: int)
    requires RowsFit(|dst|, |src|, first, span, length, rows) && length <= span
    requires 0 <= i < rows && 0 <= k < length
    ensures 0 <= i * length + k < |src|
    ensures Blit(dst, src, first, span, length, rows)[RowStart(first, span, i) + k] == src[i * length + k]
    decreases rows
  {
    assert i * length + k < (i + 1) * length <= rows * length;
    if i < rows - 1 {
      assert RowsFit(|dst|, |src|, first, span, length, rows - 1);
      BlitRow(dst, src, first, span, length, rows - 1, i, k);
      RowsApart(first, span, length, i, rows - 1);
    }
  }

  /** Rows no longer than their spacing do not run into one another. */
  lemma RowsApart(first: int, span: int, length: int, i: int, j: int)
    requires 0 <= length <= span && i < j
    ensures RowStart(first, span, i) + length <= RowStart(first, span, j)
  {
    var d := j - i - 1;
    assert j * span == i * span + d * span + span;
    assert d * span >= 0;
  }

  /** A byte in none of the copied rows keeps its old value. */
  lemma {:induction false} BlitElsewhere(dst: seq<byte>, src: seq<byte>, first: int, span: int, length: int, rows: nat, k: int)
    requires RowsFit(|dst|, |src|, first, span, length, rows)
    requires 0 <= k < |dst|
    requires forall i :: 0 <= i < rows ==> !(RowStart(first, span, i) <= k < RowStart(first, span, i) + length)
    ensures Blit(dst, src, first, span, length, rows)[k] == dst[k]
    decreases rows
  {
    if rows > 0 {
      assert RowsFit(|dst|, |src|, first, span, length, rows - 1);
      BlitElsewhere(dst, src, first, span, length, rows - 1, k);
    }
  }

  /** Fitting rows keep fitting when fewer of them are copied. */
  lemma RowsFitFewer(dstSize: int, srcSize: int, first: int, span: int, length: int, rows: nat, fewer: nat)
    requires RowsFit(dstSize, srcSize, first, span, length, rows) && fewer <= rows
    ensures RowsFit(dstSize, srcSize, first, span, length, fewer)
  {
    assert rows * length == fewer * length + (rows - fewer) * length;
    assert (rows - fewer) * length >= 0;
  }

  /** Multiplying both sides of an inequality by a non-negative factor keeps it. */
  lemma MulMonotone(a: int, b: int, c: int)
    requires a <= b && 0 <= c
    ensures a * c <= b * c
  {
    assert b * c - a * c == (b - a) * c;
  }

  /**
   * Row `i` of a width x height pixmap placed one pixel inside the rectangle
   * at (x, y) of (width + 2) x (height + 2) lies within the buffer of a
   * pageWidth x pageHeight page when that rectangle lies within the page.
   */
  lemma PageRow(pageWidth: int, pageHeight: int, pixelSize: int, x: int, y: int, width: int, height: int, i: int)
    requires 0 <= x && x + width + 2 * Margin <= pageWidth && 0 <= y && y + height + 2 * Margin <= pageHeight
    requires 0 <= width && 1 <= pixelSize && 0 <= i < height
    ensures 0 <= RowStart(((y + Margin) * pageWidth + x + Margin) * pixelSize, pageWidth * pixelSize, i)
    ensures RowStart(((y + Margin) * pageWidth + x + Margin) * pixelSize, pageWidth * pixelSize, i) + width * pixelSize
      <= pageWidth * pageHeight * pixelSize
  {
    var row := y + Margin + i;
    var start := RowStart(((y + Margin) * pageWidth + x + Margin) * pixelSize, pageWidth * pixelSize, i);
    assert start == (row * pageWidth + x + Margin) * pixelSize;
    assert 0 <= row * pageWidth;
    assert 0 <= (row * pageWidth + x + Margin) * pixelSize;
    assert row * pageWidth + x + Margin + width <= (row + 1) * pageWidth;
    MulMonotone(row + 1, pageHeight, pageWidth);
    MulMonotone(row * pageWidth + x + Margin + width, pageHeight * pageWidth, pixelSize);
    assert start + width * pixelSize == (row * pageWidth + x + Margin + width) * pixelSize;
  }

  /** The rows of a pixmap copied to a rectangle of a page that lies within the page fit. */
  lemma PageRowsFit(pageWidth: int, pageHeight: int, pixelSize: int, rect: Rect, width: int, height: int)
    requires Inside(rect, Rect(0, 0, pageWidth, pageHeight))
    requires rect.width == width + 2 * Margin && rect.height == height + 2 * Margin
    requires 0 <= width && 0 <= height && 1 <= pixelSize
    ensures RowsFit(pageWidth * pageHeight * pixelSize, width * height * pixelSize,
      ((rect.y + Margin) * pageWidth + rect.x + Margin) * pixelSize, pageWidth * pixelSize, width * pixelSize, height)
    ensures width * pixelSize <= pageWidth * pixelSize
  {
    var first, span := ((rect.y + Margin) * pageWidth + rect.x + Margin) * pixelSize, pageWidth * pixelSize;
    forall i | 0 <= i < height
      ensures 0 <= RowStart(first, span, i) && RowStart(first, span, i) + width * pixelSize <= pageWidth * pageHeight * pixelSize
    {
      PageRow(pageWidth, pageHeight, pixelSize, rect.x, rect.y, width, height, i);
    }
    assert height * (width * pixelSize) == width * height * pixelSize;
    assert 0 <= width * pixelSize;
    MulMonotone(width, pageWidth, pixelSize);
  }

  /**
   * The copy loop of TextureAtlasPage::insert: `rows` rows of `length` bytes,
   * read one after another from `src`, written `span` bytes apart into `dst`
   * from `first` on.
   */
  method CopyRows(dst: array<byte>, src: seq<byte>, first: int, span: int, length: int, rows: nat)
    requires RowsFit(dst.Length, |src|, first, span, length, rows)
    modifies dst
    ensures dst[..] == Blit(old(dst[..]), src, first, span, length, rows)
  {
    var from := 0;
    var to := first;
    for i := 0 to rows
      invariant from == i * length && to == RowStart(first, span, i)
      invariant RowsFit(dst.Length, |src|, first, span, length, i)
      invariant dst[..] == Blit(old(dst[..]), src, first, span, length, i)
    {
      RowsFitFewer(dst.Length, |src|, first, span, length, rows, i + 1);
      assert from + length == (i + 1) * length;
      ghost var previous := dst[..];
      forall k | 0 <= k < length {
        dst[to + k] := src[from + k];
      }
      assert dst[..] == CopyRow(previous, src, from, to, length);
      from := from + length;
      to := to + span;
    }
  }

  /** A page of the atlas: a pixel buffer of a fixed size and type, and the tree that hands out its space. */
  class Page {
    const width: int
    const height: int
    const pixelType: PixelType
    const pixels: array<byte>
    const tree: Node
    /** The contents of the pixel buffer. */
    ghost var image: seq<byte>
    ghost var Repr: set<object>

    ghost predicate Valid()
      reads this, Repr
    {
      this in Repr && pixels in Repr && tree in Repr && tree.Repr <= Repr &&
      this !in tree.Repr && pixels !in tree.Repr &&
      tree.Valid() && Partitioned(tree.model) && tree.model.rect == Rect(0, 0, width, height) &&
      0 <= width && 0 <= height && pixels.Length == width * height * PixelSizeInBytes(pixelType) &&
      image == pixels[..]
    }

    /** TextureAtlasPage(width, height, pixelType): a zero-filled buffer and a single free leaf covering it. */
    constructor(width: int, height: int, pixelType: PixelType)
      requires 0 <= width && 0 <= height
      ensures Valid() && fresh(Repr)
      ensures this.width == width && this.height == height && this.pixelType == pixelType
      ensures tree.model == Leaf(Rect(0, 0, width, height), false)
      ensures image == NewPixmap(width, height, pixelType).pixels
    {
      this.width := width;
      this.height := height;
      this.pixelType := pixelType;
      pixels := new byte[width * height * PixelSizeInBytes(pixelType)](_ => 0);
      tree := new Node(Rect(0, 0, width, height));
      new;
      image := pixels[..];
      Repr := {this, pixels} + tree.Repr;
    }

    /** TextureAtlasPage::pixmap: the page's image. */
    function Image(): (p: Pixmap)
      requires Valid()
      reads this, Repr
      ensures Pixmaps.WellFormed(p) && p.pixelType == pixelType && p.pixels == image
      ensures p.width == width && p.height == height
    {
      Pixmap(width, height, pixelType, pixels[..])
    }

    /**
     * TextureAtlasPage::insert: a pixmap of another pixel type is refused;
     * otherwise space for it and a one-pixel margin all round is asked of the
     * tree, and when the tree grants a rectangle, the pixmap's rows are copied
     * one pixel in from its corner. The result is the rectangle of the page
     * the pixmap now occupies.
     */
    method Insert(pm: Pixmap) returns (r: Option<Rect>)
      requires Valid() && Pixmaps.WellFormed(pm)
      modifies Repr
      ensures Valid() && fresh(Repr - old(Repr))
      ensures pm.pixelType != pixelType ==>
        r == None && tree.model == old(tree.model) && image == old(image)
      ensures pm.pixelType == pixelType ==> Inserted(old(tree.model), old(image), pm, r)
    {
      if pm.pixelType != pixelType {
        return None;
      }
      r := Place(pm);
    }

    /** The rest of TextureAtlasPage::insert, once the pixel types agree. */
    method Place(pm: Pixmap) returns (r: Option<Rect>)
      requires Valid() && Pixmaps.WellFormed(pm) && pm.pixelType == pixelType
      modifies Repr
      ensures Valid() && fresh(Repr - old(Repr))
      ensures Inserted(old(tree.model), old(image), pm, r)
    {
      ghost var before := tree.model;
      var rect := tree.Insert(pm.width + 2 * Margin, pm.height + 2 * Margin);
      InsertPacks(before, pm.width + 2 * Margin, pm.height + 2 * Margin);
      Repr := Repr + tree.Repr;
      if rect.None? {
        return None;
      }
      CopyPixmap(pm, rect.value);
      image := pixels[..];
      r := Some(Rect(rect.value.x + Margin, rect.value.y + Margin, pm.width, pm.height));
    }

    /** Copies the rows of `pm` into the page rectangle `rect` the tree granted, one pixel in from its corner. */
    method CopyPixmap(pm: Pixmap, rect: Rect)
      requires 0 <= width && 0 <= height && pixels.Length == width * height * PixelSizeInBytes(pixelType)
      requires Pixmaps.WellFormed(pm) && pm.pixelType == pixelType
      requires Inside(rect, Rect(0, 0, width, height))
      requires rect.width == pm.width + 2 * Margin && rect.height == pm.height + 2 * Margin
      modifies pixels
      ensures Blitted(old(pixels[..]), pixels[..], pm, rect)
    {
      var pixelSize := PixelSizeInBytes(pixelType);
      PixelSizeOneOrFour(pixelType);
      var srcSpan := pm.width * pixelSize;
      var first := ((rect.y + Margin) * width + rect.x + Margin) * pixelSize;
      var destSpan := width * pixelSize;
      PageRowsFit(width, height, pixelSize, rect, pm.width, pm.height);
      CopyRows(pixels, pm.pixels, first, destSpan, srcSpan, pm.height);
    }

    /**
     * The page after `pm` was offered to it when its tree was `before` and
     * its pixels `buffer`: the tree is what TreeInsert makes of `before` for
     * the pixmap and its margin; when that grants a rectangle, the result is
     * the part of it one pixel in from each edge and the pixmap's rows are
     * copied there, and otherwise the result is none and the pixels are as
     * they were.
     */
    ghost predicate Inserted(before: Tree, buffer: seq<byte>, pm: Pixmap, r: Option<Rect>)
      reads this, tree
    {
      var res := TreeInsert(before, pm.width + 2 * Margin, pm.height + 2 * Margin);
      tree.model == res.0 &&
      (res.1.None? ==> r == None && image == buffer) &&
      (res.1.Some? ==>
        r == Some(Rect(res.1.value.x + Margin, res.1.value.y + Margin, pm.width, pm.height)) &&
        Blitted(buffer, image, pm, res.1.value))
    }

    /**
     * `after` is the buffer `before` with the rows of `pm` copied into the
     * page rectangle `rect`, one pixel in from its corner.
     */
    ghost predicate Blitted(before: seq<byte>, after: seq<byte>, pm: Pixmap, rect: Rect)
      reads this
    {
      var pixelSize := PixelSizeInBytes(pixelType);
      var first := ((rect.y + Margin) * width + rect.x + Margin) * pixelSize;
      0 <= pm.height &&
      RowsFit(|before|, |pm.pixels|, first, width * pixelSize, pm.width * pixelSize, pm.height) &&
      pm.width * pixelSize <= width * pixelSize &&
      after == Blit(before, pm.pixels, first, width * pixelSize, pm.width * pixelSize, pm.height)
    }
  }
}
