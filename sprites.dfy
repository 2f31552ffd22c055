/**
 * What the sprite batcher (spritebatcher.cc, spritebatcher.h) works on and
 * what it sends to the GPU, as values: quads with their sort key, the stable
 * order renderBatch draws them in, the runs of quads that share a texture and
 * a shader program, and the draw calls those runs become.
 */
module Sprites {
  /** ShaderManager::Program, in declaration order. */
  datatype Program = Text | Shape | Circle | ThickLine

  /** The enumerator's value, which is what std::tie compares. */
  function ProgramIndex(p: Program): (n: nat)
    ensures n < 4
  {
    match p
    case Text => 0
    case Shape => 1
    case Circle => 2
    case ThickLine => 3
  }

  /** The address of a texture, compared as the pointers are; 0 stands for the null texture. */
  type TextureId = int

  datatype Vec2 = Vec2(x: real, y: real)
  datatype Vec4 = Vec4(x: real, y: real, z: real, w: real)
  datatype BoxF = BoxF(min: Vec2, max: Vec2)

  /** PackedPixmap as the batcher reads it: the texture coordinates of the pixmap and its texture. */
  datatype PackedPixmap = PackedPixmap(width: int, height: int, textureCoords: BoxF, texture: TextureId)

  datatype Vertex = Vertex(position: Vec2, textureCoords: Vec2, fgColor: Vec4, bgColor: Vec4)

  /** QuadVerts: the four corners of a sprite. */
  datatype QuadVerts = QuadVerts(v0: Vertex, v1: Vertex, v2: Vertex, v3: Vertex)

  datatype Quad = Quad(texture: TextureId, program: Program, verts: QuadVerts, depth: int)

  /** The capacity of the vertex buffer, in floats. */
  const BufferCapacity: int := 0x10_0000
  /** The floats of one Vertex: two for the position, two for the texture coordinates, four per color. */
  const GLVertexSize: int := 2 + 2 + 4 + 4
  /** Six vertices per quad: two triangles. */
  const GLQuadSize: int := 6 * GLVertexSize
  /** As many quads as the buffer holds. */
  const MaxQuadsPerBatch: int := BufferCapacity / GLQuadSize

  /** The constants agree with the sizes of the layout. */
  lemma Constants()
    ensures GLVertexSize == 12 && GLQuadSize == 72 && MaxQuadsPerBatch == 14563
    ensures MaxQuadsPerBatch * GLQuadSize <= BufferCapacity < (MaxQuadsPerBatch + 1) * GLQuadSize
  {
  }

  // ---------------------------------------------------------------------------
  // The vertex data of a quad
  // ---------------------------------------------------------------------------

  function Corner(verts: QuadVerts, i: nat): Vertex
    requires i < 4
  {
    if i == 0 then verts.v0 else if i == 1 then verts.v1 else if i == 2 then verts.v2 else verts.v3
  }

  /** The corners each quad is drawn with: the triangles 0,1,2 and 2,3,0. */
  const EmitOrder: seq<nat> := [0, 1, 2, 2, 3, 0]

  /** The floats emitVertex writes for one vertex. */
  function VertexFloats(v: Vertex): (r: seq<real>)
    ensures |r| == GLVertexSize
    ensures r[0] == v.position.x && r[1] == v.position.y
    ensures r[2] == v.textureCoords.x && r[3] == v.textureCoords.y
    ensures r[4..8] == [v.fgColor.x, v.fgColor.y, v.fgColor.z, v.fgColor.w]
    ensures r[8..] == [v.bgColor.x, v.bgColor.y, v.bgColor.z, v.bgColor.w]
  {
    [v.position.x, v.position.y, v.textureCoords.x, v.textureCoords.y,
     v.fgColor.x, v.fgColor.y, v.fgColor.z, v.fgColor.w,
     v.bgColor.x, v.bgColor.y, v.bgColor.z, v.bgColor.w]
  }

  /** The vertices drawn for a quad, in order. */
  function Emitted(verts: QuadVerts): (r: seq<Vertex>)
    ensures |r| == |EmitOrder| == 6
    ensures forall k :: 0 <= k < 6 ==> r[k] == Corner(verts, EmitOrder[k])
  {
    [verts.v0, verts.v1, verts.v2, verts.v2, verts.v3, verts.v0]
  }

  function VerticesFloats(vs: seq<Vertex>): (r: seq<real>)
    ensures |r| == |vs| * GLVertexSize
  {
    if vs == [] then [] else VertexFloats(vs[0]) + VerticesFloats(vs[1..])
  }

  /** The floats written into the buffer for one quad. */
  function QuadFloats(q: Quad): (r: seq<real>)
    ensures |r| == GLQuadSize
  {
    VerticesFloats(Emitted(q.verts))
  }

  /** A quad's floats are those of its corners 0, 1, 2, 2, 3, 0, one vertex after the other. */
  lemma QuadFloatsInEmitOrder(q: Quad)
    ensures QuadFloats(q) ==
      VertexFloats(Corner(q.verts, EmitOrder[0])) + VertexFloats(Corner(q.verts, EmitOrder[1])) +
      VertexFloats(Corner(q.verts, EmitOrder[2])) + VertexFloats(Corner(q.verts, EmitOrder[3])) +
      VertexFloats(Corner(q.verts, EmitOrder[4])) + VertexFloats(Corner(q.verts, EmitOrder[5]))
  {
    var w := q.verts;
    var e5 := [w.v0];
    var e4 := [w.v3] + e5;
    var e3 := [w.v2] + e4;
    var e2 := [w.v2] + e3;
    var e1 := [w.v1] + e2;
    assert Emitted(w) == [w.v0] + e1;
    VerticesFloatsCons(w.v0, []);
    VerticesFloatsCons(w.v3, e5);
    VerticesFloatsCons(w.v2, e4);
    VerticesFloatsCons(w.v2, e3);
    VerticesFloatsCons(w.v1, e2);
    VerticesFloatsCons(w.v0, e1);
  }

  lemma VerticesFloatsCons(v: Vertex, vs: seq<Vertex>)
    ensures VerticesFloats([v] + vs) == VertexFloats(v) + VerticesFloats(vs)
  {
    assert ([v] + vs)[1..] == vs;
  }

  /** The floats written for quads `s`, one after the other. */
  function Floats(s: seq<Quad>): (r: seq<real>)
    ensures |r| == |s| * GLQuadSize
  {
    if s == [] then [] else QuadFloats(s[0]) + Floats(s[1..])
  }

  lemma {:induction false} FloatsAppend(s: seq<Quad>, t: seq<Quad>)
    ensures Floats(s + t) == Floats(s) + Floats(t)
    decreases |s|
  {
    if s == [] {
      assert s + t == t;
    } else {
      assert (s + t)[1..] == s[1..] + t;
      FloatsAppend(s[1..], t);
    }
  }

  /** The floats of one more quad. */
  lemma FloatsSnoc(s: seq<Quad>, q: Quad)
    ensures Floats(s + [q]) == Floats(s) + QuadFloats(q)
  {
    FloatsAppend(s, [q]);
    assert Floats([q]) == QuadFloats(q) + Floats([]);
  }

  /** The corners of a box in the order of a quad's vertices: top left, top right, bottom right, bottom left. */
  function BoxCorner(b: BoxF, i: nat): Vec2
    requires i < 4
  {
    if i == 0 then b.min
    else if i == 1 then Vec2(b.max.x, b.min.y)
    else if i == 2 then b.max
    else Vec2(b.min.x, b.max.y)
  }

  /**
   * The corners addSprite builds for a pixmap drawn into the box from
   * `topLeft` to `bottomRight`: each corner of the box gets the same corner
   * of the pixmap's texture coordinates, and both colors.
   */
  function SpriteVerts(textureCoords: BoxF, topLeft: Vec2, bottomRight: Vec2, fgColor: Vec4, bgColor: Vec4): (v: QuadVerts)
    ensures forall i :: 0 <= i < 4 ==>
      Corner(v, i).position == BoxCorner(BoxF(topLeft, bottomRight), i) &&
      Corner(v, i).textureCoords == BoxCorner(textureCoords, i) &&
      Corner(v, i).fgColor == fgColor && Corner(v, i).bgColor == bgColor
  {
    var p0, p1, t0, t1 := topLeft, bottomRight, textureCoords.min, textureCoords.max;
    QuadVerts(
      Vertex(Vec2(p0.x, p0.y), Vec2(t0.x, t0.y), fgColor, bgColor),
      Vertex(Vec2(p1.x, p0.y), Vec2(t1.x, t0.y), fgColor, bgColor),
      Vertex(Vec2(p1.x, p1.y), Vec2(t1.x, t1.y), fgColor, bgColor),
      Vertex(Vec2(p0.x, p1.y), Vec2(t0.x, t1.y), fgColor, bgColor))
  }

  /** The background color of the one-color overload of addSprite. */
  const NoColor: Vec4 := Vec4(0.0, 0.0, 0.0, 0.0)

  /**
   * A sprite over a box of nonzero width and height is an axis-aligned
   * rectangle: walking its corners in order, each edge moves along exactly
   * one axis, and the two triangles drawn (corners 0, 1, 2 and 2, 3, 0)
   * share the diagonal from the top left to the bottom right corner. The
   * same holds of its texture coordinates when the pixmap's texture box has
   * nonzero width and height, with the diagonal from its min to its max.
   */
  lemma SpriteIsRectangle(textureCoords: BoxF, topLeft: Vec2, bottomRight: Vec2, fgColor: Vec4, bgColor: Vec4, i: nat)
    requires topLeft.x != bottomRight.x && topLeft.y != bottomRight.y && i < 4
    ensures var v := SpriteVerts(textureCoords, topLeft, bottomRight, fgColor, bgColor);
      var a, b := Corner(v, i).position, Corner(v, (i + 1) % 4).position;
      (a.x == b.x) != (a.y == b.y)
    ensures var v := SpriteVerts(textureCoords, topLeft, bottomRight, fgColor, bgColor);
      Corner(v, EmitOrder[2]) == Corner(v, EmitOrder[3]) && Corner(v, EmitOrder[0]) == Corner(v, EmitOrder[5]) &&
      Corner(v, EmitOrder[0]).position == topLeft && Corner(v, EmitOrder[2]).position == bottomRight
    ensures var v := SpriteVerts(textureCoords, topLeft, bottomRight, fgColor, bgColor);
      var a, b := Corner(v, i).textureCoords, Corner(v, (i + 1) % 4).textureCoords;
      textureCoords.min.x != textureCoords.max.x && textureCoords.min.y != textureCoords.max.y ==>
        (a.x == b.x) != (a.y == b.y)
    ensures var v := SpriteVerts(textureCoords, topLeft, bottomRight, fgColor, bgColor);
      Corner(v, EmitOrder[0]).textureCoords == textureCoords.min && Corner(v, EmitOrder[2]).textureCoords == textureCoords.max
  {
  }

  // ---------------------------------------------------------------------------
  // The order renderBatch draws quads in
  // ---------------------------------------------------------------------------

  /** std::tie(depth, texture, program) < std::tie(...): lexicographic. */
  predicate KeyLess(a: Quad, b: Quad) {
    a.depth < b.depth ||
    (a.depth == b.depth && (a.texture < b.texture ||
      (a.texture == b.texture && ProgramIndex(a.program) < ProgramIndex(b.program))))
  }

  /** Neither quad sorts before the other. */
  predicate SameKey(a: Quad, b: Quad) {
    a.depth == b.depth && a.texture == b.texture && a.program == b.program
  }

  /** Any two quads either sort one way, the other way, or tie. */
  lemma KeyTrichotomy(a: Quad, b: Quad)
    ensures KeyLess(a, b) || KeyLess(b, a) || SameKey(a, b)
    ensures !(KeyLess(a, b) && KeyLess(b, a)) && !(KeyLess(a, b) && SameKey(a, b))
  {
    if a.depth == b.depth && a.texture == b.texture && ProgramIndex(a.program) == ProgramIndex(b.program) {
      assert a.program == b.program;
    }
  }

  /** The key order is transitive, and so is a tie: with KeyTrichotomy, a strict weak order. */
  lemma KeyTransitive(a: Quad, b: Quad, c: Quad)
    ensures KeyLess(a, b) && KeyLess(b, c) ==> KeyLess(a, c)
    ensures SameKey(a, b) && SameKey(b, c) ==> SameKey(a, c)
    ensures SameKey(a, b) ==> (KeyLess(a, c) <==> KeyLess(b, c)) && (KeyLess(c, a) <==> KeyLess(c, b))
  {
  }

  /** Keys never decrease along `s`. */
  ghost predicate Ascending(s: seq<Quad>) {
    forall a, b :: 0 <= a < b < |s| ==> !KeyLess(s[b], s[a])
  }

  /** Puts `q` after every quad of `s` that does not sort after it. */
  function InsertSorted(s: seq<Quad>, q: Quad): (r: seq<Quad>)
    ensures multiset(r) == multiset(s) + multiset{q}
  {
    if s == [] then [q]
    else if KeyLess(q, s[0]) then [q] + s
    else
      assert s == [s[0]] + s[1..];
      [s[0]] + InsertSorted(s[1..], q)
  }

  /** The quads as std::stable_sort orders them, modelled as an insertion sort. */
  function StableSort(qs: seq<Quad>): (r: seq<Quad>)
    ensures multiset(r) == multiset(qs)
    decreases |qs|
  {
    if qs == [] then []
    else
      assert qs == qs[..|qs| - 1] + [qs[|qs| - 1]];
      InsertSorted(StableSort(qs[..|qs| - 1]), qs[|qs| - 1])
  }

  /** The quads of `s` whose key is that of `k`, in the order of `s`. */
  function WithKey(s: seq<Quad>, k: Quad): (r: seq<Quad>)
    ensures forall j :: 0 <= j < |r| ==> SameKey(r[j], k)
  {
    if s == [] then []
    else (if SameKey(s[0], k) then [s[0]] else []) + WithKey(s[1..], k)
  }

  lemma {:induction false} WithKeyAppend(s: seq<Quad>, t: seq<Quad>, k: Quad)
    ensures WithKey(s + t, k) == WithKey(s, k) + WithKey(t, k)
    decreases |s|
  {
    if s == [] {
      assert s + t == t;
    } else {
      assert (s + t)[1..] == s[1..] + t;
      WithKeyAppend(s[1..], t, k);
    }
  }

  /** No quad of an ascending sequence that starts above `q` has `q`'s key. */
  lemma {:induction false} WithKeyAbove(s: seq<Quad>, q: Quad)
    requires Ascending(s) && s != [] && KeyLess(q, s[0])
    ensures WithKey(s, q) == []
    decreases |s|
  {
    if |s| > 1 {
      assert !KeyLess(s[1], s[0]);
      KeyTrichotomy(s[0], s[1]);
      assert Ascending(s[1..]) by {
        forall a, b | 0 <= a < b < |s[1..]|
          ensures !KeyLess(s[1..][b], s[1..][a])
        {
          assert s[1..][b] == s[b + 1] && s[1..][a] == s[a + 1];
        }
      }
      WithKeyAbove(s[1..], q);
    }
  }

  lemma {:induction false} AscendingTail(s: seq<Quad>)
    requires Ascending(s) && s != []
    ensures Ascending(s[1..]) && forall b :: 0 <= b < |s[1..]| ==> !KeyLess(s[1..][b], s[0])
  {
    forall a, b | 0 <= a < b < |s[1..]|
      ensures !KeyLess(s[1..][b], s[1..][a])
    {
      assert s[1..][b] == s[b + 1] && s[1..][a] == s[a + 1];
    }
    forall b | 0 <= b < |s[1..]|
      ensures !KeyLess(s[1..][b], s[0])
    {
      assert s[1..][b] == s[b + 1];
    }
  }

  /** Inserting into an ascending sequence keeps it ascending. */
  lemma {:induction false} InsertSortedAscending(s: seq<Quad>, q: Quad)
    requires Ascending(s)
    ensures Ascending(InsertSorted(s, q))
    decreases |s|
  {
    if s != [] && !KeyLess(q, s[0]) {
      AscendingTail(s);
      InsertSortedAscending(s[1..], q);
      var rest := InsertSorted(s[1..], q);
      forall b | 0 <= b < |rest|
        ensures !KeyLess(rest[b], s[0])
      {
        assert rest[b] in multiset(s[1..]) + multiset{q};
        if rest[b] != q {
          var c :| 0 <= c < |s[1..]| && s[1..][c] == rest[b];
        }
      }
      AscendingCons(s[0], rest);
    } else if s != [] {
      forall b | 0 <= b < |s|
        ensures !KeyLess(s[b], q)
      {
        KeyTrichotomy(q, s[0]);
        if b > 0 {
          assert !KeyLess(s[b], s[0]);
        }
      }
      AscendingCons(q, s);
    }
  }

  lemma AscendingCons(q: Quad, s: seq<Quad>)
    requires Ascending(s) && forall b :: 0 <= b < |s| ==> !KeyLess(s[b], q)
    ensures Ascending([q] + s)
  {
    var r := [q] + s;
    forall a, b | 0 <= a < b < |r|
      ensures !KeyLess(r[b], r[a])
    {
      assert r[b] == s[b - 1];
      if a > 0 {
        assert r[a] == s[a - 1];
      }
    }
  }

  /** Inserting `q` adds it after the quads with its key already there. */
  lemma {:induction false} InsertSortedWithKey(s: seq<Quad>, q: Quad, k: Quad)
    requires Ascending(s)
    ensures WithKey(InsertSorted(s, q), k) == WithKey(s, k) + WithKey([q], k)
    decreases |s|
  {
    if s == [] {
    } else if KeyLess(q, s[0]) {
      WithKeyAppend([q], s, k);
      if SameKey(q, k) {
        WithKeyAbove(s, q);
        SameKeyFilter(s, q, k);
      }
    } else {
      AscendingTail(s);
      InsertSortedWithKey(s[1..], q, k);
      WithKeyAppend([s[0]], InsertSorted(s[1..], q), k);
      WithKeyAppend([s[0]], s[1..], k);
      assert [s[0]] + s[1..] == s;
    }
  }

  /** Quads with the same key select the same quads. */
  lemma {:induction false} SameKeyFilter(s: seq<Quad>, q: Quad, k: Quad)
    requires SameKey(q, k)
    ensures WithKey(s, q) == WithKey(s, k)
    decreases |s|
  {
    if s != [] {
      SameKeyFilter(s[1..], q, k);
    }
  }

  /**
   * The stable sort of renderBatch: the result holds the same quads, keys
   * never decrease along it, and the quads of any one key come in the order
   * they were added in.
   */
  lemma {:induction false} StableSortIsStable(qs: seq<Quad>)
    ensures multiset(StableSort(qs)) == multiset(qs)
    ensures Ascending(StableSort(qs))
    ensures forall k :: WithKey(StableSort(qs), k) == WithKey(qs, k)
    decreases |qs|
  {
    if qs != [] {
      var init, last := qs[..|qs| - 1], qs[|qs| - 1];
      StableSortIsStable(init);
      InsertSortedAscending(StableSort(init), last);
      forall k
        ensures WithKey(StableSort(qs), k) == WithKey(qs, k)
      {
        InsertSortedWithKey(StableSort(init), last, k);
        assert qs == init + [last];
        WithKeyAppend(init, [last], k);
      }
    }
  }

  /** An ascending sequence that is not empty has its first quad's key. */
  lemma WithKeyFirst(s: seq<Quad>)
    requires s != []
    ensures WithKey(s, s[0]) == [s[0]] + WithKey(s[1..], s[0])
  {
    assert SameKey(s[0], s[0]);
  }

  /**
   * Two ascending sequences with the same quads of every key, in the same
   * order, are equal: the key order and the order within each key fix the
   * whole sequence.
   */
  lemma {:induction false} AscendingUnique(r: seq<Quad>, s: seq<Quad>)
    requires Ascending(r) && Ascending(s)
    requires forall k :: WithKey(r, k) == WithKey(s, k)
    ensures r == s
    decreases |r| + |s|
  {
    if r != [] && s != [] {
      WithKeyFirst(r);
      WithKeyFirst(s);
      KeyTrichotomy(r[0], s[0]);
      if KeyLess(r[0], s[0]) {
        WithKeyAbove(s, r[0]);
        assert false;
      } else if KeyLess(s[0], r[0]) {
        WithKeyAbove(r, s[0]);
        assert false;
      } else {
        assert SameKey(s[0], r[0]);
        assert WithKey(r, r[0])[0] == r[0] && WithKey(s, r[0])[0] == s[0];
        forall k
          ensures WithKey(r[1..], k) == WithKey(s[1..], k)
        {
          var h := if SameKey(r[0], k) then [r[0]] else [];
          assert WithKey(r, k) == h + WithKey(r[1..], k);
          assert WithKey(s, k) == h + WithKey(s[1..], k);
          assert WithKey(r[1..], k) == (h + WithKey(r[1..], k))[|h|..];
          assert WithKey(s[1..], k) == (h + WithKey(s[1..], k))[|h|..];
        }
        AscendingTail(r);
        AscendingTail(s);
        AscendingUnique(r[1..], s[1..]);
        assert r == [r[0]] + r[1..] && s == [s[0]] + s[1..];
      }
    } else if r != [] {
      WithKeyFirst(r);
      assert false;
    } else if s != [] {
      WithKeyFirst(s);
      assert false;
    }
  }

  /**
   * The stable order is unique: an ascending sequence that keeps the order
   * of every key's quads is the one StableSort gives, so any stable sort
   * draws the batch in the same order.
   */
  lemma StableOrderUnique(qs: seq<Quad>, r: seq<Quad>)
    requires Ascending(r) && forall k :: WithKey(r, k) == WithKey(qs, k)
    ensures r == StableSort(qs)
  {
    StableSortIsStable(qs);
    AscendingUnique(r, StableSort(qs));
  }

  // ---------------------------------------------------------------------------
  // Runs of quads drawn together
  // ---------------------------------------------------------------------------

  /** Two quads can be drawn by one call: same texture and same program. */
  predicate SameBatch(a: Quad, b: Quad) {
    a.texture == b.texture && a.program == b.program
  }

  /**
   * The length of the run of quads at the start of `s` that share the first
   * quad's texture and program: where std::find_if stops.
   */
  function RunLength(s: seq<Quad>): (n: nat)
    requires s != []
    ensures 0 < n <= |s|
    ensures forall k :: 0 <= k < n ==> SameBatch(s[k], s[0])
    ensures n < |s| ==> !SameBatch(s[n], s[0])
  {
    RunFrom(s, 1)
  }

  function RunFrom(s: seq<Quad>, k: nat): (n: nat)
    requires 0 < k <= |s| && forall j :: 0 <= j < k ==> SameBatch(s[j], s[0])
    ensures k <= n <= |s|
    ensures forall j :: 0 <= j < n ==> SameBatch(s[j], s[0])
    ensures n < |s| ==> !SameBatch(s[n], s[0])
    decreases |s| - k
  {
    if k == |s| || !SameBatch(s[k], s[0]) then k else RunFrom(s, k + 1)
  }

  /**
   * The maximal runs of `s`, built from the back: a quad joins the run after
   * it when it shares that run's texture and program, and starts a run of
   * its own otherwise.
   */
  function Batches(s: seq<Quad>): (r: seq<seq<Quad>>)
    ensures s == [] <==> r == []
    ensures forall i :: 0 <= i < |r| ==> r[i] != []
    decreases |s|
  {
    if s == [] then []
    else
      var rest := Batches(s[1..]);
      if rest != [] && SameBatch(s[0], rest[0][0]) then [[s[0]] + rest[0]] + rest[1..]
      else [[s[0]]] + rest
  }

  function Flatten(r: seq<seq<Quad>>): seq<Quad> {
    if r == [] then [] else r[0] + Flatten(r[1..])
  }

  /** Every quad of a batch can be drawn with the batch's first. */
  ghost predicate Uniform(b: seq<Quad>) {
    forall k :: 0 <= k < |b| ==> SameBatch(b[k], b[0])
  }

  /**
   * The batches cut `s` into pieces, in order; each piece can be drawn in
   * one call, and no two neighbouring pieces could be merged.
   */
  lemma {:induction false} BatchesPartition(s: seq<Quad>)
    ensures Flatten(Batches(s)) == s
    ensures forall i :: 0 <= i < |Batches(s)| ==> Uniform(Batches(s)[i])
    ensures forall i :: 0 <= i < |Batches(s)| - 1 ==> !SameBatch(Batches(s)[i][0], Batches(s)[i + 1][0])
    decreases |s|
  {
    if s != [] {
      var rest := Batches(s[1..]);
      BatchesPartition(s[1..]);
      var r := Batches(s);
      if rest != [] && SameBatch(s[0], rest[0][0]) {
        assert Flatten(r) == [s[0]] + rest[0] + Flatten(rest[1..]);
        assert Flatten(rest) == rest[0] + Flatten(rest[1..]);
        assert Uniform(rest[0]);
        forall i | 0 <= i < |r| - 1
          ensures !SameBatch(r[i][0], r[i + 1][0])
        {
          assert r[i + 1] == rest[i + 1];
          if i > 0 {
            assert r[i] == rest[i];
          }
        }
      } else {
        assert Flatten(r) == [s[0]] + Flatten(rest);
        forall i | 0 <= i < |r| - 1
          ensures !SameBatch(r[i][0], r[i + 1][0])
        {
          assert r[i + 1] == rest[i];
          if i > 0 {
            assert r[i] == rest[i - 1];
          }
        }
      }
      assert s == [s[0]] + s[1..];
    }
  }

  /** The first batch is the run find_if finds, and the others are the batches of what follows it. */
  lemma {:induction false} BatchesStartWithRun(s: seq<Quad>)
    requires s != []
    ensures Batches(s)[0] == s[..RunLength(s)]
    ensures Batches(s)[1..] == Batches(s[RunLength(s)..])
    decreases |s|
  {
    var t := s[1..];
    var rest := Batches(t);
    if rest != [] && SameBatch(s[0], rest[0][0]) {
      BatchesStartWithRun(t);
      var n := RunLength(t);
      assert rest[0][0] == t[0];
      RunOfSuccessor(s);
      assert s[..1 + n] == [s[0]] + t[..n];
      assert s[1 + n..] == t[n..];
    } else {
      if t != [] {
        assert rest[0][0] == t[0] by {
          BatchesStartWithRun(t);
        }
      }
      assert RunLength(s) == 1;
      assert s[..1] == [s[0]];
      assert s[1..] == t;
    }
  }

  /** The batches of `s`: its first run, then the batches of what follows it. */
  lemma BatchesStep(s: seq<Quad>)
    requires s != []
    ensures Batches(s) == [s[..RunLength(s)]] + Batches(s[RunLength(s)..])
  {
    BatchesStartWithRun(s);
    var r := Batches(s);
    assert r == [r[0]] + r[1..];
  }

  /** When the first two quads share a batch, the run of `s` is one longer than the run of its tail. */
  lemma RunOfSuccessor(s: seq<Quad>)
    requires |s| >= 2 && SameBatch(s[0], s[1])
    ensures RunLength(s) == 1 + RunLength(s[1..])
  {
    RunFromShift(s, 1);
  }

  lemma {:induction false} RunFromShift(s: seq<Quad>, k: nat)
    requires |s| >= 2 && SameBatch(s[0], s[1])
    requires 0 < k < |s| && forall j :: 0 <= j < k + 1 ==> SameBatch(s[j], s[0])
    ensures RunFrom(s, k + 1) == 1 + RunFrom(s[1..], k)
    decreases |s| - k
  {
    if k + 1 < |s| && SameBatch(s[k + 1], s[0]) {
      RunFromShift(s, k + 1);
    }
  }

  // ---------------------------------------------------------------------------
  // Draw calls
  // ---------------------------------------------------------------------------

  /**
   * One run as renderBatch sends it: the texture and program it is drawn
   * with, whether the buffer was orphaned first (glBufferData), the offset in
   * floats of the mapped range, the quads whose vertices were written there,
   * and glDrawArrays's first vertex and vertex count.
   */
  datatype DrawCall = DrawCall(
    texture: TextureId, program: Program, orphaned: bool,
    mapOffset: int, quads: seq<Quad>, first: int, vertexCount: int)

  /** The buffer state renderBatch leaves behind, with the calls it made. */
  datatype Rendered = Rendered(draws: seq<DrawCall>, bufferAllocated: bool, offset: int)

  /** A run of `count` quads orphans the buffer when it is unallocated or the run does not fit after the offset. */
  predicate Orphans(count: int, bufferAllocated: bool, offset: int) {
    !bufferAllocated || offset + count * GLQuadSize > BufferCapacity
  }

  /** Where a run of `count` quads is written. */
  function RunOffset(count: int, bufferAllocated: bool, offset: int): int {
    if Orphans(count, bufferAllocated, offset) then 0 else offset
  }

  /** The draw call of one run, sent with the buffer allocated or not and at `offset`. */
  function RunCall(run: seq<Quad>, bufferAllocated: bool, offset: int): DrawCall
    requires run != []
  {
    var start := RunOffset(|run|, bufferAllocated, offset);
    DrawCall(run[0].texture, run[0].program, Orphans(|run|, bufferAllocated, offset),
      start, run, start / GLVertexSize, |run| * 6)
  }

  /**
   * The draw calls for the sorted quads `s`, with the buffer allocated or
   * not and at offset `offset`: one call per run, each written where
   * RunOffset puts it and moving the offset past itself.
   */
  function Render(s: seq<Quad>, bufferAllocated: bool, offset: int): (res: Rendered)
    ensures s == [] ==> res == Rendered([], bufferAllocated, offset)
    ensures s != [] ==> res.bufferAllocated && |res.draws| >= 1
    decreases |s|
  {
    if s == [] then Rendered([], bufferAllocated, offset)
    else
      var count := RunLength(s);
      var rest := Render(s[count..], true, RunOffset(count, bufferAllocated, offset) + count * GLQuadSize);
      Rendered([RunCall(s[..count], bufferAllocated, offset)] + rest.draws, rest.bufferAllocated, rest.offset)
  }

  /** The buffer offsets renderBatch keeps: inside the buffer, and on a quad boundary. */
  predicate GoodOffset(offset: int) {
    0 <= offset <= BufferCapacity && offset % GLQuadSize == 0
  }

  /** One run keeps the offset good, its range inside the buffer, and its first vertex where it was written. */
  lemma RunInBuffer(count: int, bufferAllocated: bool, offset: int)
    requires 0 < count <= MaxQuadsPerBatch && GoodOffset(offset)
    ensures var start := RunOffset(count, bufferAllocated, offset);
      GoodOffset(start) && start + count * GLQuadSize <= BufferCapacity &&
      GoodOffset(start + count * GLQuadSize) && (start / GLVertexSize) * GLVertexSize == start
  {
    var start := RunOffset(count, bufferAllocated, offset);
    assert start == 0 || start == offset;
    QuadStep(start, count);
    QuadAligned(start);
  }

  /** Moving a good offset past `count` quads that fit keeps it good. */
  lemma QuadStep(start: int, count: int)
    requires GoodOffset(start) && 0 < count && start + count * GLQuadSize <= BufferCapacity
    ensures GoodOffset(start + count * GLQuadSize)
  {
    var m := start / GLQuadSize;
    assert start == m * GLQuadSize;
    assert start + count * GLQuadSize == (m + count) * GLQuadSize;
  }

  /** A good offset is on a vertex boundary. */
  lemma QuadAligned(start: int)
    requires GoodOffset(start)
    ensures (start / GLVertexSize) * GLVertexSize == start
  {
    var k := (start / GLQuadSize) * 6;
    assert start == k * GLVertexSize;
    assert start / GLVertexSize == k;
  }

  /**
   * For a batch no larger than the buffer holds, every run's mapped range
   * lies inside the buffer, the draw call's first vertex is exactly where
   * the run was written and its vertex count is that of the floats written,
   * and the final offset is again a good one.
   */
  lemma {:induction false} RenderStaysInBuffer(s: seq<Quad>, bufferAllocated: bool, offset: int)
    requires |s| <= MaxQuadsPerBatch && GoodOffset(offset)
    ensures GoodOffset(Render(s, bufferAllocated, offset).offset)
    ensures forall d :: d in Render(s, bufferAllocated, offset).draws ==> InBuffer(d)
    decreases |s|
  {
    if s != [] {
      var count := RunLength(s);
      var next := RunOffset(count, bufferAllocated, offset) + count * GLQuadSize;
      RenderStep(s, bufferAllocated, offset, count, next);
      RunCallInBuffer(s[..count], bufferAllocated, offset);
      RenderStaysInBuffer(s[count..], true, next);
    }
  }

  /** The call of a run no larger than the buffer holds lies inside the buffer. */
  lemma RunCallInBuffer(run: seq<Quad>, bufferAllocated: bool, offset: int)
    requires run != [] && |run| <= MaxQuadsPerBatch && GoodOffset(offset)
    ensures InBuffer(RunCall(run, bufferAllocated, offset))
    ensures GoodOffset(RunOffset(|run|, bufferAllocated, offset) + |run| * GLQuadSize)
  {
    RunInBuffer(|run|, bufferAllocated, offset);
  }

  /**
   * The mapped range of `d` lies inside the buffer at a good offset, its
   * first vertex is where it was written, and its vertex count is that of
   * the floats written.
   */
  predicate InBuffer(d: DrawCall) {
    GoodOffset(d.mapOffset) && d.mapOffset + |d.quads| * GLQuadSize <= BufferCapacity &&
    d.first * GLVertexSize == d.mapOffset && d.vertexCount * GLVertexSize == |d.quads| * GLQuadSize
  }

  /**
   * The draw calls follow the batches: one call per batch, with its texture
   * and program, its quads, and six vertices per quad.
   */
  lemma {:induction false} RenderFollowsBatches(s: seq<Quad>, bufferAllocated: bool, offset: int)
    ensures |Render(s, bufferAllocated, offset).draws| == |Batches(s)|
    ensures forall i :: 0 <= i < |Batches(s)| ==> DrawsBatch(Render(s, bufferAllocated, offset).draws[i], Batches(s)[i])
    decreases |s|
  {
    if s != [] {
      var count := RunLength(s);
      var next := RunOffset(count, bufferAllocated, offset) + count * GLQuadSize;
      BatchesStep(s);
      RenderStep(s, bufferAllocated, offset, count, next);
      RenderFollowsBatches(s[count..], true, next);
      DrawsCons(RunCall(s[..count], bufferAllocated, offset), s[..count],
                Render(s[count..], true, next).draws, Batches(s[count..]));
    }
  }

  /** Prepending a call that draws a batch to calls that draw the batches after it. */
  lemma DrawsCons(d: DrawCall, b: seq<Quad>, draws: seq<DrawCall>, batches: seq<seq<Quad>>)
    requires DrawsBatch(d, b) && |draws| == |batches|
    requires forall i :: 0 <= i < |batches| ==> DrawsBatch(draws[i], batches[i])
    ensures |[d] + draws| == |[b] + batches|
    ensures forall i :: 0 <= i < |[b] + batches| ==> DrawsBatch(([d] + draws)[i], ([b] + batches)[i])
  {
    forall i | 0 < i < |[b] + batches|
      ensures DrawsBatch(([d] + draws)[i], ([b] + batches)[i])
    {
      assert ([d] + draws)[i] == draws[i - 1] && ([b] + batches)[i] == batches[i - 1];
    }
  }

  /** `d` draws the quads `b`: their texture and program, six vertices each. */
  predicate DrawsBatch(d: DrawCall, b: seq<Quad>) {
    b != [] && d.quads == b && d.texture == b[0].texture && d.program == b[0].program &&
    d.vertexCount == 6 * |b|
  }

  /** The quads of all the draw calls, one after the other. */
  function AllQuads(draws: seq<DrawCall>): seq<Quad> {
    if draws == [] then [] else draws[0].quads + AllQuads(draws[1..])
  }

  /** The vertices of all the draw calls. */
  function TotalVertices(draws: seq<DrawCall>): int {
    if draws == [] then 0 else draws[0].vertexCount + TotalVertices(draws[1..])
  }

  /** Render sends the first run, then renders the rest from where that run leaves the buffer. */
  lemma RenderStep(s: seq<Quad>, bufferAllocated: bool, offset: int, count: int, next: int)
    requires s != [] && count == RunLength(s)
    requires next == RunOffset(count, bufferAllocated, offset) + count * GLQuadSize
    ensures Render(s, bufferAllocated, offset).draws == [RunCall(s[..count], bufferAllocated, offset)] + Render(s[count..], true, next).draws
    ensures Render(s, bufferAllocated, offset).draws[0] == RunCall(s[..count], bufferAllocated, offset)
    ensures Render(s, bufferAllocated, offset).draws[1..] == Render(s[count..], true, next).draws
    ensures Render(s, bufferAllocated, offset).offset == Render(s[count..], true, next).offset
    ensures Render(s, bufferAllocated, offset).bufferAllocated == Render(s[count..], true, next).bufferAllocated
  {
    var call, rest := RunCall(s[..count], bufferAllocated, offset), Render(s[count..], true, next);
    assert Render(s, bufferAllocated, offset) == Rendered([call] + rest.draws, rest.bufferAllocated, rest.offset);
    assert ([call] + rest.draws)[1..] == rest.draws;
  }

  /**
   * RenderStep for the quads of `s` from `start` on, where the run that
   * starts there ends at `end`.
   */
  lemma RenderFrom(s: seq<Quad>, start: int, end: int, bufferAllocated: bool, offset: int, next: int)
    requires 0 <= start < |s| && end == start + RunLength(s[start..])
    requires next == RunOffset(end - start, bufferAllocated, offset) + (end - start) * GLQuadSize
    ensures end <= |s|
    ensures Render(s[start..], bufferAllocated, offset).draws ==
      [RunCall(s[start..end], bufferAllocated, offset)] + Render(s[end..], true, next).draws
    ensures Render(s[start..], bufferAllocated, offset).offset == Render(s[end..], true, next).offset
    ensures Render(s[start..], bufferAllocated, offset).bufferAllocated == Render(s[end..], true, next).bufferAllocated
  {
    var count := end - start;
    assert s[start..][count..] == s[end..];
    assert s[start..][..count] == s[start..end];
    RenderStep(s[start..], bufferAllocated, offset, count, next);
  }

  /** Every quad is drawn exactly once, in order. */
  lemma {:induction false} RenderDrawsEveryQuad(s: seq<Quad>, bufferAllocated: bool, offset: int)
    ensures AllQuads(Render(s, bufferAllocated, offset).draws) == s
    decreases |s|
  {
    if s != [] {
      var count := RunLength(s);
      var next := RunOffset(count, bufferAllocated, offset) + count * GLQuadSize;
      RenderStep(s, bufferAllocated, offset, count, next);
      RenderDrawsEveryQuad(s[count..], true, next);
      assert s == s[..count] + s[count..];
    }
  }

  /** Six vertices are drawn for every quad. */
  lemma {:induction false} RenderDrawsSixVerticesPerQuad(s: seq<Quad>, bufferAllocated: bool, offset: int)
    ensures TotalVertices(Render(s, bufferAllocated, offset).draws) == 6 * |s|
    decreases |s|
  {
    if s != [] {
      var count := RunLength(s);
      var next := RunOffset(count, bufferAllocated, offset) + count * GLQuadSize;
      RenderStep(s, bufferAllocated, offset, count, next);
      RenderDrawsSixVerticesPerQuad(s[count..], true, next);
    }
  }
}
