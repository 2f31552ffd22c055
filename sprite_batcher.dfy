/**
 * SpriteBatcher (spritebatcher.cc): the fixed array of quads a batch
 * collects, and renderBatch, which sorts them, cuts the sorted order into
 * runs and writes each run into the vertex buffer before drawing it.
 *
 * The vertex buffer object is modelled as an array of BufferCapacity floats
 * owned by the batcher; glMapBufferRange hands out a position in it, and
 * glDrawArrays becomes a DrawCall value that the render methods return.
 */
module Batcher {
  import opened Sprites

  /** `buf` with the floats `w` written from position `at` on. */
  function Overwrite(buf: seq<real>, at: int, w: seq<real>): (r: seq<real>)
    requires 0 <= at && at + |w| <= |buf|
    ensures |r| == |buf| && r[at..at + |w|] == w
    ensures forall k :: at <= k < at + |w| ==> r[k] == w[k - at]
    ensures forall k :: 0 <= k < |buf| && !(at <= k < at + |w|) ==> r[k] == buf[k]
  {
    buf[..at] + w + buf[at + |w|..]
  }

  /** Writing `w1` and then `w2` just after it is writing `w1 + w2`. */
  lemma OverwriteThen(buf: seq<real>, at: int, w1: seq<real>, w2: seq<real>)
    requires 0 <= at && at + |w1| + |w2| <= |buf|
    ensures Overwrite(Overwrite(buf, at, w1), at + |w1|, w2) == Overwrite(buf, at, w1 + w2)
  {
    var a := Overwrite(Overwrite(buf, at, w1), at + |w1|, w2);
    var b := Overwrite(buf, at, w1 + w2);
    forall k | 0 <= k < |buf|
      ensures a[k] == b[k]
    {
      if at <= k < at + |w1| {
        assert (w1 + w2)[k - at] == w1[k - at];
      } else if at + |w1| <= k < at + |w1| + |w2| {
        assert (w1 + w2)[k - at] == w2[k - at - |w1|];
      }
    }
  }

  /** The slice of `buf` that a draw call's range covers holds the floats of its quads. */
  ghost predicate Written(buf: seq<real>, d: DrawCall) {
    0 <= d.mapOffset && d.mapOffset + |d.quads| * GLQuadSize <= |buf| &&
    buf[d.mapOffset..d.mapOffset + |d.quads| * GLQuadSize] == Floats(d.quads)
  }

  /**
   * emitVertex: the twelve floats of `v` (position, texture coordinates,
   * foreground and background color) written one after the other at `at`;
   * returns where the next vertex goes.
   */
  method EmitVertex(data: array<real>, at: int, v: Vertex) returns (next: int)
    requires 0 <= at && at + GLVertexSize <= data.Length
    modifies data
    ensures next == at + GLVertexSize
    ensures data[..] == Overwrite(old(data[..]), at, VertexFloats(v))
  {
    var w := VertexFloats(v);
    next := at;
    while next < at + GLVertexSize
      invariant at <= next <= at + GLVertexSize
      invariant forall k :: 0 <= k < data.Length ==> data[k] == if at <= k < next then w[k - at] else old(data[k])
    {
      data[next] := w[next - at];
      next := next + 1;
    }
    assert data[..] == Overwrite(old(data[..]), at, w);
  }

  /** Writes one more vertex after the floats `done` already written at `at`. */
  method EmitNext(data: array<real>, at: int, p: int, v: Vertex, ghost buf: seq<real>, ghost done: seq<real>)
    returns (next: int)
    requires 0 <= at && p == at + |done| && p + GLVertexSize <= data.Length == |buf|
    requires data[..] == Overwrite(buf, at, done)
    modifies data
    ensures next == p + GLVertexSize
    ensures data[..] == Overwrite(buf, at, done + VertexFloats(v))
  {
    next := EmitVertex(data, p, v);
    OverwriteThen(buf, at, done, VertexFloats(v));
  }

  /** The six vertices of a quad's two triangles, corners 0, 1, 2 and 2, 3, 0, written at `at`. */
  method EmitQuad(data: array<real>, at: int, q: Quad) returns (next: int)
    requires 0 <= at && at + GLQuadSize <= data.Length
    modifies data
    ensures next == at + GLQuadSize
    ensures data[..] == Overwrite(old(data[..]), at, QuadFloats(q))
  {
    ghost var buf := data[..];
    var verts := q.verts;
    assert data[..] == Overwrite(buf, at, []);
    next := EmitNext(data, at, at, verts.v0, buf, []);
    ghost var done := VertexFloats(verts.v0);
    next := EmitNext(data, at, next, verts.v1, buf, done);
    done := done + VertexFloats(verts.v1);
    next := EmitNext(data, at, next, verts.v2, buf, done);
    done := done + VertexFloats(verts.v2);
    next := EmitNext(data, at, next, verts.v2, buf, done);
    done := done + VertexFloats(verts.v2);
    next := EmitNext(data, at, next, verts.v3, buf, done);
    done := done + VertexFloats(verts.v3);
    next := EmitNext(data, at, next, verts.v0, buf, done);
    done := done + VertexFloats(verts.v0);
    QuadFloatsInEmitOrder(q);
    assert done == QuadFloats(q);
  }

  /** The loop over a run: the floats of every quad of `run`, one after the other, written at `at`. */
  method EmitRun(data: array<real>, at: int, run: seq<Quad>) returns (next: int)
    requires 0 <= at && at + |run| * GLQuadSize <= data.Length
    modifies data
    ensures next == at + |run| * GLQuadSize
    ensures data[..] == Overwrite(old(data[..]), at, Floats(run))
  {
    ghost var buf := data[..];
    next := at;
    var i := 0;
    assert data[..] == Overwrite(buf, at, Floats(run[..0]));
    while i < |run|
      invariant 0 <= i <= |run| && next == at + i * GLQuadSize
      invariant data[..] == Overwrite(buf, at, Floats(run[..i]))
    {
      ghost var prev := data[..];
      next := EmitQuad(data, next, run[i]);
      EmitRunStep(buf, at, run, i, prev, data[..]);
      i := i + 1;
    }
    assert run[..i] == run;
  }

  /** One more quad of the run written after the ones before it. */
  lemma EmitRunStep(buf: seq<real>, at: int, run: seq<Quad>, i: int, prev: seq<real>, cur: seq<real>)
    requires 0 <= at && 0 <= i < |run| && at + (i + 1) * GLQuadSize <= |buf|
    requires prev == Overwrite(buf, at, Floats(run[..i]))
    requires cur == Overwrite(prev, at + i * GLQuadSize, QuadFloats(run[i]))
    ensures cur == Overwrite(buf, at, Floats(run[..i + 1]))
  {
    OverwriteThen(buf, at, Floats(run[..i]), QuadFloats(run[i]));
    FloatsSnoc(run[..i], run[i]);
    assert run[..i + 1] == run[..i] + [run[i]];
  }

  /** std::find_if: the end of the run that starts at `start`, the first quad after it with another texture or program. */
  method FindRunEnd(s: seq<Quad>, start: int) returns (end: int)
    requires 0 <= start < |s|
    ensures end == start + RunLength(s[start..])
  {
    end := start + 1;
    while end < |s| && SameBatch(s[end], s[start])
      invariant start < end <= |s|
      invariant forall j :: start <= j < end ==> SameBatch(s[j], s[start])
    {
      end := end + 1;
    }
    var t := s[start..];
    assert forall j :: 0 <= j < end - start ==> SameBatch(t[j], t[0]);
    assert end < |s| ==> !SameBatch(t[end - start], t[0]);
  }

  /** The calls made so far, then the call of one run and the calls of the rest. */
  lemma AppendCall(done: seq<DrawCall>, d: DrawCall, rest: seq<DrawCall>, after: seq<DrawCall>)
    requires rest == [d] + after
    ensures done + rest == (done + [d]) + after
  {
  }

  class SpriteBatcher {
    /** m_quads: room for one batch. */
    const quads: array<Quad>
    /** The vertex buffer object's storage. */
    const vbo: array<real>
    /** m_quadCount: how many of `quads` the current batch holds. */
    var quadCount: int
    /** m_batchProgram: the program given to the sprites added from now on. */
    var batchProgram: Program
    var bufferAllocated: bool
    /** m_bufferOffset: where the next run is written, in floats. */
    var bufferOffset: int

    ghost predicate Valid()
      reads this
    {
      quads.Length == MaxQuadsPerBatch && vbo.Length == BufferCapacity &&
      0 <= quadCount <= MaxQuadsPerBatch && GoodOffset(bufferOffset)
    }

    /** The quads of the current batch, in the order they were added. */
    function Batch(): (r: seq<Quad>)
      reads this, quads
      requires Valid()
      ensures |r| == quadCount
    {
      quads[..quadCount]
    }

    constructor()
      ensures Valid() && fresh(quads) && fresh(vbo)
      ensures quadCount == 0 && batchProgram == Text && !bufferAllocated && bufferOffset == 0
    {
      quads := new Quad[MaxQuadsPerBatch];
      vbo := new real[BufferCapacity];
      quadCount := 0;
      batchProgram := Text;
      bufferAllocated := false;
      bufferOffset := 0;
    }

    method SetBatchProgram(program: Program)
      requires Valid()
      modifies this
      ensures Valid() && batchProgram == program
      ensures quadCount == old(quadCount) && bufferAllocated == old(bufferAllocated) && bufferOffset == old(bufferOffset)
    {
      batchProgram := program;
    }

    /** Empties the batch; what was drawn into the buffer stays. */
    method StartBatch()
      requires Valid()
      modifies this
      ensures Valid() && quadCount == 0 && Batch() == []
      ensures batchProgram == old(batchProgram)
      ensures bufferAllocated == old(bufferAllocated) && bufferOffset == old(bufferOffset)
    {
      quadCount := 0;
    }

    /**
     * The body of renderBatch's loop for one run: orphans the buffer when
     * the run does not fit after the offset (or nothing was allocated yet),
     * writes the run's floats where it goes, and returns its draw call
     * together with the buffer's contents when the call is made.
     */
    method DrawRun(run: seq<Quad>) returns (draw: DrawCall, ghost frame: seq<real>)
      requires Valid() && 0 < |run| <= MaxQuadsPerBatch
      modifies this, vbo
      ensures Valid() && draw == RunCall(run, old(bufferAllocated), old(bufferOffset))
      ensures bufferAllocated && bufferOffset == RunOffset(|run|, old(bufferAllocated), old(bufferOffset)) + |run| * GLQuadSize
      ensures Written(frame, draw)
      ensures quadCount == old(quadCount) && batchProgram == old(batchProgram)
    {
      ghost var wasAllocated, wasOffset := bufferAllocated, bufferOffset;
      var count := |run|;
      var rangeSize := count * GLQuadSize;
      RunInBuffer(count, bufferAllocated, bufferOffset);
      var orphaned := !bufferAllocated || bufferOffset + rangeSize > BufferCapacity;
      if orphaned {
        bufferOffset := 0;
        bufferAllocated := true;
      }
      var _ := EmitRun(vbo, bufferOffset, run);
      frame := vbo[..];
      draw := DrawCall(run[0].texture, run[0].program, orphaned, bufferOffset, run, bufferOffset / GLVertexSize, count * 6);
      bufferOffset := bufferOffset + rangeSize;
    }

    /**
     * renderBatch: draws the batch sorted by (depth, texture, program), one
     * call per run of quads that share a texture and a program, and leaves
     * the batch as it was. Every call is made with the floats of its quads
     * in the buffer range it draws from (`frames[i]` is the buffer when
     * `draws[i]` is sent).
     */
    method RenderBatch() returns (draws: seq<DrawCall>, ghost frames: seq<seq<real>>)
      requires Valid()
      modifies this, vbo
      ensures Valid()
      ensures draws == Render(StableSort(old(Batch())), old(bufferAllocated), old(bufferOffset)).draws
      ensures bufferAllocated == Render(StableSort(old(Batch())), old(bufferAllocated), old(bufferOffset)).bufferAllocated
      ensures bufferOffset == Render(StableSort(old(Batch())), old(bufferAllocated), old(bufferOffset)).offset
      ensures |frames| == |draws| && forall i :: 0 <= i < |draws| ==> Written(frames[i], draws[i])
      ensures quadCount == old(quadCount) && batchProgram == old(batchProgram)
    {
      if quadCount == 0 {
        return [], [];
      }
      var sorted := StableSort(quads[..quadCount]);
      assert |sorted| == |multiset(sorted)| == quadCount;
      draws, frames := RenderSorted(sorted);
    }

    /** renderBatch's loop over the sorted quads, one run at a time. */
    method RenderSorted(sorted: seq<Quad>) returns (draws: seq<DrawCall>, ghost frames: seq<seq<real>>)
      requires Valid() && |sorted| <= MaxQuadsPerBatch
      modifies this, vbo
      ensures Valid()
      ensures draws == Render(sorted, old(bufferAllocated), old(bufferOffset)).draws
      ensures bufferAllocated == Render(sorted, old(bufferAllocated), old(bufferOffset)).bufferAllocated
      ensures bufferOffset == Render(sorted, old(bufferAllocated), old(bufferOffset)).offset
      ensures |frames| == |draws| && forall i :: 0 <= i < |draws| ==> Written(frames[i], draws[i])
      ensures quadCount == old(quadCount) && batchProgram == old(batchProgram)
    {
      draws, frames := [], [];
      ghost var target := Render(sorted, bufferAllocated, bufferOffset);
      var start := 0;
      while start < |sorted|
        invariant Valid() && 0 <= start <= |sorted| && quadCount == old(quadCount) && batchProgram == old(batchProgram)
        invariant draws + Render(sorted[start..], bufferAllocated, bufferOffset).draws == target.draws
        invariant Render(sorted[start..], bufferAllocated, bufferOffset).bufferAllocated == target.bufferAllocated
        invariant Render(sorted[start..], bufferAllocated, bufferOffset).offset == target.offset
        invariant |frames| == |draws| && forall i :: 0 <= i < |draws| ==> Written(frames[i], draws[i])
        decreases |sorted| - start
      {
        ghost var rest := Render(sorted[start..], bufferAllocated, bufferOffset);
        var end, draw, frame := RenderRun(sorted, start);
        AppendCall(draws, draw, rest.draws, Render(sorted[end..], bufferAllocated, bufferOffset).draws);
        draws, frames := draws + [draw], frames + [frame];
        start := end;
      }
    }

    /**
     * One pass of renderBatch's loop: find the run that starts at `start` and
     * draw it. Rendering from `start` is that call followed by rendering from
     * the run's end with the buffer as the call leaves it.
     */
    method RenderRun(sorted: seq<Quad>, start: int) returns (end: int, draw: DrawCall, ghost frame: seq<real>)
      requires Valid() && 0 <= start < |sorted| <= MaxQuadsPerBatch
      modifies this, vbo
      ensures Valid() && start < end <= |sorted|
      ensures Render(sorted[start..], old(bufferAllocated), old(bufferOffset)).draws ==
        [draw] + Render(sorted[end..], bufferAllocated, bufferOffset).draws
      ensures Render(sorted[start..], old(bufferAllocated), old(bufferOffset)).bufferAllocated ==
        Render(sorted[end..], bufferAllocated, bufferOffset).bufferAllocated
      ensures Render(sorted[start..], old(bufferAllocated), old(bufferOffset)).offset ==
        Render(sorted[end..], bufferAllocated, bufferOffset).offset
      ensures Written(frame, draw)
      ensures quadCount == old(quadCount) && batchProgram == old(batchProgram)
    {
      ghost var a, o := bufferAllocated, bufferOffset;
      end := FindRunEnd(sorted, start);
      ghost var count := end - start;
      ghost var next := RunOffset(count, a, o) + count * GLQuadSize;
      RenderFrom(sorted, start, end, a, o, next);
      assert |sorted[start..end]| == count;
      draw, frame := DrawRun(sorted[start..end]);
    }

    /**
     * What addSprite does to the batch: the quad `q` is appended to it, after
     * a full batch was rendered (the draw calls `flushed`) and emptied.
     */
    twostate predicate Added(q: Quad, flushed: seq<DrawCall>)
      reads this, quads
      requires old(Valid()) && Valid()
    {
      if old(quadCount) == MaxQuadsPerBatch then
        Batch() == [q] &&
        flushed == Render(StableSort(old(Batch())), old(bufferAllocated), old(bufferOffset)).draws &&
        bufferAllocated == Render(StableSort(old(Batch())), old(bufferAllocated), old(bufferOffset)).bufferAllocated &&
        bufferOffset == Render(StableSort(old(Batch())), old(bufferAllocated), old(bufferOffset)).offset
      else
        Batch() == old(Batch()) + [q] && flushed == [] &&
        bufferAllocated == old(bufferAllocated) && bufferOffset == old(bufferOffset)
    }

    /**
     * addSprite: appends a quad with the current program; a full batch is
     * rendered and started afresh first, and the draw calls that makes are
     * returned.
     */
    method AddSprite(texture: TextureId, verts: QuadVerts, depth: int) returns (flushed: seq<DrawCall>, ghost frames: seq<seq<real>>)
      requires Valid()
      modifies this, vbo, quads
      ensures Valid() && batchProgram == old(batchProgram)
      ensures Added(Quad(texture, old(batchProgram), verts, depth), flushed)
      ensures |frames| == |flushed| && forall i :: 0 <= i < |flushed| ==> Written(frames[i], flushed[i])
    {
      flushed, frames := [], [];
      if quadCount == MaxQuadsPerBatch {
        flushed, frames := RenderBatch();
        StartBatch();
      }
      quads[quadCount] := Quad(texture, batchProgram, verts, depth);
      quadCount := quadCount + 1;
    }

    /** addSprite for a pixmap with a foreground and a background color, drawn into the box from `topLeft` to `bottomRight`. */
    method AddPixmapSprite(pixmap: PackedPixmap, topLeft: Vec2, bottomRight: Vec2, fgColor: Vec4, bgColor: Vec4, depth: int)
      returns (flushed: seq<DrawCall>, ghost frames: seq<seq<real>>)
      requires Valid()
      modifies this, vbo, quads
      ensures Valid() && batchProgram == old(batchProgram)
      ensures Added(Quad(pixmap.texture, old(batchProgram),
        SpriteVerts(pixmap.textureCoords, topLeft, bottomRight, fgColor, bgColor), depth), flushed)
      ensures |frames| == |flushed| && forall i :: 0 <= i < |flushed| ==> Written(frames[i], flushed[i])
    {
      flushed, frames := AddSprite(pixmap.texture, SpriteVerts(pixmap.textureCoords, topLeft, bottomRight, fgColor, bgColor), depth);
    }

    /** addSprite for a pixmap in one color, with a background of all zeros. */
    method AddColoredSprite(pixmap: PackedPixmap, topLeft: Vec2, bottomRight: Vec2, color: Vec4, depth: int)
      returns (flushed: seq<DrawCall>, ghost frames: seq<seq<real>>)
      requires Valid()
      modifies this, vbo, quads
      ensures Valid() && batchProgram == old(batchProgram)
      ensures Added(Quad(pixmap.texture, old(batchProgram),
        SpriteVerts(pixmap.textureCoords, topLeft, bottomRight, color, NoColor), depth), flushed)
      ensures |frames| == |flushed| && forall i :: 0 <= i < |flushed| ==> Written(frames[i], flushed[i])
    {
      flushed, frames := AddSprite(pixmap.texture, SpriteVerts(pixmap.textureCoords, topLeft, bottomRight, color, NoColor), depth);
    }
  }
}
