/**
 * The state UIPainter (uipainter.cc) keeps between draw calls: the current
 * transform and the stack saveTransform/restoreTransform work on, the font
 * caches loaded so far and the current font, and the sprite batcher a frame
 * is painted into.
 */
module Painting {
  import opened Wrappers
  import opened Batcher
  import opened TextLayout

  /** A glm::mat4, its 16 entries in column-major order. */
  datatype Mat4 = Mat4(entries: seq<real>)

  /** glm::mat4(1): ones on the diagonal. */
  const Identity: Mat4 := Mat4(seq(16, k => if k % 5 == 0 then 1.0 else 0.0))

  /** UIPainter::Font: its operator== compares the name and the pixel height, as datatype equality does. */
  datatype Font = Font(name: string, pixelHeight: int)

  /**
   * A FontCache as loading leaves it: whether load succeeded, and the advance
   * width of every glyph the cache can give (getGlyph returns no glyph for
   * the others).
   */
  datatype FontCache = FontCache(loaded: bool, advances: map<char, nat>)

  /** The transform and the stack of saved transforms, top at the end. */
  datatype TransformState = TransformState(transform: Mat4, stack: seq<Mat4>)

  /** saveTransform: push the current transform. */
  function Saved(s: TransformState): (r: TransformState)
    ensures r.transform == s.transform && |r.stack| == |s.stack| + 1
    ensures r.stack[..|s.stack|] == s.stack && r.stack[|s.stack|] == s.transform
  {
    TransformState(s.transform, s.stack + [s.transform])
  }

  /** restoreTransform: pop the top into the transform; on an empty stack nothing changes. */
  function Restored(s: TransformState): (r: TransformState)
    ensures s.stack == [] ==> r == s
    ensures s.stack != [] ==> r.transform == s.stack[|s.stack| - 1] && r.stack + [s.stack[|s.stack| - 1]] == s.stack
  {
    if s.stack == [] then s
    else TransformState(s.stack[|s.stack| - 1], s.stack[..|s.stack| - 1])
  }

  /** Restoring right after saving gives back the state before the save. */
  lemma RestoreAfterSave(s: TransformState)
    ensures Restored(Saved(s)) == s
  {
    assert (s.stack + [s.transform])[..|s.stack|] == s.stack;
  }

  /** `n` saves in a row. */
  function SavedTimes(s: TransformState, n: nat): (r: TransformState)
    ensures |r.stack| == |s.stack| + n
  {
    if n == 0 then s else Saved(SavedTimes(s, n - 1))
  }

  /** `n` restores in a row. */
  function RestoredTimes(s: TransformState, n: nat): TransformState
    decreases n
  {
    if n == 0 then s else RestoredTimes(Restored(s), n - 1)
  }

  /** Nested saves and restores balance: `n` restores undo `n` saves. */
  lemma {:induction false} RestoreTimesAfterSaveTimes(s: TransformState, n: nat)
    ensures RestoredTimes(SavedTimes(s, n), n) == s
  {
    if n > 0 {
      RestoreAfterSave(SavedTimes(s, n - 1));
      RestoredTimesStep(SavedTimes(s, n - 1), n - 1);
      RestoreTimesAfterSaveTimes(s, n - 1);
    }
  }

  lemma RestoredTimesStep(s: TransformState, n: nat)
    ensures RestoredTimes(Restored(Saved(s)), n) == RestoredTimes(s, n)
  {
    RestoreAfterSave(s);
  }

  /**
   * setFont's find-or-insert: a font not cached yet gets the cache `load`
   * builds for it, whether or not its load succeeded; a cached one is kept.
   */
  function WithFont(fonts: map<Font, FontCache>, f: Font, load: Font -> FontCache): (r: map<Font, FontCache>)
    ensures r.Keys == fonts.Keys + {f}
    ensures forall g :: g in fonts ==> r[g] == fonts[g]
    ensures f !in fonts ==> r[f] == load(f)
  {
    if f in fonts then fonts else fonts[f := load(f)]
  }

  /** Selecting a font a second time changes nothing more. */
  lemma WithFontIdempotent(fonts: map<Font, FontCache>, f: Font, load: Font -> FontCache)
    ensures WithFont(WithFont(fonts, f, load), f, load) == WithFont(fonts, f, load)
  {
  }

  /** The advance widths a font cache gives, as the width sum takes them. */
  function AdvanceOf(cache: FontCache): char -> nat {
    c => if c in cache.advances then cache.advances[c] else 0
  }

  class Painter {
    var transform: Mat4
    /** m_transformStack, top at the end. */
    var transformStack: seq<Mat4>
    /** m_fonts */
    var fonts: map<Font, FontCache>
    /** m_font: the key of the current font cache, or none. */
    var font: Option<Font>
    /** The fonts loaded, in order: each is loaded once. */
    ghost var loads: seq<Font>
    const batcher: SpriteBatcher

    ghost predicate Valid()
      reads this, batcher
    {
      batcher.Valid() &&
      (forall i, j :: 0 <= i < j < |loads| ==> loads[i] != loads[j]) &&
      (forall g :: g in fonts <==> g in loads) &&
      (font.Some? ==> font.value in fonts)
    }

    function Transforms(): TransformState
      reads this
    {
      TransformState(transform, transformStack)
    }

    /**
     * The painter with a fresh batcher and no fonts; `initial` is the value of
     * the default-constructed m_transform.
     */
    constructor(initial: Mat4)
      ensures Valid() && fresh(batcher)
      ensures transform == initial && transformStack == [] && font == None && fonts == map[] && loads == []
      ensures batcher.quadCount == 0
    {
      batcher := new SpriteBatcher();
      transform := initial;
      transformStack := [];
      fonts := map[];
      font := None;
      loads := [];
    }

    method SaveTransform()
      requires Valid()
      modifies this
      ensures Valid() && Transforms() == Saved(old(Transforms()))
      ensures fonts == old(fonts) && font == old(font) && loads == old(loads)
    {
      transformStack := transformStack + [transform];
    }

    /** On an empty stack the source only logs an underflow. */
    method RestoreTransform()
      requires Valid()
      modifies this
      ensures Valid() && Transforms() == Restored(old(Transforms()))
      ensures fonts == old(fonts) && font == old(font) && loads == old(loads)
    {
      if transformStack == [] {
        return;
      }
      transform := transformStack[|transformStack| - 1];
      transformStack := transformStack[..|transformStack| - 1];
    }

    /** resetTransform */
    method ResetTransform()
      requires Valid()
      modifies this
      ensures Valid() && transform == Identity && transformStack == old(transformStack)
      ensures fonts == old(fonts) && font == old(font) && loads == old(loads)
    {
      transform := Identity;
    }

    /** startPainting: clear the stack, reset the transform, drop the current font, start a batch. */
    method StartPainting()
      requires Valid()
      modifies this, batcher
      ensures Valid() && Transforms() == TransformState(Identity, []) && font == None
      ensures fonts == old(fonts) && loads == old(loads)
      ensures batcher.Batch() == [] && batcher.batchProgram == old(batcher.batchProgram)
      ensures batcher.bufferAllocated == old(batcher.bufferAllocated) && batcher.bufferOffset == old(batcher.bufferOffset)
    {
      transformStack := [];
      ResetTransform();
      font := None;
      batcher.StartBatch();
    }

    /** setFont: `load` stands for building a FontCache and loading the font file; it runs only for a font not cached yet. */
    method SetFont(f: Font, load: Font -> FontCache)
      requires Valid()
      modifies this
      ensures Valid() && fonts == WithFont(old(fonts), f, load) && font == Some(f)
      ensures loads == old(loads) + (if f in old(fonts) then [] else [f])
      ensures Transforms() == old(Transforms())
    {
      if f !in fonts {
        fonts := fonts[f := load(f)];
        loads := loads + [f];
      }
      font := Some(f);
    }

    /** breakTextLines with the current font's advance widths; the source asserts there is a current font and dereferences every glyph. */
    method BreakTextLines(text: string, maxWidth: int) returns (rows: seq<TextRow>)
      requires Valid() && font.Some?
      requires ' ' in fonts[font.value].advances && forall k :: 0 <= k < |text| ==> text[k] in fonts[font.value].advances
      ensures rows == Wrap(AdvanceOf(fonts[font.value]), text, maxWidth)
      ensures text == [] <==> rows == []
      ensures rows != [] ==> text == Joined(rows) || text == Joined(rows) + " "
      ensures rows != [] && text != Joined(rows) ==> rows[|rows| - 1].width > maxWidth && ' ' !in rows[|rows| - 1].text
      ensures Measured(AdvanceOf(fonts[font.value]), rows)
      ensures text != [] && Width(AdvanceOf(fonts[font.value]), text) <= maxWidth ==>
        rows == [TextRow(text, Width(AdvanceOf(fonts[font.value]), text))]
      ensures forall k :: 0 <= k < |rows| ==> rows[k].width <= maxWidth || ' ' !in rows[k].text
      ensures forall k :: 0 <= k < |rows| - 1 ==>
        CutDue(AdvanceOf(fonts[font.value]), maxWidth, rows[k].text, FirstWord(rows[k + 1].text))
    {
      rows := TextLayout.BreakTextLines(text, maxWidth, AdvanceOf(fonts[font.value]));
    }
  }
}
