/**
 * The texture atlas (textureatlas.cc): a growing list of pages of one size
 * and pixel type, each with the texture that shows it on the GPU. A pixmap
 * goes onto the first page with room for it; when none has room, a new page
 * is added for it.
 */
module Atlas {
  import opened Wrappers
  import opened PixelTypes
  import opened Pixmaps
  import opened AtlasPage

  /**
   * PackedPixmap: a pixmap's size, where it lies on its page (the
   * rectangle of the page's pixels rather than texture coordinates) and
   * which page holds it (an index into the atlas's pages rather than the
   * page's texture).
   */
  datatype Packed = Packed(width: int, height: int, rect: Rect, page: nat)

  /** The size check addPixmap makes before looking for room, as written. */
  predicate PassesSizeCheck(pm: Pixmap, pageWidth: int, pageHeight: int) {
    !(pm.width > pageWidth || pm.height > pageHeight)
  }

  /**
   * The size check addPixmap needs: the pixmap and its one-pixel margin on
   * every side fit on an empty page.
   */
  predicate FitsOnPage(pm: Pixmap, pageWidth: int, pageHeight: int) {
    pm.width + 2 * Margin <= pageWidth && pm.height + 2 * Margin <= pageHeight
  }

  /** A page refuses a pixmap when its tree has no room for the pixmap and its margin. */
  predicate Refuses(t: Tree, pm: Pixmap) {
    TreeInsert(t, pm.width + 2 * Margin, pm.height + 2 * Margin).1.None?
  }

  /** The tree of a page nothing has been put on yet. */
  function EmptyPage(pageWidth: int, pageHeight: int): Tree {
    Leaf(Rect(0, 0, pageWidth, pageHeight), false)
  }

  /**
   * The size check as written lets through a pixmap as large as a page,
   * which no page can hold once the margin is added: for such a pixmap, the
   * page added for it refuses it too, and addPixmap reaches its
   * "shouldn't ever happen" branch.
   */
  lemma SizeCheckAdmitsUnplaceable(pageWidth: int, pageHeight: int)
    requires 0 <= pageWidth && 0 <= pageHeight
    ensures var pm := NewPixmap(pageWidth, pageHeight, Grayscale);
      PassesSizeCheck(pm, pageWidth, pageHeight) && Refuses(EmptyPage(pageWidth, pageHeight), pm)
  {
  }

  /** With the corrected check, an empty page holds exactly the pixmaps that pass it. */
  lemma FitsOnPageIffEmptyPageAccepts(pm: Pixmap, pageWidth: int, pageHeight: int)
    ensures FitsOnPage(pm, pageWidth, pageHeight) <==> !Refuses(EmptyPage(pageWidth, pageHeight), pm)
  {
  }

  /** A pixmap that fails the corrected check is refused by every page of that size. */
  lemma {:induction false} TooLargeForAnyPage(t: Tree, pm: Pixmap)
    requires !FitsOnPage(pm, t.rect.width, t.rect.height)
    ensures Refuses(t, pm)
  {
  }

  class TextureAtlas {
    const pageWidth: int
    const pageHeight: int
    const pixelType: PixelType
    var pages: seq<Page>
    /** The dirty flag of each page's texture: its pixels changed since it was last uploaded. */
    var dirty: seq<bool>
    /** The tree of each page. */
    ghost var trees: seq<Tree>
    /** The pixels of each page. */
    ghost var buffers: seq<seq<byte>>

    /** Every object the pages own; the atlas itself is not among them. */
    ghost var Repr: set<object>

    ghost predicate Valid()
      reads this, Repr
    {
      this !in Repr && |dirty| == |pages| && 0 <= pageWidth && 0 <= pageHeight && pageWidth * pageHeight >= 0 &&
      PagesHold(pages, trees, buffers, Repr)
    }

    /**
     * The pages `ps`, all owned by `footprint`, are valid pages of this
     * atlas's size and type with trees `ts` and pixels `bs`, and no two
     * share an object.
     */
    ghost predicate PagesHold(ps: seq<Page>, ts: seq<Tree>, bs: seq<seq<byte>>, footprint: set<object>)
      reads footprint
    {
      |ts| == |ps| && |bs| == |ps| &&
      (forall i :: 0 <= i < |ps| ==>
        ps[i] in footprint && ps[i].Repr <= footprint && PageHolds(ps[i], ts[i], bs[i])) &&
      (forall i, j :: 0 <= i < j < |ps| ==> ps[i].Repr !! ps[j].Repr)
    }

    /** `p` is a valid page of this atlas's size and type, with tree `t` and pixels `b`. */
    ghost predicate PageHolds(p: Page, t: Tree, b: seq<byte>)
      reads p, p.Repr
    {
      p.Valid() && p.width == pageWidth && p.height == pageHeight && p.pixelType == pixelType &&
      p.tree.model == t && p.image == b
    }

    constructor(pageWidth: int, pageHeight: int, pixelType: PixelType)
      requires 0 <= pageWidth && 0 <= pageHeight
      ensures Valid() && Repr == {}
      ensures this.pageWidth == pageWidth && this.pageHeight == pageHeight && this.pixelType == pixelType
      ensures pages == [] && dirty == []
    {
      this.pageWidth := pageWidth;
      this.pageHeight := pageHeight;
      this.pixelType := pixelType;
      pages := [];
      dirty := [];
      trees := [];
      buffers := [];
      Repr := {};
    }

    /** pageCount: how many pages the atlas has. */
    function PageCount(): (n: nat)
      reads this
      ensures n == |pages|
    {
      |pages|
    }

    /**
     * addPixmap: a pixmap of another pixel type, or one wider or taller than
     * a page, is refused and nothing changes. Otherwise, when an old page
     * takes the pixmap, the first that does (FirstFit) holds it, is marked
     * dirty, and no page is added; when none does, exactly one blank page,
     * dirty, is added and offered the pixmap, and the result is what it
     * returned, or none. No other page changes. The result gives the
     * pixmap's size, its rectangle on the page and the page's index.
     */
    method AddPixmap(pm: Pixmap) returns (r: Option<Packed>)
      requires Valid() && Pixmaps.WellFormed(pm)
      modifies this, Repr
      ensures Valid() && fresh(Repr - old(Repr))
      ensures pm.pixelType != pixelType || !PassesSizeCheck(pm, pageWidth, pageHeight) ==>
        r == None && pages == old(pages) && dirty == old(dirty) && trees == old(trees) && buffers == old(buffers)
      ensures pm.pixelType == pixelType && PassesSizeCheck(pm, pageWidth, pageHeight) ==>
        var n, k := old(|pages|), FirstFit(old(trees), pm);
        n <= |pages| && pages[..n] == old(pages) && |pages| == (if k < n then n else n + 1) &&
        dirty == (if k < n then old(dirty)[k := true] else old(dirty) + [true]) &&
        (forall j :: 0 <= j < n && j != k ==> trees[j] == old(trees)[j] && buffers[j] == old(buffers)[j]) &&
        (k < n ==> r.Some? && pages[k].Inserted(old(trees)[k], old(buffers)[k], pm, Some(r.value.rect))) &&
        (k == n ==>
          fresh(pages[n]) &&
          pages[n].Inserted(EmptyPage(pageWidth, pageHeight), NewPixmap(pageWidth, pageHeight, pixelType).pixels, pm,
            if r.Some? then Some(r.value.rect) else None)) &&
        (r.Some? ==> r.value.width == pm.width && r.value.height == pm.height && r.value.page == k)
      ensures pm.pixelType == pixelType && PassesSizeCheck(pm, pageWidth, pageHeight) ==>
        (r.None? <==> !FitsOnPage(pm, pageWidth, pageHeight)) && (r.None? ==> |pages| == old(|pages|) + 1)
    {
      if pm.pixelType != pixelType {
        return None;
      }
      if pm.width > pageWidth || pm.height > pageHeight {
        return None;
      }
      r := PlaceOnSomePage(pm);
    }

    /**
     * The part of addPixmap after its checks: the first page with room for
     * `pm` takes it and is marked dirty; when none has room, one blank
     * page, dirty, is added and offered the pixmap, and when that page
     * refuses it too (the "shouldn't ever happen" branch) the result is
     * none. That happens exactly when the pixmap and its margin do not fit
     * on an empty page.
     */
    method PlaceOnSomePage(pm: Pixmap) returns (r: Option<Packed>)
      requires Valid() && Pixmaps.WellFormed(pm) && pm.pixelType == pixelType
      modifies this, Repr
      ensures Valid() && fresh(Repr - old(Repr))
      ensures
        var n, k := old(|pages|), FirstFit(old(trees), pm);
        n <= |pages| && pages[..n] == old(pages) && |pages| == (if k < n then n else n + 1) &&
        dirty == (if k < n then old(dirty)[k := true] else old(dirty) + [true]) &&
        (forall j :: 0 <= j < n && j != k ==> trees[j] == old(trees)[j] && buffers[j] == old(buffers)[j]) &&
        (k < n ==> r.Some? && pages[k].Inserted(old(trees)[k], old(buffers)[k], pm, Some(r.value.rect))) &&
        (k == n ==>
          fresh(pages[n]) &&
          pages[n].Inserted(EmptyPage(pageWidth, pageHeight), NewPixmap(pageWidth, pageHeight, pixelType).pixels, pm,
            if r.Some? then Some(r.value.rect) else None)) &&
        (r.Some? ==> r.value.width == pm.width && r.value.height == pm.height && r.value.page == k)
      ensures r.Some? <==> FitsOnPage(pm, pageWidth, pageHeight)
      ensures r.None? ==> |pages| == old(|pages|) + 1
    {
      if !FitsOnPage(pm, pageWidth, pageHeight) {
        AllPagesRefuse(pm);
      }
      var k, rect := FindPage(pm);
      if rect.None? {
        FitsOnPageIffEmptyPageAccepts(pm, pageWidth, pageHeight);
        rect := AddPage(pm);
        if rect.None? {
          // The "shouldn't ever happen" branch: reached exactly when the pixmap does not fit with its margin.
          return None;
        }
      }
      r := Some(Packed(pm.width, pm.height, rect.value, k));
    }

    /**
     * addPixmap with the size check corrected to leave room for the margin:
     * a pixmap is placed exactly when its pixel type is the atlas's and it
     * fits on an empty page with its margin, so the "shouldn't ever happen"
     * branch is never reached; otherwise it is refused and nothing changes.
     * A placed pixmap goes onto the first old page with room for it, or
     * onto one new page when none has room.
     */
    method AddPixmapChecked(pm: Pixmap) returns (r: Option<Packed>)
      requires Valid() && Pixmaps.WellFormed(pm)
      modifies this, Repr
      ensures Valid() && fresh(Repr - old(Repr))
      ensures r.Some? <==> pm.pixelType == pixelType && FitsOnPage(pm, pageWidth, pageHeight)
      ensures r.None? ==> pages == old(pages) && dirty == old(dirty) && trees == old(trees) && buffers == old(buffers)
      ensures r.Some? ==>
        var n, k := old(|pages|), FirstFit(old(trees), pm);
        r.value.width == pm.width && r.value.height == pm.height && r.value.page == k &&
        n <= |pages| && pages[..n] == old(pages) && |pages| == (if k < n then n else n + 1) &&
        dirty == (if k < n then old(dirty)[k := true] else old(dirty) + [true]) &&
        (forall j :: 0 <= j < n && j != k ==> trees[j] == old(trees)[j] && buffers[j] == old(buffers)[j]) &&
        (k < n ==> pages[k].Inserted(old(trees)[k], old(buffers)[k], pm, Some(r.value.rect))) &&
        (k == n ==>
          fresh(pages[n]) &&
          pages[n].Inserted(EmptyPage(pageWidth, pageHeight), NewPixmap(pageWidth, pageHeight, pixelType).pixels, pm,
            Some(r.value.rect)))
    {
      if pm.pixelType != pixelType {
        return None;
      }
      if !FitsOnPage(pm, pageWidth, pageHeight) {
        return None;
      }
      r := PlaceOnSomePage(pm);
    }

    /** No page has room for a pixmap that does not fit on an empty page with its margin. */
    lemma AllPagesRefuse(pm: Pixmap)
      requires Valid() && !FitsOnPage(pm, pageWidth, pageHeight)
      ensures FirstFit(trees, pm) == |trees|
    {
      forall j | 0 <= j < |trees|
        ensures Refuses(trees[j], pm)
      {
        assert PageHolds(pages[j], trees[j], buffers[j]);
        TooLargeForAnyPage(trees[j], pm);
      }
      FirstFitAt(trees, pm, |trees|);
    }

    /**
     * The loop of addPixmap over the pages: the first page that takes `pm`
     * holds it and is marked dirty; the pages before it refused it and are
     * as they were, and so are the pages after it. `k` is that page's index,
     * or the number of pages when none took it.
     */
    method FindPage(pm: Pixmap) returns (k: nat, rect: Option<Rect>)
      requires Valid() && Pixmaps.WellFormed(pm) && pm.pixelType == pixelType
      modifies this, Repr
      ensures Valid() && fresh(Repr - old(Repr))
      ensures pages == old(pages) && k == FirstFit(old(trees), pm)
      ensures rect.Some? <==> k < |pages|
      ensures dirty == if k < |pages| then old(dirty)[k := true] else old(dirty)
      ensures forall j :: 0 <= j < |pages| && j != k ==> trees[j] == old(trees)[j] && buffers[j] == old(buffers)[j]
      ensures k < |pages| ==> pages[k].Inserted(old(trees)[k], old(buffers)[k], pm, rect)
    {
      k := 0;
      while k < |pages|
        invariant Valid() && fresh(Repr - old(Repr))
        invariant pages == old(pages) && dirty == old(dirty) && k <= |pages|
        invariant forall j :: 0 <= j < k ==> Refuses(old(trees)[j], pm)
        invariant trees == old(trees) && buffers == old(buffers)
      {
        rect := Offer(k, pm);
        if rect.Some? {
          FirstFitAt(old(trees), pm, k);
          return;
        }
        k := k + 1;
      }
      FirstFitAt(old(trees), pm, k);
      rect := None;
    }

    /**
     * Offers `pm` to page `k`: that page changes as its insert says, and is
     * marked dirty when it takes the pixmap; no other page changes.
     */
    method Offer(k: nat, pm: Pixmap) returns (rect: Option<Rect>)
      requires Valid() && Pixmaps.WellFormed(pm) && pm.pixelType == pixelType && k < |pages|
      modifies this, Repr
      ensures Valid() && fresh(Repr - old(Repr))
      ensures pages == old(pages) && dirty == if rect.Some? then old(dirty)[k := true] else old(dirty)
      ensures pages[k].Inserted(old(trees)[k], old(buffers)[k], pm, rect)
      ensures trees == old(trees)[k := trees[k]] && buffers == old(buffers)[k := buffers[k]]
      ensures rect.None? <==> Refuses(old(trees)[k], pm)
      ensures rect.None? ==> trees == old(trees) && buffers == old(buffers)
    {
      var page := pages[k];
      ghost var footprint := page.Repr;
      rect := page.Insert(pm);
      forall j | 0 <= j < |pages| && j != k
        ensures pages[j].Repr !! page.Repr && this !in pages[j].Repr && PageHolds(pages[j], trees[j], buffers[j])
      {
        assert pages[j].Repr !! footprint;
      }
      ghost var newRepr, newTrees, newBuffers := Repr + page.Repr, trees[k := page.tree.model], buffers[k := page.image];
      assert PagesHold(pages, newTrees, newBuffers, newRepr);
      Commit(pages, if rect.Some? then dirty[k := true] else dirty, newTrees, newBuffers, newRepr);
    }

    /** Installs a new state of the pages, already known to hold. */
    method Commit(ps: seq<Page>, flags: seq<bool>, ghost ts: seq<Tree>, ghost bs: seq<seq<byte>>, ghost footprint: set<object>)
      requires PagesHold(ps, ts, bs, footprint) && this !in footprint && |flags| == |ps|
      requires 0 <= pageWidth && 0 <= pageHeight && pageWidth * pageHeight >= 0
      modifies this
      ensures Valid()
      ensures pages == ps && dirty == flags && trees == ts && buffers == bs && Repr == footprint
    {
      pages, dirty, trees, buffers, Repr := ps, flags, ts, bs, footprint;
    }

    /**
     * The rest of addPixmap when no page took `pm`: one blank page is added,
     * dirty, and offered the pixmap; the old pages stay as they were.
     */
    method AddPage(pm: Pixmap) returns (rect: Option<Rect>)
      requires Valid() && Pixmaps.WellFormed(pm) && pm.pixelType == pixelType
      modifies this, Repr
      ensures Valid() && fresh(Repr - old(Repr))
      ensures |pages| == old(|pages|) + 1 && pages[..old(|pages|)] == old(pages) && fresh(pages[old(|pages|)])
      ensures dirty == old(dirty) + [true]
      ensures trees[..old(|pages|)] == old(trees) && buffers[..old(|pages|)] == old(buffers)
      ensures pages[old(|pages|)].Inserted(EmptyPage(pageWidth, pageHeight), NewPixmap(pageWidth, pageHeight, pixelType).pixels, pm, rect)
    {
      var page := new Page(pageWidth, pageHeight, pixelType);
      rect := page.Insert(pm);
      var newPages := pages + [page];
      ghost var newRepr, newTrees, newBuffers := Repr + page.Repr, trees + [page.tree.model], buffers + [page.image];
      assert PagesHold(newPages, newTrees, newBuffers, newRepr);
      Commit(newPages, dirty + [true], newTrees, newBuffers, newRepr);
    }
  }

  /** FirstFit is the index of any tree with room for `pm` that all trees before it lack. */
  lemma FirstFitAt(trees: seq<Tree>, pm: Pixmap, k: nat)
    requires k <= |trees| && forall j :: 0 <= j < k ==> Refuses(trees[j], pm)
    requires k < |trees| ==> !Refuses(trees[k], pm)
    ensures FirstFit(trees, pm) == k
  {
  }

  /** The index of the first tree with room for `pm`, or the number of trees when none has. */
  function FirstFit(trees: seq<Tree>, pm: Pixmap): (k: nat)
    ensures k <= |trees|
    ensures forall j :: 0 <= j < k ==> Refuses(trees[j], pm)
    ensures k < |trees| ==> !Refuses(trees[k], pm)
    decreases |trees|
  {
    if trees == [] then 0
    else if !Refuses(trees[0], pm) then 0
    else 1 + FirstFit(trees[1..], pm)
  }
}
