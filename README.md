# rotator, modelled in Dafny

rotator is a small puzzle game. The board shows six polycubes, each a walk
of unit cubes, and each shown in one of the 24 rotations of the cube.
Exactly two of the six have the same shape. The player selects two shapes.
Picking the pair wins the round and a new board is dealt. A wrong pick is a
failed attempt, and the selection is cleared after a short pause. The game
ends after two minutes of play.

The text in the game is drawn from a texture atlas of glyph pixmaps, in
batches of textured quads sent to OpenGL.

This project models these parts of the C++ code and proves properties of
them:

- **Shape logic** (`demo.cc`):
  - the table of 24 cube rotations and `rotated`;
  - `canonicalized` (shift to the componentwise minimum, then sort);
  - `sameShape`;
  - the random walk `generateShape`.
- **The game** (`demo.cc`): `initializeShapes`, which deals a round, the
  selection rules of `toggleShapeSelection`, and the timed state machine of
  `update` and `setState`.
- **The texture atlas** (`textureatlaspage.cc`, `textureatlas.cc`):
  - the guillotine binary-tree rectangle packer `Node::insert`;
  - the page insert, which keeps a one-pixel margin and copies rows into the
    page's byte buffer;
  - the first-fit `addPixmap` over a growing list of pages.
- **The sprite batcher** (`spritebatcher.cc`, `spritebatcher.h`):
  - a fixed-capacity array of quads that is flushed when full;
  - the stable sort by (depth, texture, program);
  - grouping into runs of one texture and program;
  - the vertex layout and emit order;
  - the rule for orphaning the vertex buffer and advancing its offset.
- **The UI painter** (`uipainter.cc`): the greedy word wrap
  `breakTextLines`, the save/restore transform stack, `startPainting`, and
  the font cache's find-or-insert in `setFont`.
- **Small value types**: the integer `Box` helpers of `util.h`, `Pixmap` and
  `pixelSizeInBytes`.

Each stateful C++ object is a Dafny `class` whose methods update its fields,
specified against pure functions of its state:

| class | what its state is |
|---|---|
| `Demo` | the game state |
| `TextureAtlas` | the list of pages |
| `Page` and `Node` | one page's pixel buffer and packing tree |
| `SpriteBatcher` | the quad array and the vertex buffer |
| `Painter` | the painter's state |
| `Box` | a box's two corners |

Pure C++ code becomes functions and lemmas.

The random engine is read as a fixed stream of numbers. The `n`-th draw of a
uniform integer in `[lo, hi]` is `lo + source(n) mod (hi - lo + 1)`.

## Model

| member | source | states |
|---|---|---|
| Geometry.MapBlocks | demo.cc:66-68 | The std::transform: same length, and block i of the result is f applied to block i. |
| Geometry.LexLeTotal | demo.cc:78-80 | The (x, y, z) comparator of the sort is a total order: any two blocks compare one way or the other, and blocks that compare both ways are equal. |
| Geometry.MapBlocksPermutation | demo.cc:66-68 | Mapping every block keeps permutations: permuted inputs give permuted outputs. |
| Geometry.WithinBelowIntMax | demo.cc:74 | Blocks within a bound no larger than INT_MAX are all below the INT_MAX seed of the minimum fold. |
| Canonical.MinFold | demo.cc:74-75 | The std::accumulate with glm::min: the result is at or below the seed and every block on each axis, and on each axis it equals the seed or some block. |
| Canonical.InsertSorted | demo.cc:78-80 | Inserting into a sorted list keeps it sorted, and adds exactly the new block to the multiset. |
| Canonical.SortBlocks | demo.cc:78-80 | std::sort with the (x, y, z) comparator: the result is sorted and a permutation of the input. |
| Canonical.Canonicalized | demo.cc:72-82 | Same length, sorted, and a permutation of the shape shifted so its componentwise minimum is at the origin. |
| Canonical.SortedUnique | demo.cc:78-80 | Two sorted permutations of one multiset are equal, so the sort's result does not depend on the algorithm. |
| Canonical.SortPermutation | demo.cc:78-80 | Sorting gives the same list for any two permutations of the same blocks. |
| Canonical.SortIdempotent | demo.cc:78-80 | Sorting a sorted list changes nothing. |
| Canonical.OriginIsMinimum | demo.cc:74-75 | For a non-empty shape whose coordinates do not exceed INT_MAX, the origin is the true componentwise minimum: at or below every block and attained on each axis. |
| Canonical.OriginPermutation | demo.cc:74-75 | Permuting the blocks does not change the origin. |
| Canonical.CanonicalPermutation | demo.cc:72-82 | The canonical form ignores block order. |
| Canonical.CanonicalIsNormalized | demo.cc:72-82 | A non-empty canonical form has every coordinate at least 0, and 0 on each axis. |
| Canonical.CanonicalIdempotent | demo.cc:72-82 | Canonicalizing twice equals canonicalizing once. |
| Canonical.OriginTranslation | demo.cc:74-75 | Translating every block moves the origin by the same offset. |
| Canonical.CanonicalTranslation | demo.cc:72-82 | The canonical form ignores any integer translation of the whole shape. |
| CubeRotations.Rotated | demo.cc:64-70 | Same length, and for a matrix with no translation column every block is mapped by the matrix's linear part, in order. |
| CubeRotations.AllProper | demo.cc:36-60 | There are 24 rotations; each is a signed permutation matrix with determinant +1 and a zero translation column. |
| CubeRotations.AllDistinct | demo.cc:36-60 | The 24 table entries are pairwise distinct. |
| CubeRotations.AllRotationsInTable | demo.cc:36-60 | Every signed permutation matrix with determinant +1, with the identity's last row and column, is in the table; with the two rows above, the table is exactly the rotation group of the cube. |
| CubeRotations.IdentityInTable | demo.cc:60 | The table's last entry is the identity. |
| CubeRotations.InverseUndoes | demo.cc:36-60 | Every table rotation has its inverse in the table: applying one and then the other gives back any point. |
| CubeRotations.RotatedWithin | demo.cc:64-70 | Rotating by a table entry keeps every coordinate within the same bound. |
| CubeRotations.RotatedShift | demo.cc:64-70 | Rotating a shifted shape is rotating and then shifting by the rotated offset. |
| CubeRotations.RotatedInverse | demo.cc:64-70 | Rotating by a table entry and then by its inverse gives back the shape. |
| CubeRotations.RotatedIdentity | demo.cc:60-70 | Rotating by the identity entry gives back the shape. |
| ShapeMatch.SameShape | demo.cc:84-95 | The result is true exactly when the sizes agree and some table rotation of rhs canonicalizes to the canonical form of lhs. It is false when the sizes differ. |
| ShapeMatch.CongruentReflexive | demo.cc:84-95 | Every shape is the same shape as itself, which the assert at demo.cc:580 relies on. |
| ShapeMatch.CongruentSymmetric | demo.cc:84-95 | For shapes within half the int range, sameShape is symmetric. |
| ShapeMatch.CongruentRotated | demo.cc:84-95 | A shape and any table rotation of it are the same shape, in both argument orders. |
| ShapeMatch.CongruentTranslated | demo.cc:84-95 | A shape and any translation of it are the same shape. |
| ShapeMatch.RotateCanonical | demo.cc:72-95 | Rotating a canonical form and canonicalizing again is the same as canonicalizing the rotated shape. |
| Random.Draw | demo.cc:99 | A uniform draw in [lo, hi] lies in [lo, hi]. |
| Random.Rng.UniformInt | demo.cc:99 | It returns the next draw of the stream in [lo, hi] and advances the stream by one. |
| ShapeGenerator.NextDirection | demo.cc:118-135 | From an axis bit (1, 2 or 4) the direction turns to a different axis bit. The source asserts that no other value occurs; the function leaves one alone. |
| ShapeGenerator.Turn | demo.cc:118-135 | The switch draws one bit and turns the direction as NextDirection says. Its precondition is the default branch's assertion that the direction is an axis bit. |
| ShapeGenerator.Flip | demo.cc:136-137 | One bit is drawn, and the side is reversed exactly when it is 1. |
| ShapeGenerator.TurnAndFlip | demo.cc:118-137 | The turn reads draw n and the flip reads draw n + 1, and two numbers are drawn in all. |
| ShapeGenerator.SegmentLength | demo.cc:109 | `2 + (i & 1) + randomBit()`: even segments have 2-3 blocks and odd ones 3-4. |
| ShapeGenerator.LaySegment | demo.cc:110-117 | Laying one segment succeeds exactly when the blocks laid so far plus the segment have no duplicate. On success the blocks are extended by the segment and the centre advances l steps. |
| ShapeGenerator.GenerateShape | demo.cc:97-140 | When the planned walk has no duplicate, the result is that walk and 12 numbers were drawn. Otherwise the result is none: some segment was the first to repeat a block, and the generator stopped reading right after that segment's length draw. |
| ShapeGenerator.Rejected | demo.cc:113-114 | A segment that would repeat a block makes every longer walk invalid as well. |
| ShapeGenerator.DuplicateInPrefix | demo.cc:113-114 | A repeated block in a prefix of the walk repeats in the whole walk. |
| ShapeGenerator.WalkerShape | demo.cc:102-137 | The direction always stays an axis bit and changes at every segment. The side stays +1 or -1, so every step is 2 or -2 along exactly one axis. |
| ShapeGenerator.PlannedLength | demo.cc:106-117 | A complete walk has between 10 and 14 blocks. |
| ShapeGenerator.PlannedSteps | demo.cc:101-117 | A walk starts at the origin, and consecutive blocks differ by 2 or -2 along exactly one axis. |
| ShapeGenerator.PlannedWithin | demo.cc:101-117 | Every block of a complete walk lies within 28 of the origin on each axis. |
| Game.Demo.constructor | demo.cc:213-222 | A new game in Intro, with no attempts, no score and both clocks at 0. It is dealt its first round by initialize: when the board has all six slots, it is a valid round with nothing selected. |
| Game.Demo.SetState | demo.cc:645-649 | The state becomes the given one and its clock restarts at 0; nothing else changes. |
| Game.Demo.Initialize | demo.cc:519-525 | Score, attempts and play time are reset. Unless dealing ran out of fuel, the board is a freshly dealt round with nothing selected. |
| Game.Demo.InitializeShapes | demo.cc:527-583 | The result is a round when dealing did not run out of fuel. A round is 6 shapes with 0 <= first < second <= 5, and slot second copies the blocks of slot first. Every other slot is not the same shape as any earlier slot. Slot second's rotation does not look like slot first's. Nothing is selected and the count is 0. |
| Game.MatchesEarlier | demo.cc:547-553 | The find_if: true exactly when some dealt shape is the same shape as the candidate. |
| Game.NewShapeBlocks | demo.cc:539-558 | The blocks lambda: what it returns is the walk generateShape plans from some point of the random stream, duplicate-free and inside the board, and unlike every dealt shape. |
| Game.ChooseRotation | demo.cc:559-576 | The rotation lambda: the rotation is a table entry, and at slot second it does not canonicalize like slot first. |
| Game.DealRound | demo.cc:536-578 | The dealing loop ends with a valid round prefix. That prefix has all six slots exactly when no retry loop ran out of fuel. |
| Game.DealSlot | demo.cc:537-578 | One pass of the dealing loop extends the dealt prefix by one slot and keeps it a valid round prefix. |
| Game.DealtIsRound | demo.cc:578-582 | Six dealt slots are a round with nothing selected. |
| Game.ExactlyOnePair | demo.cc:580 | On a round, two different slots are the same shape exactly when they are first and second. |
| Game.Demo.ToggleShapeSelection | demo.cc:651-679 | An index off the board changes nothing. Otherwise the shape's selection flips, the count keeps equal to the number of selected shapes, and the layout is kept. Reaching two selections counts an attempt. It enters Success with score + 1 exactly when first and second are both selected, and Fail otherwise. Validity, including score <= attempts, is preserved. |
| Game.ScoresIffSameShape | demo.cc:665-676 | On a round with two shapes selected, the attempt wins exactly when the two selected shapes are the same shape. |
| Game.SelectedFlip | demo.cc:656-664 | Flipping one shape's selection moves the number of selected shapes by one in the right direction and keeps the layout. |
| Game.Deselected | demo.cc:503-504 | Every shape keeps its blocks and rotation and becomes unselected. |
| Game.Demo.Deselect | demo.cc:503-504 | The loop over the shapes leaves every shape unselected and changes nothing else. |
| Game.Demo.Play | demo.cc:509-513 | The play clock advances. Past TotalPlayTime the state becomes Result with its clock restarted; otherwise the state is kept. |
| Game.Demo.Update | demo.cc:484-517 | The state clock advances in Intro and Result, and nothing else happens there. After SuccessStateTime in Success a new round is dealt and play starts. After FailStateTime in Fail every selection and the count are cleared and play resumes. The play clock runs in Playing and Fail, and passing TotalPlayTime enters Result. Attempts and score never change, and validity is kept. |
| PixelTypes.PixelSizeInBytes | pixeltype.h:12-24 | RGBA takes 4 bytes; Grayscale, Invalid and anything else take 1. |
| PixelTypes.PixelSizeOneOrFour | pixeltype.h:12-24 | The size is always 1 or 4, so at least 1. |
| Pixmaps.EmptyPixmap | pixmap.h:15-30 | The default pixmap is -1 by -1, of type Invalid, with no pixels, and converts to false. |
| Pixmaps.NewPixmap | pixmap.h:22-30 | The sized pixmap has the given size and type and exactly width * height * pixelSizeInBytes bytes, all zero. It converts to true exactly when its type is not Invalid. |
| AtlasPage.TreeInsert | textureatlaspage.cc:25-78 | A refusal leaves the tree unchanged, and a granted rectangle has the requested size. A free leaf at least as large always grants the rectangle at its own corner. The root rectangle never changes. |
| AtlasPage.HalvesTile | textureatlaspage.cc:60-77 | A split cuts the leaf into two disjoint parts that cover it, along the axis with the larger leftover. The first part is at the leaf's corner, has the requested width or height, and is no smaller than the request. |
| AtlasPage.UsedInside | textureatlaspage.cc:25-78 | Every rectangle handed out lies inside the tree's root rectangle. |
| AtlasPage.InsertPacks | textureatlaspage.cc:25-78 | One insert keeps the tree well formed and keeps every rectangle handed out before. A granted rectangle lies inside the root and overlaps none of them. |
| AtlasPage.InsertAllPacks | textureatlaspage.cc:25-78 | Over any run of inserts, every granted rectangle has the requested size and lies inside the root. Granted rectangles are pairwise disjoint and disjoint from those handed out before. |
| AtlasPage.Node.constructor | textureatlaspage.cc:82 | A free leaf over the given rectangle. |
| AtlasPage.Node.Insert | textureatlaspage.cc:25-78 | The node tree after the call, and the result, are those of TreeInsert on its value before. |
| AtlasPage.Node.InsertIntoChildren | textureatlaspage.cc:39-48 | On an internal node the left child is tried, then the right; the result is TreeInsert's. |
| AtlasPage.Node.SplitAndInsert | textureatlaspage.cc:58-77 | A larger leaf gets two fresh children and the first is tried; the result is TreeInsert's. |
| AtlasPage.CopyRow | textureatlaspage.cc:118 | std::copy of one row: the given span of the destination takes the source bytes and every other byte is kept. |
| AtlasPage.BlitRow | textureatlaspage.cc:116-121 | After the row copies, byte k of destination row i is byte k of source row i. |
| AtlasPage.BlitElsewhere | textureatlaspage.cc:116-121 | The row copies change no byte outside the destination rows. |
| AtlasPage.CopyRows | textureatlaspage.cc:116-121 | The copy loop leaves the buffer equal to the row-by-row blit of the source. |
| AtlasPage.Page.constructor | textureatlaspage.cc:80-84 | A zero-filled buffer of the page's size and type, and a tree that is one free leaf covering the page. |
| AtlasPage.Page.Image | textureatlaspage.cc:88-91 | The page's pixmap: well formed, of the page's size and type, holding its current pixels. |
| AtlasPage.Page.Insert | textureatlaspage.cc:93-122 | A pixmap of another type is refused and nothing changes. Otherwise the tree is asked for the pixmap plus a margin of 1 on every side. When it grants a rectangle, the result is the part one pixel in from each edge and the pixmap's rows are copied there; other bytes are unchanged. When it refuses, the pixels are unchanged. |
| AtlasPage.Page.Place | textureatlaspage.cc:102-122 | The part of the insert after the type check, with the same result and buffer. |
| AtlasPage.Page.CopyPixmap | textureatlaspage.cc:114-121 | The page's buffer becomes its old contents with the pixmap's rows copied into the granted rectangle, one pixel in from its corner; every other byte is kept. |
| Atlas.TextureAtlas.constructor | textureatlas.cc:6-11 | An atlas of the given page size and pixel type, with no pages. |
| Atlas.TextureAtlas.PageCount | textureatlas.cc:80-83 | The number of pages. |
| Atlas.FirstFit | textureatlas.cc:47-55 | The index of the first page with room for the pixmap: every earlier page refuses it, and the page at the index, if any, accepts it. |
| Atlas.FirstFitAt | textureatlas.cc:47-55 | FirstFit is characterised by those two facts. |
| Atlas.TextureAtlas.Offer | textureatlas.cc:49-52 | Page k is asked for the pixmap. The page's tree and pixels change as its insert says, and no other page changes. The result is none exactly when that page's tree refuses the pixmap, and then nothing changes. A granted rectangle marks page k dirty. |
| Atlas.TextureAtlas.FindPage | textureatlas.cc:47-55 | The pages are tried in order. The first that takes the pixmap holds it and is marked dirty; no other page changes and no page is added. |
| Atlas.TextureAtlas.AddPage | textureatlas.cc:57-61 | Exactly one new blank page is appended, marked dirty, and offered the pixmap. |
| Atlas.TextureAtlas.AddPixmap | textureatlas.cc:30-78 | A pixmap of another type, or one wider or taller than a page, is refused and no page changes. Otherwise the first page with room takes it and is marked dirty, and no page is added. When no page has room, exactly one new page is added and offered it. A result has the pixmap's size and the holding page's index. The result is none exactly when the pixmap and its margin do not fit on an empty page. |
| Atlas.TextureAtlas.PlaceOnSomePage | textureatlas.cc:44-69 | The part of addPixmap after its checks. It reaches the "shouldn't ever happen" branch exactly when the pixmap with its margin does not fit on an empty page. |
| Atlas.SizeCheckAdmitsUnplaceable | textureatlas.cc:38-66 | As written: a pixmap exactly the size of a page passes the check at line 38, but the new page refuses it. |
| Atlas.FitsOnPageIffEmptyPageAccepts | textureatlaspage.cc:102 | An empty page accepts a pixmap exactly when the pixmap plus a margin of 1 on every side fits the page. |
| Atlas.TooLargeForAnyPage | textureatlaspage.cc:27-35 | A pixmap that does not fit with its margin is refused by every page of that size, whatever is on it. |
| Atlas.TextureAtlas.AllPagesRefuse | textureatlas.cc:47-55 | Such a pixmap is refused by every existing page. |
| Atlas.TextureAtlas.AddPixmapChecked | textureatlas.cc:30-78 | Corrected addPixmap: a pixmap is placed exactly when its type is the atlas's and it fits on an empty page with its margin, so the "shouldn't ever happen" branch is unreachable. A refused pixmap changes nothing; a placed one goes onto the first page with room or one new page. |
| Sprites.Constants | spritebatcher.h:57-60 | A vertex is 12 floats and a quad 72, and MaxQuadsPerBatch = 14563 is the number of whole quads the 0x100000-float buffer holds. |
| Sprites.ProgramIndex | spritebatcher.cc:106 | The program's enumerator value, which std::tie compares, is below 4. |
| Sprites.VertexFloats | spritebatcher.cc:145-162 | emitVertex writes 12 floats: position x, y, texture coordinates x, y, the foreground colour, then the background colour. |
| Sprites.Emitted | spritebatcher.cc:164-170 | A quad emits six vertices, corner k being EmitOrder[k], that is 0, 1, 2, 2, 3, 0. |
| Sprites.QuadFloatsInEmitOrder | spritebatcher.cc:164-170 | A quad's 72 floats are the floats of corners 0, 1, 2, 2, 3, 0, one after another. |
| Sprites.SpriteVerts | spritebatcher.cc:55-76 | The corners are (p0.x, p0.y), (p1.x, p0.y), (p1.x, p1.y) and (p0.x, p1.y), with the matching texture-coordinate corners and the given colours. |
| Sprites.SpriteIsRectangle | spritebatcher.cc:55-58 | The four corners form an axis-aligned rectangle in both position and texture coordinates. |
| Sprites.KeyTrichotomy | spritebatcher.cc:105-107 | For the std::tie comparison of (depth, texture, program), exactly one of less, greater or equal key holds. |
| Sprites.KeyTransitive | spritebatcher.cc:105-107 | The comparison is transitive, equal keys are an equivalence, and quads with equal keys compare alike with every other quad; with KeyTrichotomy, it is the strict weak order std::stable_sort needs. |
| Sprites.StableSort | spritebatcher.cc:105-107 | The sorted quads are a permutation of the batch. |
| Sprites.StableSortIsStable | spritebatcher.cc:105-107 | The sorted order is a permutation, non-decreasing in (depth, texture, program), and quads with equal keys keep their insertion order. |
| Sprites.AscendingUnique | spritebatcher.cc:105-107 | Two sequences ascending in the key, with the same quads of every key in the same order, are equal. |
| Sprites.StableOrderUnique | spritebatcher.cc:105-107 | Any ascending order that keeps every key's quads in insertion order is StableSort's order, so the choice of stable sort does not change what is drawn. |
| Sprites.RunLength | spritebatcher.cc:118-123 | The find_if: the run is non-empty, every quad in it shares the first quad's texture and program, and the quad after it does not. |
| Sprites.Batches | spritebatcher.cc:115-125 | The sorted quads split into non-empty runs, with none when there are no quads. |
| Sprites.BatchesPartition | spritebatcher.cc:115-125 | The runs concatenate back to the sorted quads. Each run has one texture and one program, and neighbouring runs differ in one of them, so the runs are maximal. |
| Sprites.BatchesStartWithRun | spritebatcher.cc:115-125 | The first run is the prefix find_if finds, and the rest are the runs of what follows. |
| Sprites.Render | spritebatcher.cc:98-194 | No quads make no draw call and leave the buffer state alone. Otherwise the buffer ends allocated and at least one call is made. |
| Sprites.RenderFollowsBatches | spritebatcher.cc:116-194 | One draw call per run, in order. Each call has the run's texture and program and quads, and draws 6 vertices per quad. |
| Sprites.RenderStaysInBuffer | spritebatcher.cc:128-192 | The offset stays within BufferCapacity and on a quad boundary. Every run is written inside the buffer, after an orphaning whenever the buffer was unallocated or the run would not fit. |
| Sprites.RenderDrawsEveryQuad | spritebatcher.cc:139-171 | The draw calls together draw exactly the sorted quads, in order. |
| Sprites.RenderDrawsSixVerticesPerQuad | spritebatcher.cc:190 | The draw calls draw 6 vertices per quad in total. |
| Batcher.Overwrite | spritebatcher.cc:136-171 | Writing floats through the mapped range: those positions take the new floats and every other float is kept. |
| Batcher.EmitVertex | spritebatcher.cc:145-162 | The 12 floats of the vertex are written at the pointer, which advances by 12. |
| Batcher.EmitQuad | spritebatcher.cc:164-170 | The 72 floats of the quad's six vertices are written at the pointer, which advances by 72. |
| Batcher.EmitRun | spritebatcher.cc:139-171 | The floats of every quad of the run are written in order, and the pointer advances by 72 per quad. |
| Batcher.FindRunEnd | spritebatcher.cc:120-123 | The loop stops at the end of the run that starts at the given quad. |
| Batcher.SpriteBatcher.constructor | spritebatcher.h:63-70 | An empty batch, the Text program, an unallocated buffer and offset 0. |
| Batcher.SpriteBatcher.SetBatchProgram | spritebatcher.cc:30-33 | The program for later sprites is set; the batch and buffer are kept. |
| Batcher.SpriteBatcher.StartBatch | spritebatcher.cc:40-43 | The batch is emptied; the program and buffer state are kept. |
| Batcher.SpriteBatcher.DrawRun | spritebatcher.cc:125-192 | One run is drawn: the buffer is orphaned when needed and the run's floats are written at the run's offset. The draw call is the run's, and the offset moves past the run. |
| Batcher.SpriteBatcher.RenderRun | spritebatcher.cc:116-193 | One pass of the loop draws the run that starts there. Rendering from the start is its call followed by rendering from the run's end with the buffer as the call left it. |
| Batcher.SpriteBatcher.RenderSorted | spritebatcher.cc:115-194 | The while loop makes exactly Render's draw calls, and leaves the buffer in Render's state. Every call's floats are in the buffer when it is drawn. |
| Batcher.SpriteBatcher.RenderBatch | spritebatcher.cc:96-198 | The batch is stably sorted and drawn run by run as Render says; the batch itself is kept. |
| Batcher.SpriteBatcher.AddSprite | spritebatcher.cc:81-94 | A quad with the texture, the current program, the corners and the depth is appended to the batch. Earlier quads are kept. When the batch was full, it is rendered and emptied first, so it then holds only the new quad. The count never exceeds MaxQuadsPerBatch. |
| Batcher.SpriteBatcher.AddPixmapSprite | spritebatcher.cc:45-61 | addSprite of the pixmap's texture with its rectangle's corners and the two given colours. |
| Batcher.SpriteBatcher.AddColoredSprite | spritebatcher.cc:63-79 | addSprite of the pixmap's texture with its rectangle's corners, the given colour and a background of (0, 0, 0, 0). |
| TextLayout.Width | uipainter.cc:330-355 | An empty text has width 0. |
| TextLayout.WidthAppend | uipainter.cc:355 | The width of a concatenation is the sum of the widths. |
| TextLayout.SpacedIsJoined | uipainter.cc:340-347 | The rows each followed by a space are the rows joined by single spaces, plus one trailing space. |
| TextLayout.PushRow | uipainter.cc:326-328 | Appending the row text[start..end], built from the widths at its ends, keeps every row's width equal to the sum of its characters' advances. The rows still join to the text up to end. |
| TextLayout.SpaceScanned | uipainter.cc:334-353 | Reading a space keeps the scan invariant, whichever branch is taken. A space that fits becomes the last break and cuts nothing. A space past maxWidth cuts exactly one row, at the last break or at the space itself when there is none, and the next row starts just after that cut. The rows stay a faithful cover of the text read so far, every row cut so far fits or holds no space, and a row is cut only when it, a space and the first word after it would be wider than maxWidth. |
| TextLayout.CutLastStep | uipainter.cc:334-353 | When a space cuts a row and the next row starts right after it, the row just cut is wider than maxWidth and holds no space. |
| TextLayout.ReadChar | uipainter.cc:330-355 | One pass of the loop over the text takes exactly the step of the reference wrap WrapFrom: wrapping on from the next character with the new state gives the same rows as wrapping on from this one with the old state. lineWidth grows by the character's advance, and a character other than a space changes nothing else. |
| TextLayout.FinishRows | uipainter.cc:357-368 | The rows are exactly those of the reference wrap's last step FinalRows, and the rows cut so far are kept as a prefix. Nothing is added when the text ends right after a cut. Otherwise the rest becomes one row, or, when it is too wide and holds a break, two rows: the text up to that break and the text after it. |
| TextLayout.FinalScanned | uipainter.cc:357-368 | From any state the scan of the whole text can reach, the last step gives rows with all of the wrap's guarantees (those listed for WrapWraps). |
| TextLayout.WrapsBack | uipainter.cc:330-355 | One step of the reference wrap: its rows from a character are its rows from the next character after that character's update. |
| TextLayout.WrapNext | uipainter.cc:330-355 | The wrap's guarantees hold for the rows from a character whenever the scan invariant holds after reading it. |
| TextLayout.WrapScanned | uipainter.cc:313-371 | From any state the scan can reach, wrapping on to the end gives rows with all of the wrap's guarantees. |
| TextLayout.WrapWraps | uipainter.cc:313-371 | For every text, width and advance function, the reference wrap Wrap gives no rows exactly for the empty text. Its rows joined by single spaces are the text, except that a final space the text was cut at is dropped, and in that case the last row is wider than maxWidth and holds no space. Every row's width is the sum of its advances. A text no wider than maxWidth stays one row. Every row fits or holds no space, and every cut is greedy. |
| TextLayout.WrapKeepsFinalSpace | uipainter.cc:313-371 | With unit advances and maxWidth 4, "ab cd " wraps to "ab" and "cd ": a final space that fits stays on the last row. |
| TextLayout.WrapDropsFinalSpace | uipainter.cc:313-371 | With unit advances and maxWidth 3, "abcd " wraps to the single row "abcd": the final space is where the over-wide row is cut, and it starts no empty row. |
| TextLayout.WrapEndsInEmptyRow | uipainter.cc:313-371 | With unit advances and maxWidth 3, "ab cdefg " wraps to "ab", "cdefg" and an empty row: when the last break is the final space of a too-wide rest, the text after it is an empty row. |
| TextLayout.BreakTextLines | uipainter.cc:313-371 | The rows are exactly those of the reference wrap Wrap, and so have all its guarantees. Empty text gives no rows and other text at least one. The rows are consecutive slices of the text, separated by exactly one space that belongs to neither; the last row may drop one trailing space, and only when that space cut a row wider than maxWidth that holds no space. Every row's width is the sum of its characters' advances. A text no wider than maxWidth stays one row. Every row is no wider than maxWidth unless it holds no space it could have been cut at. The wrap is greedy: each row but the last, followed by a space and the first word of the next row, is wider than maxWidth. |
| Painting.Saved | uipainter.cc:297-300 | saveTransform pushes the current transform, which is kept. |
| Painting.Restored | uipainter.cc:302-311 | On an empty stack nothing changes; otherwise the top becomes the transform and is popped. |
| Painting.RestoreAfterSave | uipainter.cc:297-311 | A restore right after a save gives back the exact transform and stack. |
| Painting.SavedTimes | uipainter.cc:297-300 | n saves grow the stack by n. |
| Painting.RestoreTimesAfterSaveTimes | uipainter.cc:297-311 | n restores undo n saves. |
| Painting.WithFont | uipainter.cc:54-66 | The find-or-insert: the cache gains exactly the font, cached fonts keep their cache, and a new font gets the cache its load built. |
| Painting.WithFontIdempotent | uipainter.cc:54-66 | Selecting the same font twice caches nothing more. |
| Painting.Painter.constructor | uipainter.cc:24-28 | A painter with a fresh batcher, no fonts, no current font and an empty transform stack. |
| Painting.Painter.SaveTransform | uipainter.cc:297-300 | The transform state becomes Saved of the old one; the fonts are kept. |
| Painting.Painter.RestoreTransform | uipainter.cc:302-311 | The transform state becomes Restored of the old one; the fonts are kept. |
| Painting.Painter.ResetTransform | uipainter.cc:262-265 | The transform becomes the identity; the stack and fonts are kept. |
| Painting.Painter.StartPainting | uipainter.cc:41-47 | The stack is emptied, the transform reset to the identity, and the current font cleared. The batcher starts an empty batch. The font cache and the batcher's program and buffer are kept. |
| Painting.Painter.SetFont | uipainter.cc:54-68 | The cache becomes WithFont of the old one and the current font is this one. A font is loaded only when it was not cached, so each font is loaded at most once. |
| Painting.Painter.BreakTextLines | uipainter.cc:313-371 | breakTextLines with the current font's advance widths: the rows are exactly the reference wrap Wrap with those advances, with all of TextLayout.BreakTextLines' guarantees, including when a trailing space is dropped and the greedy choice of each cut. |
| Boxes.ContainsOffset | util.h:46 | A point is in the box exactly when its offset from min is in [0, width) and [0, height): half-open on both axes. |
| Boxes.FlatContainsNothing | util.h:46 | A box with no width or no height, in particular one with min == max, contains no point. |
| Boxes.MovedMin | util.h:18-23 | min becomes p, and the size max - min (so the width and height) is kept. |
| Boxes.MovedMax | util.h:25-30 | max becomes p, and the size max - min (so the width and height) is kept. |
| Boxes.Translated | util.h:49-54 | The box moved by p keeps its size, and contains q + p exactly when the original contains q. |
| Boxes.MovedMinIsTranslated | util.h:18-37 | Moving min to where a translation takes it is that translation. |
| Boxes.TranslatedTwice | util.h:49-54 | Two translations compose to one by the sum of the offsets. |
| Boxes.United | util.h:39-61 | The union's corners bound both boxes' corners, and each coordinate is one of the inputs'. |
| Boxes.UnitedCommutative | util.h:56-61 | Union is commutative. |
| Boxes.UnitedIdempotent | util.h:56-61 | Union is idempotent. |
| Boxes.UnitedAssociative | util.h:56-61 | Union is associative. |
| Boxes.UnitedContains | util.h:46-61 | The union contains every point of either box. |
| Boxes.UnitedLeast | util.h:39-44 | Any box whose corners bound both boxes' corners also bounds the union's corners. |
| Boxes.Box.constructor | util.h:9-10 | Both corners at the origin. |
| Boxes.Box.MoveMin | util.h:18-23 | The box becomes MovedMin of its old value. |
| Boxes.Box.MoveMax | util.h:25-30 | The box becomes MovedMax of its old value. |
| Boxes.Box.Translate | util.h:32-37 | `+=`: the box becomes Translated of its old value. |
| Boxes.Box.Unite | util.h:39-44 | `\|=`: the box becomes United of its old value and rhs. |

## Left out

- The OpenGL calls (buffer binding, mapping and orphaning, texture binding, shader programs and uniforms, `glDrawArrays`) are not modelled as calls. A draw call is a value: the run's texture, program, quads, whether the buffer was orphaned, the offset, the first vertex and the vertex count. The mapped vertex buffer is an array of reals that the emit loop writes, and orphaning does not clear it. The transform matrix passed as a uniform is not modelled.
- Texture identity is an integer standing for the pointer, and a page's texture is its index in the atlas. Each page's texture is reduced to its dirty flag.
- The texture coordinates `TextureAtlasPage::insert` returns, a float box in UV space, are replaced by the integer page rectangle they are computed from.
- The mesh and wobble animation of each shape (`initializeShape`, `Wobble::update`), rendering, the mouse hit-test, text and timer drawing, and the other painter drawing calls are not part of this model; they are floating-point presentation.
- Times and vertex data are `real`, with exact arithmetic. Glyph advances are natural numbers.
- The random engine is a fixed stream of numbers. `std::random_device` seeding and the mt19937 algorithm are not modelled. The distribution at demo.cc:542 is never drawn from and is left out.
- Game.Demo.InitializeShapes: the two `for (;;)` retry loops get a `fuel` bound. The result says whether the bound ran out, and only a run that did not run out is promised to be a round.
- Game.Demo.Initialize: it inherits the same `fuel` bound through initializeShapes.
- Game.Demo.Update: it inherits the same `fuel` bound when a won round deals the next one.
- Game.Demo.constructor: it inherits the same `fuel` bound through initialize. The canvas size, shader manager, painter and shake animations it also builds are not part of this model. The initial Intro state and the zero state clock are not set by demo.cc:213-222 or by initialize. They come from the member defaults of the Demo class declaration, and that declaration is not part of this model: demo.h is older than demo.cc and declares neither member. Attempts, score and play time are the ones initialize resets at demo.cc:519-524.
- The `log(...)` messages are not modelled; only the decision next to each is. These are Atlas.TextureAtlas.AddPixmap's two refusals (textureatlas.cc:34 and 40) and Painting.Painter.RestoreTransform's underflow (uipainter.cc:306).
- Painting.Painter.SetFont: loading a font file is the parameter `load`, which builds the cache. Whether the load failed only matters through the cache it returns, as in the source.
- Painting.Painter.BreakTextLines: the source dereferences the glyph of every character without a null check, so the model requires every character of the text, and the space, to have an advance in the current font.
- Painting.Painter.constructor: the default-constructed `glm::mat4` of the painter is a constructor parameter. The TextureAtlas the constructor builds for the glyphs of its font cache (uipainter.cc:26) is not a field of the model's painter: glyph atlases are modelled separately as Atlas. The scale, translate and rotate operations on the transform are not part of this model.
- Boxes: `Box` is modelled for integer points only (`BoxI`); `BoxF` and `center` are floating point and are left out.
- Boxes.United, Boxes.Translated, Canonical.Canonicalized: coordinates are unbounded integers. The canonical-form lemmas require coordinates no larger than 32-bit `INT_MAX` (and, for symmetry of sameShape, within half the int range), which every generated walk satisfies. Wrap-around beyond that is not modelled.
- Pixmaps.NewPixmap: it requires `width * height >= 0`, because a negative size would give a negative vector length.
- Sprites.StableSort: std::stable_sort is modelled as an insertion sort. Any stable sort gives the same order: Sprites.StableSortIsStable shows the insertion sort is one, and Sprites.StableOrderUnique that the order with those properties is unique.
- Batcher.SpriteBatcher.RenderBatch: the sort array of pointers is modelled as the sorted sequence of the quads themselves.

## Findings

| source | as written | input that shows it | evidently intended | confidence | as-written member | corrected member |
|---|---|---|---|---|---|---|
| textureatlas.cc:38, 62-66 | `addPixmap` refuses only a pixmap wider or taller than a page. A page needs the pixmap plus one pixel of margin on every side (textureatlaspage.cc:102), so a pixmap within two pixels of the page size passes the check. Every page then refuses it, including the new page, and the "shouldn't ever happen" assert fires. | A pixmap exactly as large as a page: the new page it is offered to refuses it. | Refuse a pixmap unless width + 2 <= page width and height + 2 <= page height, so the branch is unreachable. | not executed | Atlas.SizeCheckAdmitsUnplaceable | Atlas.TextureAtlas.AddPixmapChecked |
