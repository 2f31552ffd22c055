/**
 * UIPainter::breakTextLines (uipainter.cc): greedy word wrap of a text into
 * rows no wider than a given width where the text allows it. Glyph advances
 * are natural numbers given by the font; a row's width is the sum of the
 * advances of its characters.
 */
module TextLayout {
  import opened Wrappers

  /** TextRow: the characters of one row and its width. */
  datatype TextRow = TextRow(text: string, width: int)

  /** The sum of the glyph advances of `s`. */
  function Width(advance: char -> nat, s: string): (w: nat)
    ensures s == [] ==> w == 0
  {
    if s == [] then 0 else advance(s[0]) + Width(advance, s[1..])
  }

  lemma {:induction false} WidthAppend(advance: char -> nat, s: string, t: string)
    ensures Width(advance, s + t) == Width(advance, s) + Width(advance, t)
    decreases |s|
  {
    if s == [] {
      assert s + t == t;
    } else {
      assert (s + t)[1..] == s[1..] + t;
      WidthAppend(advance, s[1..], t);
    }
  }

  /** The width of text[..j] is that of text[..i] plus that of text[i..j]. */
  lemma WidthSplit(advance: char -> nat, text: string, i: int, j: int)
    requires 0 <= i <= j <= |text|
    ensures Width(advance, text[..j]) == Width(advance, text[..i]) + Width(advance, text[i..j])
  {
    assert text[..j] == text[..i] + text[i..j];
    WidthAppend(advance, text[..i], text[i..j]);
  }

  /** One more character adds its advance. */
  lemma WidthNext(advance: char -> nat, text: string, i: int)
    requires 0 <= i < |text|
    ensures Width(advance, text[..i + 1]) == Width(advance, text[..i]) + advance(text[i])
  {
    WidthSplit(advance, text, i, i + 1);
    assert text[i..i + 1] == [text[i]];
  }

  lemma SpaceAt(text: string, i: int)
    requires 0 <= i < |text| && text[i] == ' '
    ensures text[..i + 1] == text[..i] + " "
  {
  }

  /** The rows put back together, one space between each two. */
  function Joined(rows: seq<TextRow>): string {
    if rows == [] then []
    else if |rows| == 1 then rows[0].text
    else Joined(rows[..|rows| - 1]) + " " + rows[|rows| - 1].text
  }

  /** The rows each followed by a space: the text a row that starts after them starts at. */
  function Spaced(rows: seq<TextRow>): string {
    if rows == [] then []
    else Spaced(rows[..|rows| - 1]) + rows[|rows| - 1].text + " "
  }

  /** Each row followed by a space is the joined rows and one more space. */
  lemma {:induction false} SpacedIsJoined(rows: seq<TextRow>)
    requires rows != []
    ensures Spaced(rows) == Joined(rows) + " "
    decreases |rows|
  {
    if |rows| > 1 {
      SpacedIsJoined(rows[..|rows| - 1]);
    }
  }

  /** Every row's width is the sum of the advances of its characters. */
  ghost predicate Measured(advance: char -> nat, rows: seq<TextRow>) {
    forall k :: 0 <= k < |rows| ==> rows[k].width == Width(advance, rows[k].text)
  }

  /** No space among text[a..b]. */
  ghost predicate SpaceFree(text: string, a: int, b: int) {
    forall k :: a <= k < b && 0 <= k < |text| ==> text[k] != ' '
  }

  lemma SpaceFreeSlice(text: string, a: int, b: int)
    requires 0 <= a <= b <= |text| && SpaceFree(text, a, b)
    ensures ' ' !in text[a..b]
  {
  }

  /** The greedy wrap's promise: a row is no wider than maxWidth, or it holds no space it could be cut at. */
  predicate FitsOrUnbroken(maxWidth: int, row: TextRow) {
    row.width <= maxWidth || ' ' !in row.text
  }

  ghost predicate Wrapped(maxWidth: int, rows: seq<TextRow>) {
    forall k :: 0 <= k < |rows| ==> FitsOrUnbroken(maxWidth, rows[k])
  }

  lemma WrappedPush(maxWidth: int, rows: seq<TextRow>, row: TextRow)
    requires Wrapped(maxWidth, rows) && FitsOrUnbroken(maxWidth, row)
    ensures Wrapped(maxWidth, rows + [row])
  {
    assert forall k :: 0 <= k < |rows| ==> (rows + [row])[k] == rows[k];
  }

  /** The characters of `s` before its first space. */
  function FirstWord(s: string): (w: string)
    ensures ' ' !in w && w <= s
  {
    if s == [] || s[0] == ' ' then [] else [s[0]] + FirstWord(s[1..])
  }

  /** Text after the first word starts with a space, or is empty. */
  lemma {:induction false} FirstWordBeforeSpace(a: string, b: string)
    requires b == [] || b[0] == ' '
    ensures FirstWord(a + b) == FirstWord(a)
    decreases |a|
  {
    if a == [] {
      assert a + b == b;
    } else if a[0] != ' ' {
      assert (a + b)[1..] == a[1..] + b;
      FirstWordBeforeSpace(a[1..], b);
    }
  }

  /** A text with no space is one word. */
  lemma {:induction false} FirstWordWhole(a: string)
    requires ' ' !in a
    ensures FirstWord(a) == a
    decreases |a|
  {
    if a != [] {
      assert a[0] in a;
      assert forall k :: 0 <= k < |a[1..]| ==> a[1..][k] == a[k + 1];
      FirstWordWhole(a[1..]);
    }
  }

  /** One more character that is not a space either ends after the first word or extends it. */
  lemma {:induction false} FirstWordExtend(a: string, c: char)
    requires c != ' '
    ensures FirstWord(a + [c]) == FirstWord(a) || FirstWord(a + [c]) == FirstWord(a) + [c]
    decreases |a|
  {
    if a == [] {
      assert a + [c] == [c] && [c][1..] == [];
    } else if a[0] != ' ' {
      assert (a + [c])[1..] == a[1..] + [c];
      FirstWordExtend(a[1..], c);
    }
  }

  /** Two slices on either side of the space text[b], joined by a space, are the slice across it. */
  lemma JoinAtSpace(text: string, a: int, b: int, c: int)
    requires 0 <= a <= b < c <= |text| && text[b] == ' '
    ensures text[a..b] + " " + text[b + 1..c] == text[a..c]
  {
    assert text[a..c] == text[a..b] + text[b..c];
    assert text[b..c] == [text[b]] + text[b + 1..c];
  }

  /** If text[a..c] is wider than maxWidth, so is a cut at the space text[b] with what follows it up to c. */
  lemma SpanTooWide(advance: char -> nat, text: string, maxWidth: int, a: int, b: int, c: int)
    requires 0 <= a <= b < c <= |text| && text[b] == ' '
    requires Width(advance, text[..c]) - Width(advance, text[..a]) > maxWidth
    ensures CutDue(advance, maxWidth, text[a..b], text[b + 1..c])
  {
    JoinAtSpace(text, a, b, c);
    WidthSplit(advance, text, a, c);
  }

  lemma WidthGrows(advance: char -> nat, s: string, t: string)
    ensures Width(advance, s + t) >= Width(advance, s)
  {
    WidthAppend(advance, s, t);
  }

  /** A row cut before `word` was due: the row, a space and the word are wider than maxWidth. */
  predicate CutDue(advance: char -> nat, maxWidth: int, row: string, word: string) {
    Width(advance, row + " " + word) > maxWidth
  }

  /**
   * The greedy choice: every row but the last was cut only because adding a
   * space and the first word of the next row would take it past maxWidth.
   */
  ghost predicate Greedy(advance: char -> nat, maxWidth: int, rows: seq<TextRow>) {
    forall k :: 0 <= k < |rows| - 1 ==> CutDue(advance, maxWidth, rows[k].text, FirstWord(rows[k + 1].text))
  }

  lemma GreedyPush(advance: char -> nat, maxWidth: int, rows: seq<TextRow>, row: TextRow)
    requires Greedy(advance, maxWidth, rows)
    requires rows != [] ==> CutDue(advance, maxWidth, rows[|rows| - 1].text, FirstWord(row.text))
    ensures Greedy(advance, maxWidth, rows + [row])
  {
    var rs := rows + [row];
    forall k | 0 <= k < |rs| - 1
      ensures CutDue(advance, maxWidth, rs[k].text, FirstWord(rs[k + 1].text))
    {
      if k < |rows| - 1 {
        assert rs[k] == rows[k] && rs[k + 1] == rows[k + 1];
      } else {
        assert rs[k] == rows[|rows| - 1] && rs[k + 1] == row;
      }
    }
  }

  /** Cutting text[a..b] at the space text[b] before c keeps the rows greedy when the cut was pending against text[a..c]. */
  lemma GreedyCutAt(advance: char -> nat, text: string, maxWidth: int, rows: seq<TextRow>, a: int, b: int, c: int, row: TextRow)
    requires 0 <= a <= b < c <= |text| && text[b] == ' ' && row.text == text[a..b]
    requires Greedy(advance, maxWidth, rows) && Pending(advance, text, maxWidth, rows, a, c)
    ensures Greedy(advance, maxWidth, rows + [row])
  {
    assert text[a..c] == text[a..b] + text[b..c];
    FirstWordBeforeSpace(text[a..b], text[b..c]);
    GreedyPush(advance, maxWidth, rows, row);
  }

  /** The last row cut so far, a space and the first word of text[start..i] are wider than maxWidth. */
  ghost predicate Pending(advance: char -> nat, text: string, maxWidth: int, rows: seq<TextRow>, start: int, i: int)
    requires 0 <= start <= i <= |text|
  {
    rows != [] ==> CutDue(advance, maxWidth, rows[|rows| - 1].text, FirstWord(text[start..i]))
  }

  /** The row text[start..end] as makeRow builds it from the widths up to its ends. */
  function MakeRow(text: string, start: int, xStart: int, end: int, xEnd: int): TextRow
    requires 0 <= start <= end <= |text|
  {
    TextRow(text[start..end], xEnd - xStart)
  }

  /** Appending the row text[start..end] when `rows` covered text[..start]. */
  lemma PushRow(advance: char -> nat, text: string, rows: seq<TextRow>, start: int, end: int, row: TextRow)
    requires 0 <= start <= end <= |text| && Spaced(rows) == text[..start] && Measured(advance, rows)
    requires row == MakeRow(text, start, Width(advance, text[..start]), end, Width(advance, text[..end]))
    ensures Measured(advance, rows + [row])
    ensures Spaced(rows + [row]) == text[..end] + " "
    ensures Joined(rows + [row]) == text[..end]
  {
    WidthSplit(advance, text, start, end);
    var rs := rows + [row];
    assert rs[..|rs| - 1] == rows;
    assert text[..end] == text[..start] + text[start..end];
    SpacedIsJoined(rs);
    if rows != [] {
      SpacedIsJoined(rows);
      assert Joined(rs) == Joined(rows) + " " + row.text;
    }
  }

  /** A position in the text: an index and the width of the text before it. */
  datatype Position = Position(at: nat, x: int)

  /** `p` is the index p.at of `text`, with the width of text[..p.at]. */
  ghost predicate At(advance: char -> nat, text: string, p: Position) {
    p.at <= |text| && p.x == Width(advance, text[..p.at])
  }

  /** The position just past the space at `p`, where a row cut at `p` is followed by the next. */
  lemma PastSpace(advance: char -> nat, text: string, p: Position)
    requires At(advance, text, p) && p.at < |text| && text[p.at] == ' '
    ensures At(advance, text, Position(p.at + 1, p.x + advance(' ')))
    ensures text[..p.at + 1] == text[..p.at] + " "
  {
    WidthNext(advance, text, p.at);
    SpaceAt(text, p.at);
  }

  /**
   * What breakTextLines knows after reading text[..i]: the rows so far, each
   * followed by its space, cover the text before the current row's start;
   * the last break, if any, is a space of the current row, and the last
   * space read; the current row up to that break fits or holds no space,
   * and without a break the current row holds no space; every row cut so
   * far fits or holds no space; every row cut so far was cut greedily, and
   * so was the last one, against the first word of the current row; and
   * nothing was cut yet if the whole text fits.
   */
  ghost predicate Scanned(advance: char -> nat, text: string, maxWidth: int, i: int,
                          rows: seq<TextRow>, rowStart: Position, lastBreak: Option<Position>) {
    0 <= rowStart.at <= i <= |text| && At(advance, text, rowStart) &&
    (lastBreak.Some? ==>
      rowStart.at <= lastBreak.value.at < i && text[lastBreak.value.at] == ' ' && At(advance, text, lastBreak.value)) &&
    Spaced(rows) == text[..rowStart.at] && Measured(advance, rows) &&
    (Width(advance, text) <= maxWidth ==> rows == [] && rowStart.at == 0) &&
    Wrapped(maxWidth, rows) &&
    (lastBreak.None? ==> SpaceFree(text, rowStart.at, i)) &&
    (lastBreak.Some? ==>
       SpaceFree(text, lastBreak.value.at + 1, i) &&
       (lastBreak.value.x - rowStart.x <= maxWidth || SpaceFree(text, rowStart.at, lastBreak.value.at))) &&
    Greedy(advance, maxWidth, rows) && Pending(advance, text, maxWidth, rows, rowStart.at, i)
  }

  /** Reading a character that is not a space changes nothing but the position. */
  lemma ScannedPast(advance: char -> nat, text: string, maxWidth: int, i: int,
                    rows: seq<TextRow>, rowStart: Position, lastBreak: Option<Position>)
    requires Scanned(advance, text, maxWidth, i, rows, rowStart, lastBreak) && i < |text| && text[i] != ' '
    ensures Scanned(advance, text, maxWidth, i + 1, rows, rowStart, lastBreak)
  {
    var t := text[rowStart.at..i];
    assert text[rowStart.at..i + 1] == t + [text[i]];
    FirstWordExtend(t, text[i]);
    if rows != [] {
      var lead := rows[|rows| - 1].text + " ";
      WidthGrows(advance, lead + FirstWord(t), [text[i]]);
      assert lead + (FirstWord(t) + [text[i]]) == (lead + FirstWord(t)) + [text[i]];
    }
  }

  /** Cutting the current row at the last break, when the row grew too wide at the space text[i]. */
  lemma CutAtBreak(advance: char -> nat, text: string, maxWidth: int, i: int, lineWidth: int,
                   rows: seq<TextRow>, rowStart: Position, b: Position)
    requires Scanned(advance, text, maxWidth, i, rows, rowStart, Some(b))
    requires i < |text| && text[i] == ' ' && lineWidth == Width(advance, text[..i])
    requires lineWidth - rowStart.x > maxWidth
    ensures Scanned(advance, text, maxWidth, i + 1, rows + [MakeRow(text, rowStart.at, rowStart.x, b.at, b.x)],
      Position(b.at + 1, b.x + advance(' ')), Some(Position(i, lineWidth)))
  {
    NoCutWhenFits(advance, text, maxWidth, i, rowStart);
    var row := MakeRow(text, rowStart.at, rowStart.x, b.at, b.x);
    var start' := Position(b.at + 1, b.x + advance(' '));
    assert At(advance, text, start') && Spaced(rows + [row]) == text[..start'.at] && Measured(advance, rows + [row]) by {
      PushRow(advance, text, rows, rowStart.at, b.at, row);
      PastSpace(advance, text, b);
    }
    assert Wrapped(maxWidth, rows + [row]) by {
      if !SpaceFree(text, rowStart.at, b.at) {
        assert row.width <= maxWidth;
      } else {
        SpaceFreeSlice(text, rowStart.at, b.at);
      }
      WrappedPush(maxWidth, rows, row);
    }
    CutGreedily(advance, text, maxWidth, i, rows, rowStart, b);
  }

  /** The greedy part of CutAtBreak: the row cut at `b` was due, and the next row's first word ends at text[i]. */
  lemma CutGreedily(advance: char -> nat, text: string, maxWidth: int, i: int,
                    rows: seq<TextRow>, rowStart: Position, b: Position)
    requires 0 <= rowStart.at <= b.at < i < |text| && text[b.at] == ' ' && text[i] == ' '
    requires rowStart.x == Width(advance, text[..rowStart.at]) && Width(advance, text[..i]) - rowStart.x > maxWidth
    requires SpaceFree(text, b.at + 1, i)
    requires Greedy(advance, maxWidth, rows) && Pending(advance, text, maxWidth, rows, rowStart.at, i)
    ensures Greedy(advance, maxWidth, rows + [MakeRow(text, rowStart.at, rowStart.x, b.at, b.x)])
    ensures Pending(advance, text, maxWidth, rows + [MakeRow(text, rowStart.at, rowStart.x, b.at, b.x)], b.at + 1, i + 1)
  {
    var row := MakeRow(text, rowStart.at, rowStart.x, b.at, b.x);
    GreedyCutAt(advance, text, maxWidth, rows, rowStart.at, b.at, i, row);
    var next := text[b.at + 1..i];
    assert FirstWord(text[b.at + 1..i + 1]) == next by {
      assert text[b.at + 1..i + 1] == next + " ";
      FirstWordBeforeSpace(next, " ");
      SpaceFreeSlice(text, b.at + 1, i);
      FirstWordWhole(next);
    }
    SpanTooWide(advance, text, maxWidth, rowStart.at, b.at, i);
    assert (rows + [row])[|rows + [row]| - 1] == row;
  }

  /** Cutting the current row at the space text[i], when it grew too wide there with no break before. */
  lemma CutHere(advance: char -> nat, text: string, maxWidth: int, i: int, lineWidth: int,
                rows: seq<TextRow>, rowStart: Position)
    requires Scanned(advance, text, maxWidth, i, rows, rowStart, None)
    requires i < |text| && text[i] == ' ' && lineWidth == Width(advance, text[..i])
    requires lineWidth - rowStart.x > maxWidth
    ensures Scanned(advance, text, maxWidth, i + 1, rows + [MakeRow(text, rowStart.at, rowStart.x, i, lineWidth)],
      Position(i + 1, lineWidth + advance(' ')), None)
  {
    NoCutWhenFits(advance, text, maxWidth, i, rowStart);
    var row := MakeRow(text, rowStart.at, rowStart.x, i, lineWidth);
    PushRow(advance, text, rows, rowStart.at, i, row);
    PastSpace(advance, text, Position(i, lineWidth));
    SpaceFreeSlice(text, rowStart.at, i);
    WrappedPush(maxWidth, rows, row);
    CutHereGreedily(advance, text, maxWidth, i, rows, rowStart);
  }

  /** The greedy part of CutHere: the row was due, and alone it is already too wide for any next word. */
  lemma CutHereGreedily(advance: char -> nat, text: string, maxWidth: int, i: int,
                        rows: seq<TextRow>, rowStart: Position)
    requires 0 <= rowStart.at <= i < |text|
    requires rowStart.x == Width(advance, text[..rowStart.at]) && Width(advance, text[..i]) - rowStart.x > maxWidth
    requires Greedy(advance, maxWidth, rows) && Pending(advance, text, maxWidth, rows, rowStart.at, i)
    ensures Greedy(advance, maxWidth, rows + [MakeRow(text, rowStart.at, rowStart.x, i, Width(advance, text[..i]))])
    ensures Pending(advance, text, maxWidth, rows + [MakeRow(text, rowStart.at, rowStart.x, i, Width(advance, text[..i]))], i + 1, i + 1)
  {
    var row := MakeRow(text, rowStart.at, rowStart.x, i, Width(advance, text[..i]));
    GreedyPush(advance, maxWidth, rows, row);
    WidthSplit(advance, text, rowStart.at, i);
    WidthGrows(advance, row.text, " ");
    assert text[i + 1..i + 1] == [] && row.text + " " + [] == row.text + " ";
  }

  /** When the whole text fits, no row starting at the beginning is ever too wide. */
  lemma NoCutWhenFits(advance: char -> nat, text: string, maxWidth: int, i: int, rowStart: Position)
    requires At(advance, text, rowStart) && 0 <= i <= |text|
    ensures rowStart.at == 0 && Width(advance, text) <= maxWidth ==> Width(advance, text[..i]) - rowStart.x <= maxWidth
  {
    WidthSplit(advance, text, i, |text|);
    assert text[..|text|] == text;
    assert text[..0] == [];
  }

  /** The space text[i] becomes the last break when the current row still fits there. */
  lemma BreakAt(advance: char -> nat, text: string, maxWidth: int, i: int, lineWidth: int,
                rows: seq<TextRow>, rowStart: Position, lastBreak: Option<Position>)
    requires Scanned(advance, text, maxWidth, i, rows, rowStart, lastBreak)
    requires i < |text| && text[i] == ' ' && lineWidth == Width(advance, text[..i])
    requires lineWidth - rowStart.x <= maxWidth
    ensures Scanned(advance, text, maxWidth, i + 1, rows, rowStart, Some(Position(i, lineWidth)))
  {
    assert text[rowStart.at..i + 1] == text[rowStart.at..i] + " ";
    FirstWordBeforeSpace(text[rowStart.at..i], " ");
  }

  /** The end of the text: the rest becomes one row. */
  lemma Finish(advance: char -> nat, text: string, maxWidth: int, lineWidth: int, rows: seq<TextRow>, rowStart: Position,
               lastBreak: Option<Position>)
    requires Scanned(advance, text, maxWidth, |text|, rows, rowStart, lastBreak)
    requires rowStart.at != |text| && lineWidth == Width(advance, text)
    requires lineWidth - rowStart.x <= maxWidth || lastBreak.None?
    ensures WrapsText(advance, text, maxWidth, FinalRows(advance, text, maxWidth, lineWidth, rows, rowStart, lastBreak))
  {
    assert text[..|text|] == text;
    var row := MakeRow(text, rowStart.at, rowStart.x, |text|, lineWidth);
    var rows' := rows + [row];
    assert FinalRows(advance, text, maxWidth, lineWidth, rows, rowStart, lastBreak) == rows';
    PushRow(advance, text, rows, rowStart.at, |text|, row);
    if lastBreak.None? {
      SpaceFreeSlice(text, rowStart.at, |text|);
    }
    WrappedPush(maxWidth, rows, row);
    GreedyPush(advance, maxWidth, rows, row);
    if Width(advance, text) <= maxWidth {
      assert text[..0] == [] && text[0..|text|] == text;
    }
    WrappedRows(maxWidth, rows');
  }


  /** The end of the text, too wide since the last break: cut there, and the rest becomes the last row. */
  lemma FinishAtBreak(advance: char -> nat, text: string, maxWidth: int, lineWidth: int, rows: seq<TextRow>,
                      rowStart: Position, lastBreak: Option<Position>, b: Position)
    requires lastBreak == Some(b)
    requires 0 <= rowStart.at <= b.at < |text| && text[b.at] == ' ' && lineWidth == Width(advance, text)
    requires At(advance, text, rowStart) && At(advance, text, b)
    requires Spaced(rows) == text[..rowStart.at] && Measured(advance, rows) && Wrapped(maxWidth, rows)
    requires Width(advance, text) <= maxWidth ==> rowStart.at == 0
    requires b.x - rowStart.x <= maxWidth || SpaceFree(text, rowStart.at, b.at)
    requires SpaceFree(text, b.at + 1, |text|)
    requires Greedy(advance, maxWidth, rows) && Pending(advance, text, maxWidth, rows, rowStart.at, |text|)
    requires lineWidth - rowStart.x > maxWidth
    ensures WrapsText(advance, text, maxWidth, FinalRows(advance, text, maxWidth, lineWidth, rows, rowStart, lastBreak))
  {
    var row := MakeRow(text, rowStart.at, rowStart.x, b.at, b.x);
    var last := MakeRow(text, b.at + 1, b.x + advance(' '), |text|, Width(advance, text));
    var all := rows + [row] + [last];
    assert FinalRows(advance, text, maxWidth, lineWidth, rows, rowStart, lastBreak) == all;
    assert Width(advance, text) > maxWidth by {
      NoCutWhenFits(advance, text, maxWidth, |text|, rowStart);
      assert text[..|text|] == text;
    }
    FinishPushes(advance, text, rows, rowStart, b);
    FinishWrapped(advance, text, maxWidth, rows, rowStart, b);
    FinishGreedily(advance, text, maxWidth, rows, rowStart, b);
    WrappedRows(maxWidth, all);
  }

  /** The end of the text right after a cut: nothing is left to place. */
  lemma FinishNothing(advance: char -> nat, text: string, maxWidth: int, rows: seq<TextRow>, rowStart: Position,
                      lastBreak: Option<Position>)
    requires Scanned(advance, text, maxWidth, |text|, rows, rowStart, lastBreak)
    requires rowStart.at == |text| && CutLast(maxWidth, |text|, rows, rowStart)
    ensures WrapsText(advance, text, maxWidth, rows)
  {
    assert text[..|text|] == text;
    if rows != [] {
      SpacedIsJoined(rows);
    }
    WrappedRows(maxWidth, rows);
  }

  /** Wrapped, spelled out. */
  lemma WrappedRows(maxWidth: int, rows: seq<TextRow>)
    requires Wrapped(maxWidth, rows)
    ensures forall k :: 0 <= k < |rows| ==> rows[k].width <= maxWidth || ' ' !in rows[k].text
  {
    forall k | 0 <= k < |rows| ensures rows[k].width <= maxWidth || ' ' !in rows[k].text {
      assert FitsOrUnbroken(maxWidth, rows[k]);
    }
  }


  /** The two rows FinishAtBreak appends cover the rest of the text and are measured. */
  lemma FinishPushes(advance: char -> nat, text: string, rows: seq<TextRow>, rowStart: Position, b: Position)
    requires 0 <= rowStart.at <= b.at < |text| && text[b.at] == ' '
    requires At(advance, text, rowStart) && At(advance, text, b)
    requires Spaced(rows) == text[..rowStart.at] && Measured(advance, rows)
    ensures Joined(rows + [MakeRow(text, rowStart.at, rowStart.x, b.at, b.x)] +
      [MakeRow(text, b.at + 1, b.x + advance(' '), |text|, Width(advance, text))]) == text
    ensures Measured(advance, rows + [MakeRow(text, rowStart.at, rowStart.x, b.at, b.x)] +
      [MakeRow(text, b.at + 1, b.x + advance(' '), |text|, Width(advance, text))])
  {
    var row := MakeRow(text, rowStart.at, rowStart.x, b.at, b.x);
    var last := MakeRow(text, b.at + 1, b.x + advance(' '), |text|, Width(advance, text));
    PushRow(advance, text, rows, rowStart.at, b.at, row);
    PastSpace(advance, text, b);
    assert text[..|text|] == text;
    PushRow(advance, text, rows + [row], b.at + 1, |text|, last);
  }

  /** The two rows FinishAtBreak appends fit or hold no space. */
  lemma FinishWrapped(advance: char -> nat, text: string, maxWidth: int, rows: seq<TextRow>, rowStart: Position, b: Position)
    requires 0 <= rowStart.at <= b.at < |text| && Wrapped(maxWidth, rows)
    requires b.x - rowStart.x <= maxWidth || SpaceFree(text, rowStart.at, b.at)
    requires SpaceFree(text, b.at + 1, |text|)
    ensures Wrapped(maxWidth, rows + [MakeRow(text, rowStart.at, rowStart.x, b.at, b.x)] +
      [MakeRow(text, b.at + 1, b.x + advance(' '), |text|, Width(advance, text))])
  {
    var row := MakeRow(text, rowStart.at, rowStart.x, b.at, b.x);
    var last := MakeRow(text, b.at + 1, b.x + advance(' '), |text|, Width(advance, text));
    if SpaceFree(text, rowStart.at, b.at) {
      SpaceFreeSlice(text, rowStart.at, b.at);
    }
    WrappedPush(maxWidth, rows, row);
    SpaceFreeSlice(text, b.at + 1, |text|);
    WrappedPush(maxWidth, rows + [row], last);
  }

  /** The greedy part of FinishAtBreak: both the cut at `b` and the last row meet the rule. */
  lemma FinishGreedily(advance: char -> nat, text: string, maxWidth: int, rows: seq<TextRow>, rowStart: Position, b: Position)
    requires 0 <= rowStart.at <= b.at < |text| && text[b.at] == ' '
    requires rowStart.x == Width(advance, text[..rowStart.at]) && Width(advance, text) - rowStart.x > maxWidth
    requires SpaceFree(text, b.at + 1, |text|)
    requires Greedy(advance, maxWidth, rows) && Pending(advance, text, maxWidth, rows, rowStart.at, |text|)
    ensures Greedy(advance, maxWidth, rows + [MakeRow(text, rowStart.at, rowStart.x, b.at, b.x)] +
      [MakeRow(text, b.at + 1, b.x + advance(' '), |text|, Width(advance, text))])
  {
    var row := MakeRow(text, rowStart.at, rowStart.x, b.at, b.x);
    var last := MakeRow(text, b.at + 1, b.x + advance(' '), |text|, Width(advance, text));
    GreedyCutAt(advance, text, maxWidth, rows, rowStart.at, b.at, |text|, row);
    assert FirstWord(last.text) == last.text by {
      SpaceFreeSlice(text, b.at + 1, |text|);
      FirstWordWhole(last.text);
    }
    assert text[..|text|] == text;
    SpanTooWide(advance, text, maxWidth, rowStart.at, b.at, |text|);
    assert (rows + [row])[|rows + [row]| - 1] == row;
    GreedyPush(advance, maxWidth, rows + [row], last);
  }

  /**
   * A reference for breakTextLines, one character at a time. WrapFrom(i, ...)
   * is what the wrap returns when, having read text[..i], it holds `rows`, the
   * row start and the last break, and lineWidth is the width of text[..i].
   * A space checks the width since the row start: within maxWidth it becomes the
   * last break; past it a row is cut at the last break, or at the space itself
   * when there is none. FinalRows is what happens at the end of the text.
   */
  function WrapFrom(advance: char -> nat, text: string, maxWidth: int, i: int, lineWidth: int,
                    rows: seq<TextRow>, rowStart: Position, lastBreak: Option<Position>): seq<TextRow>
    requires rowStart.at <= i <= |text|
    requires lastBreak.Some? ==> rowStart.at <= lastBreak.value.at < i
    decreases |text| - i
  {
    if i == |text| then FinalRows(advance, text, maxWidth, lineWidth, rows, rowStart, lastBreak)
    else if text[i] != ' ' then
      WrapFrom(advance, text, maxWidth, i + 1, lineWidth + advance(text[i]), rows, rowStart, lastBreak)
    else
      var next := AtSpace(advance, text, maxWidth, i, lineWidth, rows, rowStart, lastBreak);
      WrapFrom(advance, text, maxWidth, i + 1, lineWidth + advance(' '), next.0, next.1, next.2)
  }

  /** The reference's step at a space text[i]: the rows, the row start and the last break after it. */
  function AtSpace(advance: char -> nat, text: string, maxWidth: int, i: int, lineWidth: int,
                   rows: seq<TextRow>, rowStart: Position, lastBreak: Option<Position>)
    : (next: (seq<TextRow>, Position, Option<Position>))
    requires rowStart.at <= i < |text|
    requires lastBreak.Some? ==> rowStart.at <= lastBreak.value.at < i
    ensures next.1.at <= i + 1 && (next.2.Some? ==> next.1.at <= next.2.value.at < i + 1)
  {
    if lineWidth - rowStart.x <= maxWidth then (rows, rowStart, Some(Position(i, lineWidth)))
    else if lastBreak.Some? then
      (rows + [MakeRow(text, rowStart.at, rowStart.x, lastBreak.value.at, lastBreak.value.x)],
       Position(lastBreak.value.at + 1, lastBreak.value.x + advance(' ')), Some(Position(i, lineWidth)))
    else
      (rows + [MakeRow(text, rowStart.at, rowStart.x, i, lineWidth)], Position(i + 1, lineWidth + advance(' ')), None)
  }

  /** The end of the text: the rest after the row start becomes one row, or two split at the last break when it is too wide. */
  function FinalRows(advance: char -> nat, text: string, maxWidth: int, lineWidth: int,
                     rows: seq<TextRow>, rowStart: Position, lastBreak: Option<Position>): seq<TextRow>
    requires rowStart.at <= |text|
    requires lastBreak.Some? ==> rowStart.at <= lastBreak.value.at < |text|
  {
    if rowStart.at == |text| then rows
    else if lineWidth - rowStart.x > maxWidth && lastBreak.Some? then
      rows + [MakeRow(text, rowStart.at, rowStart.x, lastBreak.value.at, lastBreak.value.x)] +
        [MakeRow(text, lastBreak.value.at + 1, lastBreak.value.x + advance(' '), |text|, lineWidth)]
    else
      rows + [MakeRow(text, rowStart.at, rowStart.x, |text|, lineWidth)]
  }

  /** The rows breakTextLines returns, by the reference. */
  function Wrap(advance: char -> nat, text: string, maxWidth: int): seq<TextRow> {
    WrapFrom(advance, text, maxWidth, 0, 0, [], Position(0, 0), None)
  }

  /**
   * Reading the space text[i] keeps the scan's invariant: whether it becomes
   * the last break or a row is cut at the last break or at the space itself,
   * the rows stay a faithful, greedy cover of the text read so far.
   */
  lemma SpaceScanned(advance: char -> nat, text: string, maxWidth: int, i: int, lineWidth: int,
                     rows: seq<TextRow>, rowStart: Position, lastBreak: Option<Position>)
    requires Scanned(advance, text, maxWidth, i, rows, rowStart, lastBreak)
    requires i < |text| && text[i] == ' ' && lineWidth == Width(advance, text[..i])
    ensures var next := AtSpace(advance, text, maxWidth, i, lineWidth, rows, rowStart, lastBreak);
      Scanned(advance, text, maxWidth, i + 1, next.0, next.1, next.2)
  {
    if lineWidth - rowStart.x > maxWidth {
      if lastBreak.Some? {
        CutAtBreak(advance, text, maxWidth, i, lineWidth, rows, rowStart, lastBreak.value);
      } else {
        CutHere(advance, text, maxWidth, i, lineWidth, rows, rowStart);
      }
    } else {
      BreakAt(advance, text, maxWidth, i, lineWidth, rows, rowStart, lastBreak);
    }
  }

  /**
   * When the current row starts right where the scan stands, the last row was
   * cut at the space just read with no break before it: it is wider than
   * maxWidth and holds no space.
   */
  ghost predicate CutLast(maxWidth: int, i: int, rows: seq<TextRow>, rowStart: Position) {
    rowStart.at == i && rows != [] ==> rows[|rows| - 1].width > maxWidth && ' ' !in rows[|rows| - 1].text
  }

  /** Reading text[i] keeps CutLast: only a cut at a space with no break before it starts a row past that space. */
  lemma CutLastStep(advance: char -> nat, text: string, maxWidth: int, i: int, lineWidth: int,
                    rows: seq<TextRow>, rowStart: Position, lastBreak: Option<Position>)
    requires rowStart.at <= i < |text| && text[i] == ' '
    requires lastBreak.Some? ==> rowStart.at <= lastBreak.value.at < i
    requires lastBreak.None? ==> SpaceFree(text, rowStart.at, i)
    ensures var next := AtSpace(advance, text, maxWidth, i, lineWidth, rows, rowStart, lastBreak);
      CutLast(maxWidth, i + 1, next.0, next.1)
  {
    if lineWidth - rowStart.x > maxWidth && lastBreak.None? {
      SpaceFreeSlice(text, rowStart.at, i);
    }
  }

  /** What breakTextLines promises of its rows, as the reference's rows meet it. */
  ghost predicate WrapsText(advance: char -> nat, text: string, maxWidth: int, rows: seq<TextRow>) {
    (text == [] <==> rows == []) &&
    (rows != [] ==> text == Joined(rows) || text == Joined(rows) + " ") &&
    (rows != [] && text != Joined(rows) ==> rows[|rows| - 1].width > maxWidth && ' ' !in rows[|rows| - 1].text) &&
    Measured(advance, rows) &&
    (text != [] && Width(advance, text) <= maxWidth ==> rows == [TextRow(text, Width(advance, text))]) &&
    (forall k :: 0 <= k < |rows| ==> rows[k].width <= maxWidth || ' ' !in rows[k].text) &&
    (forall k :: 0 <= k < |rows| - 1 ==> CutDue(advance, maxWidth, rows[k].text, FirstWord(rows[k + 1].text)))
  }

  /** The end of the text, from the scan's invariant at its end: FinalRows wraps the text. */
  lemma FinalScanned(advance: char -> nat, text: string, maxWidth: int, lineWidth: int,
                     rows: seq<TextRow>, rowStart: Position, lastBreak: Option<Position>)
    requires Scanned(advance, text, maxWidth, |text|, rows, rowStart, lastBreak)
    requires CutLast(maxWidth, |text|, rows, rowStart)
    requires lineWidth == Width(advance, text)
    ensures WrapsText(advance, text, maxWidth, FinalRows(advance, text, maxWidth, lineWidth, rows, rowStart, lastBreak))
  {
    var rows' := FinalRows(advance, text, maxWidth, lineWidth, rows, rowStart, lastBreak);
    if rowStart.at != |text| {
      if lineWidth - rowStart.x > maxWidth && lastBreak.Some? {
        assert WrapsText(advance, text, maxWidth, rows') by {
          FinishAtBreak(advance, text, maxWidth, lineWidth, rows, rowStart, lastBreak, lastBreak.value);
        }
      } else {
        assert WrapsText(advance, text, maxWidth, rows') by {
          Finish(advance, text, maxWidth, lineWidth, rows, rowStart, lastBreak);
        }
      }
    } else {
      assert WrapsText(advance, text, maxWidth, rows') by {
        FinishNothing(advance, text, maxWidth, rows, rowStart, lastBreak);
      }
    }
  }

  /** From any point of the scan where its invariant holds, the reference goes on to wrap the text. */
  lemma {:induction false} WrapScanned(advance: char -> nat, text: string, maxWidth: int, i: int, lineWidth: int,
                                       rows: seq<TextRow>, rowStart: Position, lastBreak: Option<Position>)
    requires Scanned(advance, text, maxWidth, i, rows, rowStart, lastBreak)
    requires CutLast(maxWidth, i, rows, rowStart)
    requires lineWidth == Width(advance, text[..i])
    ensures WrapsText(advance, text, maxWidth, WrapFrom(advance, text, maxWidth, i, lineWidth, rows, rowStart, lastBreak))
    decreases |text| - i, 1
  {
    if i == |text| {
      assert text[..i] == text;
      FinalScanned(advance, text, maxWidth, lineWidth, rows, rowStart, lastBreak);
    } else {
      WidthNext(advance, text, i);
      if text[i] != ' ' {
        ScannedPast(advance, text, maxWidth, i, rows, rowStart, lastBreak);
        WrapNext(advance, text, maxWidth, i, lineWidth, rows, rowStart, lastBreak, rows, rowStart, lastBreak);
      } else {
        var next := AtSpace(advance, text, maxWidth, i, lineWidth, rows, rowStart, lastBreak);
        SpaceScanned(advance, text, maxWidth, i, lineWidth, rows, rowStart, lastBreak);
        CutLastStep(advance, text, maxWidth, i, lineWidth, rows, rowStart, lastBreak);
        WrapNext(advance, text, maxWidth, i, lineWidth, rows, rowStart, lastBreak, next.0, next.1, next.2);
      }
    }
  }

  /** WrapScanned's step: with the invariant after reading text[i], the reference goes on from before it. */
  lemma {:induction false} WrapNext(advance: char -> nat, text: string, maxWidth: int, i: int, lineWidth: int,
                                    rows: seq<TextRow>, rowStart: Position, lastBreak: Option<Position>,
                                    rows': seq<TextRow>, rowStart': Position, lastBreak': Option<Position>)
    requires rowStart.at <= i < |text|
    requires lastBreak.Some? ==> rowStart.at <= lastBreak.value.at < i
    requires (rows', rowStart', lastBreak') ==
      if text[i] == ' ' then AtSpace(advance, text, maxWidth, i, lineWidth, rows, rowStart, lastBreak) else (rows, rowStart, lastBreak)
    requires Scanned(advance, text, maxWidth, i + 1, rows', rowStart', lastBreak') && CutLast(maxWidth, i + 1, rows', rowStart')
    requires lineWidth + advance(text[i]) == Width(advance, text[..i + 1])
    ensures WrapsText(advance, text, maxWidth, WrapFrom(advance, text, maxWidth, i, lineWidth, rows, rowStart, lastBreak))
    decreases |text| - i, 0
  {
    WrapScanned(advance, text, maxWidth, i + 1, lineWidth + advance(text[i]), rows', rowStart', lastBreak');
    WrapsBack(advance, text, maxWidth, i, lineWidth, rows, rowStart, lastBreak, rows', rowStart', lastBreak');
  }

  /** The reference after reading text[i] ends where the reference from before it does, so it wraps the text just as well. */
  lemma WrapsBack(advance: char -> nat, text: string, maxWidth: int, i: int, lineWidth: int,
                  rows: seq<TextRow>, rowStart: Position, lastBreak: Option<Position>,
                  rows': seq<TextRow>, rowStart': Position, lastBreak': Option<Position>)
    requires rowStart.at <= i < |text|
    requires lastBreak.Some? ==> rowStart.at <= lastBreak.value.at < i
    requires (rows', rowStart', lastBreak') ==
      if text[i] == ' ' then AtSpace(advance, text, maxWidth, i, lineWidth, rows, rowStart, lastBreak) else (rows, rowStart, lastBreak)
    ensures rowStart'.at <= i + 1 && (lastBreak'.Some? ==> rowStart'.at <= lastBreak'.value.at < i + 1)
    ensures WrapsText(advance, text, maxWidth, WrapFrom(advance, text, maxWidth, i, lineWidth, rows, rowStart, lastBreak)) ==
      WrapsText(advance, text, maxWidth, WrapFrom(advance, text, maxWidth, i + 1, lineWidth + advance(text[i]), rows', rowStart', lastBreak'))
  {
  }

  /**
   * The reference wrap's promise: the rows are empty exactly for an empty text;
   * joined by single spaces they give the text back, except that a text ending in
   * a space it was cut at loses that space, and then the last row is one too wide
   * and without a space; every row's width is its characters' advances; a text
   * that fits is one row; every row fits within `maxWidth` or holds no space it
   * could be cut at; and no row could have taken the next row's first word as well.
   */
  lemma WrapWraps(advance: char -> nat, text: string, maxWidth: int)
    ensures WrapsText(advance, text, maxWidth, Wrap(advance, text, maxWidth))
  {
    assert text[..0] == [];
    WrapScanned(advance, text, maxWidth, 0, 0, [], Position(0, 0), None);
  }

  /** One pass of breakTextLines' loop: read text[i], cut a row at a space where due, and add the advance to the line width. */
  method ReadChar(advance: char -> nat, text: string, maxWidth: int, i: int, lineWidth: int,
                  rows: seq<TextRow>, rowStart: Position, lastBreak: Option<Position>)
    returns (lineWidth': int, rows': seq<TextRow>, rowStart': Position, lastBreak': Option<Position>)
    requires rowStart.at <= i < |text|
    requires lastBreak.Some? ==> rowStart.at <= lastBreak.value.at < i
    ensures rowStart'.at <= i + 1 && (lastBreak'.Some? ==> rowStart'.at <= lastBreak'.value.at < i + 1)
    ensures WrapFrom(advance, text, maxWidth, i + 1, lineWidth', rows', rowStart', lastBreak') ==
      WrapFrom(advance, text, maxWidth, i, lineWidth, rows, rowStart, lastBreak)
    ensures lineWidth' == lineWidth + advance(text[i])
    ensures text[i] != ' ' ==> rows' == rows && rowStart' == rowStart && lastBreak' == lastBreak
  {
    var ch := text[i];
    rows', rowStart', lastBreak' := rows, rowStart, lastBreak;
    if ch == ' ' {
      var spaceWidth := advance(' ');
      if lineWidth - rowStart.x > maxWidth {
        if lastBreak.Some? {
          rows' := rows + [MakeRow(text, rowStart.at, rowStart.x, lastBreak.value.at, lastBreak.value.x)];
          rowStart' := Position(lastBreak.value.at + 1, lastBreak.value.x + spaceWidth);
          lastBreak' := Some(Position(i, lineWidth));
        } else {
          rows' := rows + [MakeRow(text, rowStart.at, rowStart.x, i, lineWidth)];
          rowStart' := Position(i + 1, lineWidth + spaceWidth);
        }
      } else {
        lastBreak' := Some(Position(i, lineWidth));
      }
    }
    lineWidth' := lineWidth + advance(ch);
  }

  /** The end of breakTextLines: the rest of the text after the current row's start becomes the last rows. */
  method FinishRows(advance: char -> nat, text: string, maxWidth: int, lineWidth: int,
                    rows: seq<TextRow>, rowStart: Position, lastBreak: Option<Position>)
    returns (rows': seq<TextRow>)
    requires rowStart.at <= |text|
    requires lastBreak.Some? ==> rowStart.at <= lastBreak.value.at < |text|
    ensures rows' == FinalRows(advance, text, maxWidth, lineWidth, rows, rowStart, lastBreak)
    ensures |rows'| >= |rows| && rows'[..|rows|] == rows
  {
    rows' := rows;
    if rowStart.at != |text| {
      if lineWidth - rowStart.x > maxWidth && lastBreak.Some? {
        var b := lastBreak.value;
        rows' := rows' + [MakeRow(text, rowStart.at, rowStart.x, b.at, b.x)];
        rows' := rows' + [MakeRow(text, b.at + 1, b.x + advance(' '), |text|, lineWidth)];
      } else {
        rows' := rows' + [MakeRow(text, rowStart.at, rowStart.x, |text|, lineWidth)];
      }
    }
  }

  /**
   * breakTextLines. A row is cut at the last space before the point where
   * the text since the row's start grows wider than `maxWidth`; with no such
   * space it is cut at the space where that happens. The space a row is cut
   * at belongs to neither row. So every row fits within `maxWidth`, unless
   * it holds no space at which it could have been cut, and no row could
   * have taken the next row's first word as well.
   */
  method BreakTextLines(text: string, maxWidth: int, advance: char -> nat) returns (rows: seq<TextRow>)
    ensures rows == Wrap(advance, text, maxWidth)
    ensures text == [] <==> rows == []
    ensures rows != [] ==> text == Joined(rows) || text == Joined(rows) + " "
    ensures rows != [] && text != Joined(rows) ==> rows[|rows| - 1].width > maxWidth && ' ' !in rows[|rows| - 1].text
    ensures Measured(advance, rows)
    ensures text != [] && Width(advance, text) <= maxWidth ==> rows == [TextRow(text, Width(advance, text))]
    ensures forall k :: 0 <= k < |rows| ==> rows[k].width <= maxWidth || ' ' !in rows[k].text
    ensures forall k :: 0 <= k < |rows| - 1 ==> CutDue(advance, maxWidth, rows[k].text, FirstWord(rows[k + 1].text))
  {
    rows := [];
    var rowStart := Position(0, 0);
    var lastBreak: Option<Position> := None;
    var lineWidth := 0;
    var i := 0;
    while i < |text|
      invariant rowStart.at <= i <= |text|
      invariant lastBreak.Some? ==> rowStart.at <= lastBreak.value.at < i
      invariant WrapFrom(advance, text, maxWidth, i, lineWidth, rows, rowStart, lastBreak) == Wrap(advance, text, maxWidth)
    {
      lineWidth, rows, rowStart, lastBreak := ReadChar(advance, text, maxWidth, i, lineWidth, rows, rowStart, lastBreak);
      i := i + 1;
    }
    rows := FinishRows(advance, text, maxWidth, lineWidth, rows, rowStart, lastBreak);
    WrapWraps(advance, text, maxWidth);
  }

  /** Every character one unit wide. */
  function Unit(c: char): nat { 1 }

  /** A space the text ends in stays in the last row when that row is not cut there. */
  lemma WrapKeepsFinalSpace()
    ensures Wrap(Unit, "ab cd ", 4) == [TextRow("ab", 2), TextRow("cd ", 3)]
  {
    var t := "ab cd ";
    var ab := [TextRow("ab", 2)];
    assert t[0..2] == "ab" && t[3..6] == "cd ";
    assert WrapFrom(Unit, t, 4, 6, 6, ab, Position(3, 3), Some(Position(5, 5))) == [TextRow("ab", 2), TextRow("cd ", 3)];
    assert WrapFrom(Unit, t, 4, 3, 3, [], Position(0, 0), Some(Position(2, 2))) ==
      WrapFrom(Unit, t, 4, 6, 6, ab, Position(3, 3), Some(Position(5, 5)));
  }

  /** A space the text ends in, past maxWidth with no break before, ends the last row and is dropped. */
  lemma WrapDropsFinalSpace()
    ensures Wrap(Unit, "abcd ", 3) == [TextRow("abcd", 4)]
  {
    var t := "abcd ";
    assert t[0..4] == "abcd";
    assert WrapFrom(Unit, t, 3, 4, 4, [], Position(0, 0), None) == [TextRow("abcd", 4)];
  }

  /** A cut at the last break, then a cut at the final space: the row after it is empty. */
  lemma WrapEndsInEmptyRow()
    ensures Wrap(Unit, "ab cdefg ", 3) == [TextRow("ab", 2), TextRow("cdefg", 5), TextRow("", 0)]
  {
    var t := "ab cdefg ";
    var ab := [TextRow("ab", 2)];
    assert t[0..2] == "ab" && t[3..8] == "cdefg" && t[9..9] == "";
    assert WrapFrom(Unit, t, 3, 9, 9, ab, Position(3, 3), Some(Position(8, 8))) ==
      [TextRow("ab", 2), TextRow("cdefg", 5), TextRow("", 0)];
    assert WrapFrom(Unit, t, 3, 3, 3, [], Position(0, 0), Some(Position(2, 2))) ==
      WrapFrom(Unit, t, 3, 9, 9, ab, Position(3, 3), Some(Position(8, 8)));
  }
}
