/** Text layout for the report cells: line splitting and wrapping, the row
    sizing policy with its page-bottom clamp, and top-aligned placement of
    lines inside a box. Pixel drawing itself is not modelled; a placement
    records which line is drawn where. */
module Layout {
  import opened Strings
  import opened Display

  /** `textwrap.wrap(seg, width)` with `break_long_words=True`, as a greedy
      hard wrap: each line takes as many characters as fit, and the lines put
      end to end give the segment. An empty segment yields no lines. */
  function Wrap(seg: string, width: nat): (r: seq<string>)
    requires width > 0
    ensures forall i :: 0 <= i < |r| ==> 0 < |r[i]| <= width
    ensures Join("", r) == seg
    ensures r == [] <==> seg == []
    decreases |seg|
  {
    if seg == [] then []
    else if |seg| <= width then [seg]
    else
      var rest := Wrap(seg[width..], width);
      assert ([seg[..width]] + rest)[1..] == rest;
      assert seg[..width] + "" + seg[width..] == seg;
      [seg[..width]] + rest
  }

  /** The lines of one `\n`-separated segment: its wrapped lines, or one empty
      line when wrapping yields none. */
  function SegmentLines(seg: string, width: nat): seq<string>
    requires width > 0
  {
    var w := Wrap(seg, width);
    if w == [] then [""] else w
  }

  /** The lines of a list of segments, in order. */
  function LinesOf(segs: seq<string>, width: nat): seq<string>
    requires width > 0
  {
    if segs == [] then []
    else LinesOf(segs[..|segs| - 1], width) + SegmentLines(segs[|segs| - 1], width)
  }

  /** All lines a text is laid out in at a given wrap width. */
  function TextLines(text: string, width: nat): seq<string>
    requires width > 0
  {
    LinesOf(Split(text, '\n'), width)
  }

  /** The line-building loop shared by the sizing pass and the drawing routine. */
  method WrapText(text: string, width: nat) returns (lines: seq<string>)
    requires width > 0
    ensures lines == TextLines(text, width)
  {
    lines := [];
    var segs := Split(text, '\n');
    for i := 0 to |segs|
      invariant lines == LinesOf(segs[..i], width)
    {
      var wrapped := Wrap(segs[i], width);
      lines := lines + (if wrapped == [] then [""] else wrapped);
      assert segs[..i + 1][..i] == segs[..i];
    }
    assert segs[..|segs|] == segs;
  }

  /** Every segment contributes at least one line. */
  lemma {:induction false} LinesOfAtLeastSegments(segs: seq<string>, width: nat)
    requires width > 0
    ensures |LinesOf(segs, width)| >= |segs|
  {
    if segs != [] {
      LinesOfAtLeastSegments(segs[..|segs| - 1], width);
    }
  }

  /** A text has at least as many lines as it has `\n`-separated segments,
      that is, one more than it has line breaks. */
  lemma TextLinesAtLeastSegments(text: string, width: nat)
    requires width > 0
    ensures |TextLines(text, width)| >= |Split(text, '\n')| == Count(text, '\n') + 1
  {
    LinesOfAtLeastSegments(Split(text, '\n'), width);
    SplitLength(text, '\n');
  }

  /** No line is longer than the wrap width or contains a line break. */
  lemma {:induction false} LinesOfBounded(segs: seq<string>, width: nat)
    requires width > 0
    requires forall i :: 0 <= i < |segs| ==> '\n' !in segs[i]
    ensures forall i :: 0 <= i < |LinesOf(segs, width)| ==>
      |LinesOf(segs, width)[i]| <= width && '\n' !in LinesOf(segs, width)[i]
  {
    if segs != [] {
      var init := segs[..|segs| - 1];
      var last := segs[|segs| - 1];
      LinesOfBounded(init, width);
      var a := LinesOf(init, width);
      var b := SegmentLines(last, width);
      var w := Wrap(last, width);
      forall j | 0 <= j < |w| ensures '\n' !in w[j] {
        WrapPiecesOfSegment(last, width, j);
      }
      forall i | 0 <= i < |a + b| ensures |(a + b)[i]| <= width && '\n' !in (a + b)[i] {
        if i >= |a| {
          assert (a + b)[i] == b[i - |a|];
        }
      }
    }
  }

  /** A wrapped piece contains only characters of its segment. */
  lemma {:induction false} WrapPiecesOfSegment(seg: string, width: nat, j: nat)
    requires width > 0 && j < |Wrap(seg, width)|
    requires '\n' !in seg
    ensures '\n' !in Wrap(seg, width)[j]
  {
    if |seg| > width {
      var head, rest := seg[..width], seg[width..];
      assert seg == head + rest;
      assert Wrap(seg, width) == [head] + Wrap(rest, width);
      if j > 0 {
        WrapPiecesOfSegment(rest, width, j - 1);
      }
    }
  }

  lemma TextLinesBounded(text: string, width: nat)
    requires width > 0
    ensures forall i :: 0 <= i < |TextLines(text, width)| ==>
      |TextLines(text, width)[i]| <= width && '\n' !in TextLines(text, width)[i]
  {
    LinesOfBounded(Split(text, '\n'), width);
  }

  /** Laying out a line that the layout produced gives that line back
      unchanged: wrapping is idempotent. */
  lemma WrapIdempotent(text: string, width: nat, i: nat)
    requires width > 0 && i < |TextLines(text, width)|
    ensures TextLines(TextLines(text, width)[i], width) == [TextLines(text, width)[i]]
  {
    TextLinesBounded(text, width);
    var l := TextLines(text, width)[i];
    SplitNoSeparator(l, '\n');
    assert Split(l, '\n') == [l];
    assert LinesOf([l], width) == LinesOf([], width) + SegmentLines(l, width);
  }

  // Page geometry of a report image.
  const PageWidth := 1200
  const PageHeight := 1700
  const Margin := 50
  const HeaderBand := 80
  const HeaderGap := 10
  const LabelWidth := 300
  const TextInset := 15

  /** The lowest y a row may reach: the bottom margin. */
  const Bottom := PageHeight - Margin

  /** Where the first row starts: under the title band and its gap. */
  const FirstRowTop := Margin + HeaderBand + HeaderGap

  /** The content cell's box starts right of the label column. */
  const BodyX := Margin + LabelWidth
  const BodyWidth := PageWidth - 2 * Margin - LabelWidth

  // The sizing pass's constants.
  const SizingWrapWidth := 65
  const SizingLineHeight := 30
  const RowPadding := 40
  const MinRowHeight := 100

  /** The height a row needs for `lineCount` lines: room for every line plus
      padding, and never less than the minimum row height. */
  function NeededHeight(lineCount: nat): (h: int)
    ensures h >= MinRowHeight && h >= SizingLineHeight * lineCount + RowPadding
    ensures h == MinRowHeight || h == SizingLineHeight * lineCount + RowPadding
  {
    var h := SizingLineHeight * lineCount + RowPadding;
    if MinRowHeight > h then MinRowHeight else h
  }

  /** The height a row gets when it starts at `y`: what it needs if that fits
      above the bottom margin, otherwise exactly the space that is left. */
  function ClampedHeight(y: int, needed: int): (h: int)
    ensures h <= needed
    ensures y + needed <= Bottom ==> h == needed
    ensures y + needed > Bottom ==> y + h == Bottom
  {
    if y + needed > Bottom then Bottom - y else needed
  }

  /** A line drawn at `(x, y)`. */
  datatype Placement = Placement(line: string, x: int, y: int)

  /** The placements of top-aligned, left-aligned `lines` in the box with top
      left corner `(x, y)` and height `h`: line `i` goes at
      `(x + 15, y + 15 + i * lh)`, lines are drawn while the next one ends
      above the box's bottom, so the drawn ones are a prefix, and the first
      line left out is the first that would not fit. */
  predicate TopAligned(placed: seq<Placement>, lines: seq<string>, x: int, y: int, h: int, lh: int) {
    && |placed| <= |lines|
    && (forall i :: 0 <= i < |placed| ==>
          placed[i] == Placement(lines[i], x + TextInset, y + TextInset + i * lh))
    && (forall i :: 0 <= i < |placed| ==> placed[i].y + lh < y + h)
    && (|placed| < |lines| ==> y + TextInset + |placed| * lh + lh >= y + h)
  }

  /** The drawing loop of the box routine for top alignment: the cursor
      advances only when a line is drawn. */
  method PlaceTop(lines: seq<string>, x: int, y: int, h: int, lh: int) returns (placed: seq<Placement>)
    ensures TopAligned(placed, lines, x, y, h, lh)
  {
    placed := [];
    var yText := y + TextInset;
    for i := 0 to |lines|
      invariant |placed| <= i
      invariant yText == y + TextInset + |placed| * lh
      invariant forall j :: 0 <= j < |placed| ==>
        placed[j] == Placement(lines[j], x + TextInset, y + TextInset + j * lh)
      invariant forall j :: 0 <= j < |placed| ==> placed[j].y + lh < y + h
      invariant |placed| < i ==> yText + lh >= y + h
    {
      if yText + lh < y + h {
        placed := placed + [Placement(lines[i], x + TextInset, yText)];
        yText := yText + lh;
      }
    }
  }

  /** Draws `text` top- and left-aligned in the box at `(x, y)` of height `h`:
      wraps it, then places the lines that fit. */
  method DrawTextInBox(text: string, x: int, y: int, h: int, wrapWidth: nat, lh: int)
    returns (placed: seq<Placement>)
    requires wrapWidth > 0
    ensures TopAligned(placed, TextLines(text, wrapWidth), x, y, h, lh)
  {
    var lines := WrapText(text, wrapWidth);
    placed := PlaceTop(lines, x, y, h, lh);
  }

  /** The predicate fixes the placements completely: there is one way to
      place a list of lines in a box. */
  lemma TopAlignedUnique(p: seq<Placement>, q: seq<Placement>, lines: seq<string>, x: int, y: int, h: int, lh: int)
    requires TopAligned(p, lines, x, y, h, lh) && TopAligned(q, lines, x, y, h, lh)
    ensures p == q
  {
    DrawnCountFrom(p, lines, x, y, h, lh, 0);
    DrawnCountFrom(q, lines, x, y, h, lh, 0);
  }

  /** The number of lines drawn, counted from line `k` on: lines are drawn
      until the first one whose bottom would reach the box's bottom. */
  function DrawnCount(lines: seq<string>, y: int, h: int, lh: int, k: nat): nat
    requires k <= |lines|
    decreases |lines| - k
  {
    if k == |lines| || y + TextInset + k * lh + lh >= y + h then k
    else DrawnCount(lines, y, h, lh, k + 1)
  }

  lemma {:induction false} DrawnCountFrom(p: seq<Placement>, lines: seq<string>, x: int, y: int, h: int, lh: int, k: nat)
    requires TopAligned(p, lines, x, y, h, lh) && k <= |p|
    ensures DrawnCount(lines, y, h, lh, k) == |p|
    decreases |p| - k
  {
    if k < |p| {
      assert p[k].y + lh < y + h;
      DrawnCountFrom(p, lines, x, y, h, lh, k + 1);
    }
  }

  /** How many lines of height `lh` fit in a box of height `h`. */
  function LinesThatFit(h: int, lh: int): nat
    requires lh > 0
  {
    if h - TextInset - 1 < 0 then 0 else (h - TextInset - 1) / lh
  }

  /** With a positive line height, the number of lines drawn is the smaller
      of the lines available and the lines that fit. */
  lemma TopAlignedCount(placed: seq<Placement>, lines: seq<string>, x: int, y: int, h: int, lh: int)
    requires lh > 0
    requires TopAligned(placed, lines, x, y, h, lh)
    ensures |placed| == if |lines| < LinesThatFit(h, lh) then |lines| else LinesThatFit(h, lh)
  {
    var n := |placed|;
    var f := LinesThatFit(h, lh);
    // Line k fits exactly when (k + 1) * lh <= h - TextInset - 1.
    if n > 0 {
      assert placed[n - 1].y + lh < y + h;
      assert n * lh <= h - TextInset - 1;
      DivBound(n, lh, h - TextInset - 1);
    }
    if n < |lines| {
      assert (n + 1) * lh > h - TextInset - 1;
      if h - TextInset - 1 >= 0 {
        DivBelow(n + 1, lh, h - TextInset - 1);
      }
    }
  }

  lemma DivBound(n: nat, d: int, m: int)
    requires d > 0 && n * d <= m
    ensures n <= m / d
  {
    var q := m / d;
    if n > q {
      assert m == q * d + m % d;
      assert (q + 1) * d <= n * d by {
        MulMono(q + 1, n, d);
      }
    }
  }

  lemma DivBelow(n: nat, d: int, m: int)
    requires d > 0 && m >= 0 && n * d > m
    ensures m / d < n
  {
    var q := m / d;
    assert q * d <= m;
    if q >= n {
      MulMono(n, q, d);
    }
  }

  lemma MulMono(a: int, b: int, d: int)
    requires a <= b && d > 0
    ensures a * d <= b * d
  {
    assert b * d - a * d == (b - a) * d;
  }

  /** One laid-out row: its texts, its top and height, the lines the sizing
      pass counted, the lines of its content cell and the placements of those
      that were drawn. */
  datatype Cell = Cell(row: Row, top: int, height: int, sizing: seq<string>, lines: seq<string>, body: seq<Placement>)

  /** Where row `i` starts: under the title band for the first row, where the
      previous row ends for the others. */
  function TopOf(cells: seq<Cell>, i: nat): int
    requires i <= |cells|
  {
    if i == 0 then FirstRowTop else cells[i - 1].top + cells[i - 1].height
  }

  /** The geometry of one row starting at `top`: its height is the height
      its counted lines need, clamped at the bottom margin, and its lines are
      placed top-aligned in its content box. */
  predicate CellPlaced(c: Cell, top: int, lh: int) {
    && c.top == top
    && c.height == ClampedHeight(top, NeededHeight(|c.sizing|))
    && TopAligned(c.body, c.lines, BodyX, top, c.height, lh)
  }

  /** The geometry of a page: its rows stacked from the first row's top. */
  predicate Stacked(cells: seq<Cell>, lh: int) {
    forall i :: 0 <= i < |cells| ==> CellPlaced(cells[i], TopOf(cells, i), lh)
  }

  /** A cell holds its row and that row's lines: at the sizing width for
      the height, at the drawing width for the content box. */
  predicate Matches(c: Cell, r: Row, bodyWrap: nat)
    requires bodyWrap > 0
  {
    && c.row == r
    && c.sizing == TextLines(r.content, SizingWrapWidth)
    && c.lines == TextLines(r.content, bodyWrap)
  }

  /** The cells so far match the first rows, one each, in order. */
  predicate MatchesPrefix(cells: seq<Cell>, rows: seq<Row>, bodyWrap: nat)
    requires bodyWrap > 0
  {
    |cells| <= |rows| && forall i :: 0 <= i < |cells| ==> Matches(cells[i], rows[i], bodyWrap)
  }

  /** Each cell holds its row and that row's lines. */
  predicate FromRows(cells: seq<Cell>, rows: seq<Row>, bodyWrap: nat)
    requires bodyWrap > 0
  {
    |cells| == |rows| && MatchesPrefix(cells, rows, bodyWrap)
  }

  /** A page laid out from its rows. */
  predicate PageLaidOut(cells: seq<Cell>, rows: seq<Row>, bodyWrap: nat, lh: int)
    requires bodyWrap > 0
  {
    FromRows(cells, rows, bodyWrap) && Stacked(cells, lh)
  }

  /** One pass of the row loop: count the row's lines at the sizing width,
      size and clamp the row at the cursor, then draw its content. */
  method LayoutRow(row: Row, yPos: int, bodyWrap: nat, lh: int) returns (cell: Cell)
    requires bodyWrap > 0
    ensures CellPlaced(cell, yPos, lh)
    ensures Matches(cell, row, bodyWrap)
  {
    var sizing := WrapText(row.content, SizingWrapWidth);
    var rowHeight := NeededHeight(|sizing|);
    if yPos + rowHeight > Bottom {
      rowHeight := Bottom - yPos;
    }
    var lines := WrapText(row.content, bodyWrap);
    var body := PlaceTop(lines, BodyX, yPos, rowHeight, lh);
    cell := Cell(row, yPos, rowHeight, sizing, lines, body);
  }

  /** The row loop of a page: lay out each row at the cursor and move the
      cursor down by the row's height. */
  method LayoutPage(rows: seq<Row>, bodyWrap: nat, lh: int) returns (cells: seq<Cell>)
    requires bodyWrap > 0
    ensures PageLaidOut(cells, rows, bodyWrap, lh)
  {
    var yPos := Margin;
    yPos := yPos + HeaderBand + HeaderGap;
    cells := [];
    for i := 0 to |rows|
      invariant |cells| == i && MatchesPrefix(cells, rows, bodyWrap)
      invariant Stacked(cells, lh)
      invariant yPos == TopOf(cells, |cells|)
    {
      cells, yPos := NextRow(cells, rows, yPos, bodyWrap, lh);
    }
  }

  /** One turn of the row loop: the next row is laid out at the cursor and
      appended, and the cursor moves to its bottom edge. */
  method NextRow(cells: seq<Cell>, rows: seq<Row>, yPos: int, bodyWrap: nat, lh: int)
    returns (cells': seq<Cell>, yPos': int)
    requires bodyWrap > 0 && |cells| < |rows|
    requires MatchesPrefix(cells, rows, bodyWrap) && Stacked(cells, lh)
    requires yPos == TopOf(cells, |cells|)
    ensures |cells'| == |cells| + 1 && MatchesPrefix(cells', rows, bodyWrap)
    ensures Stacked(cells', lh)
    ensures yPos' == TopOf(cells', |cells'|)
  {
    var cell := LayoutRow(rows[|cells|], yPos, bodyWrap, lh);
    StackedExtend(cells, cell, lh);
    MatchesExtend(cells, rows, cell, bodyWrap);
    cells' := cells + [cell];
    yPos' := yPos + cell.height;
  }

  lemma MatchesExtend(cells: seq<Cell>, rows: seq<Row>, c: Cell, bodyWrap: nat)
    requires bodyWrap > 0 && |cells| < |rows| && MatchesPrefix(cells, rows, bodyWrap)
    requires Matches(c, rows[|cells|], bodyWrap)
    ensures MatchesPrefix(cells + [c], rows, bodyWrap)
  {
    var cs := cells + [c];
    forall i | 0 <= i < |cs| ensures Matches(cs[i], rows[i], bodyWrap) {
      if i < |cells| {
        assert cs[i] == cells[i];
      } else {
        assert cs[i] == c && i == |cells|;
      }
    }
  }

  /** A page stays stacked when the next row is placed where the last one ends. */
  lemma StackedExtend(cells: seq<Cell>, c: Cell, lh: int)
    requires Stacked(cells, lh) && CellPlaced(c, TopOf(cells, |cells|), lh)
    ensures Stacked(cells + [c], lh)
  {
    var cs := cells + [c];
    forall i | 0 <= i < |cs| ensures CellPlaced(cs[i], TopOf(cs, i), lh) {
      if i < |cells| {
        assert cs[i] == cells[i];
        assert TopOf(cs, i) == TopOf(cells, i);
      }
    }
  }

  /** Sum of the heights of some cells. */
  function Heights(cells: seq<Cell>): int {
    if cells == [] then 0 else Heights(cells[..|cells| - 1]) + cells[|cells| - 1].height
  }

  /** On a stacked page every row starts below the title band at the sum of
      the heights above it, has a non-negative height, and ends at or above
      the bottom margin. */
  lemma RowInBounds(cells: seq<Cell>, lh: int, i: nat)
    requires Stacked(cells, lh) && i < |cells|
    ensures cells[i].top == FirstRowTop + Heights(cells[..i])
    ensures FirstRowTop <= cells[i].top && 0 <= cells[i].height
    ensures cells[i].top + cells[i].height <= Bottom
  {
    StackedSized(cells, lh);
    TopWithinPage(cells, i);
    TopWithinPage(cells, i + 1);
  }

  /** The heights of a page: each row starts where the previous one ends and
      gets the clamped height its counted lines need. */
  predicate Sized(cells: seq<Cell>) {
    forall i :: 0 <= i < |cells| ==>
      cells[i].top == TopOf(cells, i) && cells[i].height == ClampedHeight(TopOf(cells, i), NeededHeight(|cells[i].sizing|))
  }

  lemma StackedSized(cells: seq<Cell>, lh: int)
    requires Stacked(cells, lh)
    ensures Sized(cells)
  {
    forall i | 0 <= i < |cells|
      ensures cells[i].top == TopOf(cells, i) && cells[i].height == ClampedHeight(TopOf(cells, i), NeededHeight(|cells[i].sizing|))
    {
      assert CellPlaced(cells[i], TopOf(cells, i), lh);
    }
  }

  /** The sizing of row `i` alone: it starts at the cursor, and ends at or
      above the bottom margin when the cursor does, with a non-negative height. */
  lemma SizedAt(cells: seq<Cell>, i: nat)
    requires Sized(cells) && i < |cells|
    ensures cells[i].top == TopOf(cells, i)
    ensures TopOf(cells, i) <= Bottom ==> 0 <= cells[i].height && TopOf(cells, i + 1) <= Bottom
  {
    assert cells[i].height == ClampedHeight(TopOf(cells, i), NeededHeight(|cells[i].sizing|));
  }

  /** The cursor before row `i` is the first row's top plus the heights of the
      rows above, and lies between that top and the bottom margin. */
  lemma {:induction false} TopWithinPage(cells: seq<Cell>, i: nat)
    requires Sized(cells) && i <= |cells|
    ensures FirstRowTop <= TopOf(cells, i) <= Bottom
    ensures TopOf(cells, i) == FirstRowTop + Heights(cells[..i])
  {
    if i > 0 {
      TopWithinPage(cells, i - 1);
      HeightsStep(cells, i - 1);
      SizedAt(cells, i - 1);
    } else {
      assert cells[..0] == [];
    }
  }

  /** The heights of the first `i + 1` cells are those of the first `i` plus cell `i`'s. */
  lemma HeightsStep(cells: seq<Cell>, i: nat)
    requires i < |cells|
    ensures Heights(cells[..i + 1]) == Heights(cells[..i]) + cells[i].height
  {
    assert cells[..i + 1][..i] == cells[..i];
  }

  /** The whole page fits: title band plus all row heights stay within the
      canvas, and every drawn line lies inside its row and ends above the
      bottom margin. */
  lemma PageFits(cells: seq<Cell>, lh: int)
    requires lh > 0 && Stacked(cells, lh)
    ensures FirstRowTop + Heights(cells) <= Bottom
    ensures forall i, k :: 0 <= i < |cells| && 0 <= k < |cells[i].body| ==>
      cells[i].top <= cells[i].body[k].y && cells[i].body[k].y + lh < Bottom
  {
    CursorInBounds(cells, lh);
    forall i, k | 0 <= i < |cells| && 0 <= k < |cells[i].body|
      ensures cells[i].top <= cells[i].body[k].y && cells[i].body[k].y + lh < Bottom
    {
      LineInBounds(cells, lh, i, k);
    }
  }

  /** The cursor after the last row is still at or above the bottom margin. */
  lemma CursorInBounds(cells: seq<Cell>, lh: int)
    requires Stacked(cells, lh)
    ensures FirstRowTop + Heights(cells) <= Bottom
  {
    if cells != [] {
      var n := |cells| - 1;
      RowInBounds(cells, lh, n);
      assert Heights(cells) == Heights(cells[..n]) + cells[n].height;
    }
  }

  lemma LineInBounds(cells: seq<Cell>, lh: int, i: nat, k: nat)
    requires lh > 0 && Stacked(cells, lh) && i < |cells| && k < |cells[i].body|
    ensures cells[i].top <= cells[i].body[k].y && cells[i].body[k].y + lh < Bottom
  {
    RowInBounds(cells, lh, i);
    var c := cells[i];
    assert CellPlaced(c, TopOf(cells, i), lh);
    assert c.body[k].y + lh < c.top + c.height;
    PlacementBelowTop(c.body, c.lines, BodyX, c.top, c.height, lh, k);
  }

  /** Lines are placed downwards from the box's top when the line height is positive. */
  lemma PlacementBelowTop(placed: seq<Placement>, lines: seq<string>, x: int, y: int, h: int, lh: int, k: nat)
    requires lh > 0 && k < |placed|
    requires TopAligned(placed, lines, x, y, h, lh)
    ensures y <= placed[k].y
  {
    MulNonNegative(k, lh);
  }

  lemma MulNonNegative(a: nat, b: int)
    requires b > 0
    ensures a * b >= 0
  {
  }
}
