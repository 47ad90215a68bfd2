/** The report builder (`create_lesson_plan_images`): prepares the session
    record, builds the two pages' rows and lays each page out. The rendered
    page stands for the raster image; JPEG encoding is not modelled. */
module Report {
  import opened Record
  import opened Summary
  import opened Display
  import opened Layout

  /** One report page: its number and its laid-out rows. */
  datatype Page = Page(number: nat, cells: seq<Cell>)

  /** The line height of a font whose glyph "A" reaches `glyphBottom` pixels
      below the baseline origin: the glyph box plus 6 pixels of leading. */
  function LineHeight(glyphBottom: nat): (lh: int)
    ensures lh > 0
  {
    glyphBottom + 6
  }

  /** Every line drawn on the page ends above the bottom margin. */
  predicate DrawnAboveBottom(page: Page, lh: int) {
    forall i, k :: 0 <= i < |page.cells| && 0 <= k < |page.cells[i].body| ==>
      page.cells[i].body[k].y + lh < Bottom
  }

  /** Page `number` laid out from `rows`. */
  predicate PageBuilt(page: Page, number: nat, rows: seq<Row>, bodyWrap: nat, lh: int)
    requires bodyWrap > 0
  {
    page.number == number && PageLaidOut(page.cells, rows, bodyWrap, lh)
  }

  /** One pass of the page loop: a fresh canvas, the title band, the rows. */
  method RenderPage(number: nat, rows: seq<Row>, bodyWrap: nat, lh: int) returns (page: Page)
    requires bodyWrap > 0 && lh > 0
    ensures PageBuilt(page, number, rows, bodyWrap, lh)
    ensures DrawnAboveBottom(page, lh)
  {
    var cells := LayoutPage(rows, bodyWrap, lh);
    PageFits(cells, lh);
    page := Page(number, cells);
  }

  /** Builds both report pages. `fontAvailable` says whether the font file
      exists and opens; without it no page is produced. `replies` gives the
      summariser's answer per field, `glyphBottom` the body font's glyph box
      and `bodyWrap` the character width the body font's cells wrap at. */
  method CreateLessonPlanImages(session: FormRecord, apiKeySet: bool, replies: string -> Reply,
                                fontAvailable: bool, glyphBottom: nat, bodyWrap: nat)
    returns (pages: seq<Page>)
    requires bodyWrap > 0
    requires RowsReadable(session, Page1Table) && RowsReadable(session, Page2Table)
    ensures !fontAvailable ==> pages == []
    ensures fontAvailable ==> |pages| == 2
    ensures RowsReadable(DisplayData(session, apiKeySet, replies), Page1Table)
    ensures RowsReadable(DisplayData(session, apiKeySet, replies), Page2Table)
    ensures fontAvailable ==>
      PageBuilt(pages[0], 1, BuildRows(DisplayData(session, apiKeySet, replies), Page1Table), bodyWrap, LineHeight(glyphBottom))
    ensures fontAvailable ==>
      PageBuilt(pages[1], 2, BuildRows(DisplayData(session, apiKeySet, replies), Page2Table), bodyWrap, LineHeight(glyphBottom))
    ensures forall n :: 0 <= n < |pages| ==> DrawnAboveBottom(pages[n], LineHeight(glyphBottom))
  {
    var display := PrepareDisplayData(session, apiKeySet, replies);
    DisplayKeepsRowsReadable(session, apiKeySet, replies, Page1Table);
    DisplayKeepsRowsReadable(session, apiKeySet, replies, Page2Table);
    var pageRows := [BuildRows(display, Page1Table), BuildRows(display, Page2Table)];
    var lh := LineHeight(glyphBottom);
    pages := [];
    for n := 0 to 2
      invariant |pages| == n
      invariant n > 0 ==> fontAvailable
      invariant forall m :: 0 <= m < n ==> PageBuilt(pages[m], m + 1, pageRows[m], bodyWrap, lh)
      invariant forall m :: 0 <= m < n ==> DrawnAboveBottom(pages[m], lh)
    {
      if !fontAvailable {
        return [];
      }
      var page := RenderPage(n + 1, pageRows[n], bodyWrap, lh);
      pages := pages + [page];
    }
  }

  /** A page built from a long "sustained inquiry" answer, without an API key,
      sizes and draws its first row from the shortened text: the lines it
      counts are those of the first 400 characters and "...". */
  lemma InquiryRowSizedFromSummary(session: FormRecord, replies: string -> Reply, s: string,
                                   cells: seq<Cell>, bodyWrap: nat, lh: int)
    requires bodyWrap > 0
    requires RowsReadable(session, Page2Table)
    requires "sustained_inquiry" in session && session["sustained_inquiry"] == Text(s)
    requires |s| > DefaultMaxChars
    requires RowsReadable(DisplayData(session, false, replies), Page2Table)
    requires PageLaidOut(cells, BuildRows(DisplayData(session, false, replies), Page2Table), bodyWrap, lh)
    ensures cells[0].sizing == TextLines(s[..DefaultMaxChars] + Ellipsis, SizingWrapWidth)
    ensures cells[0].height == ClampedHeight(FirstRowTop, NeededHeight(|cells[0].sizing|))
  {
    InquiryCellUsesFallback(session, replies, s);
    assert CellPlaced(cells[0], TopOf(cells, 0), lh);
  }
}
