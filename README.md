# GSPBL lesson-design navigator: report layout and wizard state

The GSPBL navigator is a Streamlit app (`app.py`). It walks a teacher through
designing a project-based-learning unit in five screens: a start screen,
three design steps and a review screen. It then renders the design as a
two-page summary image. This project models the deterministic core of
that app in Dafny:

- **Summariser fallback.** `summarize_text_for_image` leaves short text and
  non-text values as they are. It shortens long text to its first 400
  characters plus `"..."` when there is no API key or the service fails, and
  otherwise returns the stripped reply of the service (module `Summary`).
- **Display data.** The loop that copies the session state into
  `display_data`:
  - it summarises five long text fields;
  - it cuts the standards list to four items plus a `"...외 N개 항목"` marker;
  - it copies every other key.

  The same module builds the two pages' rows, joining lists with newlines
  or `"• "` bullets (module `Display`).
- **Layout.**
  - Splitting content into lines: split on `\n`, wrap every segment, and
    let an empty segment give one empty line.
  - Sizing rows to `max(100, 30·lines + 40)`, clamped at the bottom margin.
  - The vertical cursor that stacks the rows under the header band.
  - Top-aligned text placement in a box, which draws only the lines that
    still fit (module `Layout`).
- **The image builder.** Renders the two pages, or none when the font file
  is missing (module `Report`).
- **Standards merge.** Step 2's standards selection: the options of the
  subject on screen, the multiselect preset, and the merge
  `sorted(set(others + chosen))` (module `Standards`).
- **Navigation.**
  - The session state and its default initialisation.
  - The navigation buttons (next, previous, back to start, new design).
  - The start button.
  - The review screen's edit buttons, which route each field to the step
    that edits it (module `Wizard`).

Python's string operations used here are modelled in module `Strings`:
`split` on one character, `join`, `strip`, prefix slicing including
negative bounds, and `str` of an integer. The session's values
(`str`, `list[str]`, numbers, booleans) are modelled in `Record`.

External parts are parameters:

- The font's glyph height gives the line height, `glyphBottom + 6`.
- The body text's wrap width is taken as a positive integer.
- Whether the font file exists is a boolean.
- Whether an API key is configured is a boolean.
- The generative-AI service is an oracle `replies: string -> Reply` that,
  for each summarised field, either fails or answers with some text.

## Model

| member | source | states |
|---|---|---|
| Summary.Summarize | app.py:67-84 | Non-text values and texts of at most `max_chars` characters come back unchanged. Text stays text. Without an API key, or when the service fails, a long text becomes exactly its first `max_chars` characters followed by `"..."` (length `max_chars + 3`). A successful reply is returned stripped. |
| Summary.FallbackIgnoresTail | app.py:73-74 | Two long texts that agree on their first 400 characters shorten to the same 403-character result: the fallback never looks past character 400. |
| Summary.SummarizeBound | app.py:69-84 | The result is never longer than `max_chars + 3` characters, provided a successful reply, once stripped, fits in `max_chars`. |
| Summary.ReplyTrimmed | app.py:81 | A successful result is the slice of the reply that starts where the reply's leading whitespace ends. Only whitespace lies before and after that slice, and the result neither starts nor ends with whitespace. |
| Strings.StripIsTrimmedSlice | app.py:81 | `strip()` returns a contiguous slice of its input with non-space ends, and only whitespace lies outside that slice. |
| Strings.SlicePrefix | app.py:74 | `s[:k]` has length `min(k, len(s))` and is a prefix of `s`, also for negative `k` (counted from the end). |
| Strings.SplitLength | app.py:155 | `split('\n')` gives one more piece than there are newlines. |
| Strings.JoinSplit | app.py:114 | Joining the pieces of `split(c)` with `c` gives back the original string. |
| Strings.SplitJoin | app.py:114 | Splitting a newline join of newline-free items gives back the items. |
| Strings.NatToString | app.py:103 | `str(n)` is a non-empty string of decimal digits without a leading zero. |
| Strings.ParseNatToString | app.py:103 | Reading back the decimal digits of `str(n)` gives `n`. |
| Record.TextIteratesByCharacter | app.py:114-116 | A string (rather than a list) in a list row is iterated character by character: the cell, read line by line, has one line per character of the string, in order. |
| Display.ClipStandards | app.py:100-105 | A list of at most 4 standards is kept as it is. A longer one becomes exactly its first 4 items followed by one marker that carries the number of hidden items, `len - 4` (length 5). |
| Display.MarkerRoundTrip | app.py:103 | The count written into the `"...외 N개 항목"` marker can be read back from it. |
| Display.PrepareDisplayData | app.py:92-108 | The loop over the session's keys yields the display map. It has the same keys. The five listed text fields go through the summariser. The standards list of more than four is clipped. Every other key is copied unchanged. |
| Display.DisplayValue | app.py:98-108 | A key that is neither summarised nor the standards list keeps its value. A standards list of at most four is kept, a longer one becomes its first four items and the marker counting the rest. A short text of a summarised field is kept. No value an iteration could read is turned into one it cannot. |
| Display.PagesFollowReviewTable | app.py:111-125 | The two pages hold the review screen's ten fields (app.py:513-524) under the same titles and in the same order: five on page 1, five on page 2. |
| Display.RowReads | app.py:111-125 | Row `i` of a page carries its table title. Its cell is `""` for a missing field or an empty list, and `str(value)` in a text row. In a list row whose items hold no newline, the cell read line by line gives exactly the items, each behind `"• "` in a bullet row. |
| Display.ListCellLines | app.py:114-116 | A non-empty list cell whose items hold no newline, split at its newlines, gives back the items in order: plain in the standards row, each as `"• " + item` in a bullet row. |
| Display.Content | app.py:112-124 | A missing field reads as `""` (`.get(key, '')` or an empty list), so does an empty list, and a text row shows `str(value)`. |
| Display.DisplayKeepsRowsReadable | app.py:97-108 | Preparing the display data never turns a list that a row joins into a value that cannot be iterated. |
| Display.StandardsCellShowsFourAndMarker | app.py:100-114 | With more than four standards (none containing a newline), the standards cell splits into exactly the first four standards and the marker counting the rest. |
| Display.InquiryCellUsesFallback | app.py:92-120 | Without an API key, a long sustained-inquiry text shows on page 2 as its first 400 characters plus `"..."`. |
| Layout.Wrap | app.py:184 | Every wrapped piece is non-empty and at most `width` characters long, and an empty segment wraps to nothing. For the hard-wrap stand-in, the pieces put together also give the segment back, and a non-empty segment gives at least one piece. |
| Layout.WrapText | app.py:181-185 | The line-building loop equals `TextLines`: each `\n` segment wrapped, with an empty wrap replaced by one `''`. |
| Layout.TextLinesAtLeastSegments | app.py:183-185 | There are at least as many lines as `\n` segments, that is, newlines plus one. |
| Layout.LinesOfAtLeastSegments | app.py:157 | Every segment contributes at least one line. |
| Layout.TextLinesBounded | app.py:181-185 | Both when a row is sized and when its content is drawn (app.py:155-157), no line is longer than the wrap width, and no line contains a newline. |
| Layout.WrapIdempotent | app.py:183-185 | Breaking an already produced line again gives that line alone. |
| Layout.NeededHeight | app.py:186 | The unclamped row height is `max(100, 30·lines + 40)`. |
| Layout.ClampedHeight | app.py:188-189 | The clamp never raises the height. A row that fits keeps its height. A row that would pass `height - margin` ends exactly at it. |
| Layout.PlaceTop | app.py:162-174 | The placement loop gives the top-aligned placement. The drawn lines are a prefix of the wrapped lines. Line `i` is drawn at `(x + 15, y + 15 + i·line_height)`. Every drawn line satisfies `y_text + line_height < y + h`. The first line left out would not have fit. |
| Layout.DrawTextInBox | app.py:152-174 | A body cell draws a top-aligned prefix of the cell text's wrapped lines. |
| Layout.TopAlignedUnique | app.py:166-174 | The guard fixes the drawn lines completely: two top-aligned placements of the same lines in the same box are equal. |
| Layout.TopAlignedCount | app.py:166-174 | The number of lines drawn is the smaller of the number of lines and the number of lines that fit in the box. Content is silently cut, never an error. |
| Layout.LayoutRow | app.py:182-195 | A row is sized from its content wrapped at 65 characters, clamped at the bottom margin, and its body lines are placed top-aligned. |
| Layout.LayoutPage | app.py:176-195 | The row loop stacks the rows from `y_pos = margin + 80 + 10`. Each row starts where the previous one ended, and its lines and height come from its own content. |
| Layout.NextRow | app.py:181-195 | One turn of the row loop appends a row laid out at the cursor. The rows so far still match their contents and stay stacked. The cursor moves to the new row's bottom edge. |
| Layout.RowInBounds | app.py:176-195 | Row `i` starts at `140 + ` the heights of the rows before it. Its height is never negative, and it ends at or above `height - margin`. |
| Layout.PageFits | app.py:176-195 | The cursor never passes `height - margin`. Every drawn body line lies inside its row and above the bottom margin. |
| Report.LineHeight | app.py:159 | The line height `getbbox("A")[3] + 6` is positive, so each drawn line moves the text cursor down. |
| Report.RenderPage | app.py:149-199 | One page: the rows laid out as described, every drawn body line above the bottom margin. |
| Report.CreateLessonPlanImages | app.py:87-200 | Without the font file there are no images. Otherwise there are two pages: page 1 from the first five rows, page 2 from the other five. Both are built from the prepared display data, and every drawn line lies above the bottom margin. |
| Report.InquiryRowSizedFromSummary | app.py:92-189 | Without an API key, page 2's first row is sized from the shortened text, not from the full one. |
| Standards.Insert | app.py:359 | Inserting into a strictly sorted list keeps it strictly sorted and adds exactly the new element. |
| Standards.SortedUnique | app.py:359 | `sorted(set(xs))` is strictly ascending and holds exactly the elements of `xs`. |
| Standards.StrictlySortedUnique | app.py:359 | Two strictly sorted lists with the same elements are equal, so the stored selection depends only on which standards are chosen. |
| Standards.StrictlySortedDistinct | app.py:359 | The stored selection holds no standard twice. |
| Standards.LessTotal | app.py:359 | Python's string order compares any two different strings. |
| Standards.LessTransitive | app.py:359 | Python's string order is transitive. |
| Standards.Filter | app.py:342-357 | The comprehension keeps exactly the previous standards that are (or are not) among the current subject's options. |
| Standards.SubjectOptions | app.py:332-337 | The options are exactly `"<code> <wording>"` of the records of the chosen subject that have both a code and a wording. |
| Standards.Merge | app.py:342-359 | The new selection is sorted and duplicate-free. It holds every current-subject choice and every previously selected standard outside the current subject's options, and nothing else. |
| Standards.MergeUntouched | app.py:343-359 | Leaving the multiselect at its preset keeps the set of selected standards, now sorted. |
| Standards.MergeIdempotent | app.py:342-359 | Showing step 2 again with the same choices leaves the selection as it is. |
| Standards.AfterStep2 | app.py:339-361 | When the subject offers options, the selection is replaced by the merge. Otherwise it is left as it was. |
| Wizard.EditStep | app.py:537-544 | Every key is routed to step 1, 2 or 3. |
| Wizard.After | app.py:605-644 | From a page in 0..4, one press keeps the page in 0..4. The page changes exactly when the button is on screen. A reset on screen leads to page 0. |
| Wizard.ScreenButtons | app.py:607-641 | The start screen shows only the start button. Every other screen shows "back to start", and exactly one of "next step" (steps 1 to 3) and "new design" (the review screen). |
| Wizard.ReviewKeys | app.py:513-524 | The review screen lists ten distinct keys: those of report page 1, then those of page 2, in order. |
| Wizard.BackToStartOnlyByReset | app.py:612-644 | From steps 1 to 4, the page becomes 0 exactly when a reset button on screen ("back to start", or "new design" on the review screen) is pressed. |
| Wizard.NextAndPrevGuards | app.py:627-637 | "Next" adds one exactly when `0 < page < 4`. "Previous" subtracts one exactly when `page > 1`. Otherwise the page is left as it is. |
| Wizard.NextPrevInverse | app.py:627-637 | "Previous" undoes "next", and "next" undoes "previous", wherever both apply. |
| Wizard.EditRoutesToItsStep | app.py:513-544 | Each of the review screen's ten edit buttons opens a step whose screen writes that field: `project_title`/`public_product` go to 1, the three selection lists to 2, the rest to 3. |
| Wizard.WalkInRange | app.py:595-644 | Any sequence of presses keeps the page within 0..4. |
| Wizard.WalkStaysStarted | app.py:595-644 | Once past the start screen, no sequence of presses without a reset returns to page 0. |
| Wizard.Defaults | app.py:211-221 | The default map has exactly the fourteen initialised keys, and the standards start as an empty list. |
| Wizard.FillMissing | app.py:222-224 | The initialisation loop adds the default of every listed key that is missing, and keeps every stored value. |
| Wizard.Session.constructor | app.py:206-209 | A new session holds no keys. |
| Wizard.Session.Initialize | app.py:206-224 | A missing page becomes 0, and each missing key gets its default. Keys already present keep their values. |
| Wizard.Session.Press | app.py:605-644 | The start button (app.py:234-236) and the edit buttons (app.py:537-544) run inside the page rendered at app.py:605. A reset on screen deletes every key. Another button on screen sets the page as `After` says. A button not on screen changes nothing. |
| Wizard.Session.Run | app.py:595-644 | A run with a press, followed by the rerun, shows `After` of the old page. After a reset only the defaults remain. |
| Wizard.Session.ChooseStandards | app.py:342-359 | Step 2 stores the merged selection under `selected_standards` and changes no other key. |

## Left out

- Streamlit widgets, page rendering of steps 1 to 3, warnings, spinners, download buttons and the HTML footer are user-interface only. The values that the text areas and multiselects of steps 1 to 3 write are not modelled. The exception is the standards merge.
- The generative-AI calls (`call_gemini`, the service call inside `summarize_text_for_image`, the feedback and suggestion buttons) and all prompt texts are network services with unspecified output. The summariser is modelled as an oracle that fails or answers per field. The request is not modelled.
- Summary.Summarize: the oracle is keyed by the field name rather than by the text sent, so two fields with the same text may get different replies in the model.
- The PIL drawing is not modelled: pixels, colours, rectangles, `ImageFont.truetype` and `getbbox`, `textlength`, and JPEG encoding. A page is modelled as its laid-out rows and the positions of their body lines.
- Centre alignment (the header band and the row titles) and the body wrap width `int(w / (font.size * 0.55))` use floating point and font metrics. The width is a positive parameter, and the centred title and header texts are not laid out.
- Layout.Wrap: `textwrap.wrap` is modelled as a hard greedy chunking at the width. Word boundaries, hyphen breaks, whitespace dropping and whitespace replacement are not modelled. Two conjuncts of its contract hold only for this stand-in, not for `textwrap.wrap`. First, "the pieces put together give the segment" fails because textwrap drops the whitespace at each break: `"x"*60 + " " + "y"*10` at width 65 gives `["x"*60, "y"*10]`. Second, "a non-empty segment gives at least one piece" fails for a segment of only whitespace, which textwrap wraps to `[]`, so the source draws one empty line there. What holds for `textwrap.wrap` too is what the layout relies on: each piece is non-empty and at most `width` long, and an empty segment wraps to nothing. No claim is made about which characters end up on the lines.
- Layout.LayoutPage: the sizing pass (width 65) and the drawing pass (font-derived width) may give different line counts. The model keeps both and claims no agreement between them.
- Record.PyStr: `str()` of a list uses a simplified `repr` that quotes items with `'` and does not escape quotes or backslashes.
- Report.CreateLessonPlanImages: a list row over a value Python cannot iterate (a number) raises `TypeError` in the source. That case is excluded by a precondition rather than modelled as an error.
- Report.CreateLessonPlanImages: the font is checked only once. The source checks it on every page, but with the same outcome.
- Loading the standards JSON files, the grade-group radio and its change callback, and API-key configuration are file I/O and configuration.
- The review screen's own text (the `"- item"` lists and the "nothing entered" placeholder) is display text only.
- The feedback prompt assembly of step 4 is not modelled either.
