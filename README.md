# PDF report editor: overlay and merge

A Dafny model of how the report editor regenerates an edited report.
`streamlit_app.py` does it in three steps:

- **Field locator** (`find_text_positions`). It keeps every extracted word whose text equals an anchor label exactly. It is case-sensitive and keeps input order.
- **Overlay compositor** (`create_overlay`). For each field and each place its label was found, it draws a white mask over the old value and then the new value on top. If a profile image is supplied, it also draws the image at each `'Profile Image'` anchor. Everything is drawn on one canvas page.
- **Page merger** (`merge_pdfs`). It walks the original document's pages in order. Overlay page `i` is stacked on top of original page `i` when the overlay has such a page. Every other page is written unchanged.

`generate_pdf` ties the three together. It builds the fixed label→value table, builds the positions table (one entry per label, plus `'profile_image'` for the `'Profile Image'` anchor) and uses the US letter page size (612 × 792 points).

Modules:

- `Locator` (locator.dfy): the `Word` record, the exact-match search `Matches` and the loop `FindTextPositions`, which is proved equal to it.
- `Drawing` (canvas.dfy): the canvas commands, the graphics state they change, and what they paint (`Render`). It also holds the `Canvas` class, whose methods append to its `ops` field.
- `Overlay` (overlay.dfy): the overlay program as functions, the `CreateOverlay` method proved against them, and lemmas about layout, painting and independence.
- `Decimal` (decimal.dfy): Python's `str` on the integer counters, with its read-back.
- `Report` (report.dfy): the label table, the positions table and the letter page size.
- `Merge` (merge.dfy): the `PageObject` and `PdfWriter` classes, the `MergePdfs` loop and the `MergedPages` function that specifies it.
- `Pipeline` (pipeline.dfy): `GeneratePdf` and the end-to-end properties.

Coordinates and sizes are `real`. A page is its drawing program, so merging two pages means running the overlay's program after the original's.

Two consequences of the code are worth stating plainly:

- The code never calls `showPage`, so every match, on whatever page it was found, is drawn on overlay page 0 and lands on page 0 of the output, at the coordinates measured on its own page. `Pipeline.OverlayLandsOnFirstPage` and `Pipeline.LabelOnTwoPagesLandsOnFirst` state this.
- A document with no pages produces an empty document; no error is raised.
- The original document is only read. `merge_pdfs` builds fresh page objects from it and merges into those, so regenerating again starts from the untouched original.

## Model

| member | source | states |
|---|---|---|
| Locator.Matches | streamlit_app.py:78-84 | The result is never longer than the input, and every returned word carries exactly the searched text. |
| Locator.FindTextPositions | streamlit_app.py:78-84 | The loop returns exactly `Matches(words, searchText)`. |
| Locator.MatchIndices | streamlit_app.py:78-84 | The matches are the input words at strictly increasing indices. An index is among them iff its word's text equals the label, so the result is an order-preserving subsequence that misses no hit and has no substring or case-folded match. |
| Locator.ExtendIndices | streamlit_app.py:81-83 | One more loop step keeps the index characterization: indices of the matches among the first words extend to the indices among all words. |
| Locator.NoMatchIffAbsent | streamlit_app.py:78-84 | The result is empty iff no word carries the label. |
| Locator.MatchesAppend | streamlit_app.py:81-83 | Searching a concatenation gives the matches of the first part followed by the matches of the second. |
| Decimal.NatToString | streamlit_app.py:149-151 | A counter is rendered as a non-empty string of digits with no leading zero. |
| Decimal.IntToString | streamlit_app.py:149-151 | The rendered numeral starts with a minus sign iff the integer is negative. |
| Decimal.NatRoundTrip | streamlit_app.py:149-151 | Reading the digits of a rendered natural number back gives that number. |
| Decimal.IntRoundTrip | streamlit_app.py:149-151 | Reading a rendered integer back gives that integer, so the drawn counters lose nothing. |
| Report.FieldsToUpdate | streamlit_app.py:143-152 | The label→value table: the eight labels of `Labels` in order, the text fields as given and the three counters as `IntToString` numerals (see `FieldTableShape`, `CountersRoundTrip`). |
| Drawing.RunAppend | streamlit_app.py:92-114 | Running two command lists one after the other gives the concatenated marks and the composed graphics state. |
| Drawing.Canvas.constructor | streamlit_app.py:89 | A fresh canvas of the given page size has no commands, no finished pages and the default state (12-point Helvetica, black fill). |
| Drawing.Canvas.Issue | streamlit_app.py:100-104 | Appends exactly one command and applies its effect on the graphics state. |
| Drawing.Canvas.SetFont | streamlit_app.py:100 | Appends a set-font command and makes that font and size current. |
| Drawing.Canvas.SetFillColorRGB | streamlit_app.py:101 | Appends a set-fill command and makes that colour the current fill. |
| Drawing.Canvas.Rect | streamlit_app.py:102 | Appends a rectangle command with exactly the given geometry and fill/stroke flags. The state is unchanged. |
| Drawing.Canvas.DrawString | streamlit_app.py:104 | Appends a string command with the text unchanged. The state is unchanged. |
| Drawing.Canvas.DrawImage | streamlit_app.py:112 | Appends an image command at the given place and size. The state is unchanged. |
| Drawing.Canvas.Save | streamlit_app.py:114 | Closing the canvas turns pending commands into one finished page. A canvas with nothing pending adds no page. |
| Overlay.Lookup | streamlit_app.py:93 | The matches under a key, or none when the key is absent, as `positions_dict.get(key, [])`. |
| Overlay.Truthy | streamlit_app.py:107 | An image path counts as supplied when present and non-empty, as `if profile_image:`. |
| Overlay.MatchOps | streamlit_app.py:95-104 | The five commands for one match (laid out in `FieldOpsLayout`, painted in `MatchOpsPaint`). |
| Overlay.FieldOps | streamlit_app.py:94-104 | One field's commands, match by match (see `FieldOpsLayout`). |
| Overlay.TextOps | streamlit_app.py:92-104 | Every field's commands, in table order (see `TextOpsSplit`, `UnmatchedFieldIsInert`). |
| Overlay.ImageOps | streamlit_app.py:109-112 | One image command per anchor (see `ImageOpsLayout`). |
| Overlay.OverlayOps | streamlit_app.py:92-112 | Text commands, then image commands when the image is truthy (see `ImagesComeLast`). |
| Overlay.OverlayDocument | streamlit_app.py:89-116 | The single overlay page holding the program, or no page when nothing was drawn (see `CreateOverlay`). |
| Overlay.DrawMatch | streamlit_app.py:95-104 | Appends exactly the five commands of one match (`MatchOps`) and finishes no page. |
| Overlay.DrawField | streamlit_app.py:93-104 | Appends exactly `FieldOps` for the field's matches and finishes no page. |
| Overlay.DrawImages | streamlit_app.py:108-112 | Appends exactly `ImageOps` for the image anchors and finishes no page. |
| Overlay.FieldOpsStep | streamlit_app.py:94-104 | One more match appends its five-command block after the blocks of the earlier matches. |
| Overlay.CreateOverlay | streamlit_app.py:86-116 | The saved canvas holds exactly `OverlayDocument`: one page with every field's commands in table order, then the image commands, or no page when nothing was drawn. |
| Overlay.FieldOpsLayout | streamlit_app.py:94-104 | A field draws five commands per match, in match order: its font and size, white fill, a filled unstroked mask at (x0, H−top−size) that is 200 wide and size+5 high, black fill, then the value at (x0, H−top). |
| Overlay.TextOpsAppend | streamlit_app.py:92-104 | The text commands of two field lists one after the other are the two lists' commands concatenated. |
| Overlay.FieldOpsDrawNoImage | streamlit_app.py:94-104 | A field's commands contain no image command. |
| Overlay.TextOpsSplit | streamlit_app.py:92-104 | Field `i`'s block sits between the commands of the earlier fields and those of the later ones. |
| Overlay.UnmatchedFieldIsInert | streamlit_app.py:93-94 | A field whose label is absent from the positions table, or has no match, contributes no command. Removing it changes nothing. |
| Overlay.UnmatchedFieldsDrawNothing | streamlit_app.py:92-94 | When no field has a match, there are no text commands. |
| Overlay.OnlyFieldDrawn | streamlit_app.py:92-104 | When only field `i` has matches, the text commands are that field's block alone. |
| Overlay.ImageOpsLayout | streamlit_app.py:108-112 | There is one image command per anchor, in anchor order: 100 × 100 at (x0, H−top−100). |
| Overlay.TextOpsDrawNoImage | streamlit_app.py:92-104 | The text commands contain no image command. |
| Overlay.ImagesComeLast | streamlit_app.py:106-112 | Image commands exist only when an image is supplied. There is exactly one per `'profile_image'` match, at its place and size, and all come after every text command. |
| Overlay.MatchOpsPaint | streamlit_app.py:100-104 | Whatever the canvas state, one match paints a white, unstroked 200-wide mask and then the value in black, in the match's font and size, on top of it. |
| Overlay.FieldOpsPaint | streamlit_app.py:94-104 | A field paints mask then value for every match in order, and leaves the last match's font with a black fill. |
| Overlay.FieldPaintingMarks | streamlit_app.py:101-104 | Every mark a field leaves is a white fixed-width mask or a black value. |
| Overlay.TextOpsPaint | streamlit_app.py:92-104 | The text commands paint the same marks from any starting state, and each is a white fixed-width mask or a black value. |
| Overlay.FieldOpsIgnorePage | streamlit_app.py:94-98 | A field's commands do not depend on the page numbers of its matches. |
| Overlay.ImageOpsIgnorePage | streamlit_app.py:108-111 | The image commands do not depend on the page numbers of the anchors. |
| Overlay.TextOpsIgnorePage | streamlit_app.py:92-98 | The text commands do not depend on page numbers. |
| Overlay.PageNumberNeverRead | streamlit_app.py:89-114 | Positions tables that differ only in page numbers give the very same overlay program. |
| Overlay.SameExceptTextAppend | streamlit_app.py:92-112 | Concatenation keeps two programs that differ only in string text related. |
| Overlay.FieldOpsValueOnlyInText | streamlit_app.py:102-104 | Changing a field's value changes only the text of its string commands. |
| Overlay.TextOpsValueOnlyInText | streamlit_app.py:92-104 | Changing the values of a table with the same labels changes only string texts. |
| Overlay.ValuesOnlyChangeText | streamlit_app.py:102-104 | Values are drawn unchanged and never measured. Different values give programs that agree on every command but the string texts, so mask geometry does not depend on value length. |
| Report.PositionsDict | streamlit_app.py:154-155 | The positions table's keys are exactly the eight labels plus `'profile_image'`. |
| Report.FieldTableShape | streamlit_app.py:143-152 | The field table lists the eight labels in order with no repeats, and `'profile_image'` is not one of them. |
| Report.CountersRoundTrip | streamlit_app.py:149-151 | The three counter values drawn are numerals that read back as the counters. |
| Report.PositionsDictLookups | streamlit_app.py:154-155 | Each label is searched for with itself, and `'profile_image'` with the literal `'Profile Image'`. |
| Merge.MergedPages | streamlit_app.py:125-132 | The merged document has exactly as many pages as the original. |
| Merge.Overlaid | streamlit_app.py:130 | A page with another stacked on top: the original's content followed by the overlay's. |
| Merge.MergedPageAt | streamlit_app.py:125-132 | Page `i` is original page `i` with overlay page `i` on top when `i` is below the overlay's page count. Otherwise it is original page `i` untouched. |
| Merge.MergeReadsOnlyAlignedPages | streamlit_app.py:128-130 | Only overlay pages at the original's page indices influence the result. |
| Merge.SurplusOverlayDropped | streamlit_app.py:125-132 | Overlay pages past the end of the original never appear. |
| Merge.BlankOverlayIsIdentity | streamlit_app.py:128-132 | Blank overlay pages, or no overlay pages, leave the document exactly as it was. |
| Merge.PageObject.constructor | streamlit_app.py:126 | A page object holds the page's content. |
| Merge.PageObject.MergePage | streamlit_app.py:130 | The page in place becomes its old content with the overlay stacked on top. |
| Merge.PdfWriter.constructor | streamlit_app.py:123 | A new writer has no pages. |
| Merge.PdfWriter.AddPage | streamlit_app.py:132 | Appends the page as it is at that moment. |
| Merge.ReadPages | streamlit_app.py:120-126 | One fresh, distinct page object per original page, in order, holding that page's content. |
| Merge.WritePage | streamlit_app.py:126-132 | The page is merged in place with overlay page `pageNum` exactly when the overlay has that page, and the writer gains the page as it then is. |
| Merge.MergedPagesStep | streamlit_app.py:125-132 | One more original page appends its merged form after the earlier pages. |
| Merge.MergePdfs | streamlit_app.py:118-137 | Reads the original into fresh page objects and writes `MergedPages(original, overlay)`; nothing the caller holds is changed. |
| Pipeline.GeneratePdf | streamlit_app.py:139-162 | Modifies nothing the caller holds; the written pages are `Regenerate` of the original: the overlay drawn from the field table and positions table on the letter page, merged onto it. |
| Pipeline.RegenerationOps | streamlit_app.py:143-158 | The overlay program drawn from the field table and positions table on the letter page. |
| Pipeline.Regenerate | streamlit_app.py:139-162 | The written pages: the original merged with the overlay document (see `OverlayLandsOnFirstPage`). |
| Pipeline.OverlayLandsOnFirstPage | streamlit_app.py:154-160 | The page count is kept. Every page after the first is untouched, and the first carries the whole overlay program on top. |
| Pipeline.NothingFoundLeavesDocumentUnchanged | streamlit_app.py:141-160 | When no word is a label, and no supplied image has an anchor, the output is the original document. |
| Pipeline.OnlyOneFieldFound | streamlit_app.py:154-158 | When only label `i` is found, the overlay program is that field's block with its value. |
| Pipeline.NameFieldExample | streamlit_app.py:139-162 | A one-page report with `Name:` at (50, 40), 12-point, renamed `Alice`, gets a white 200 × 17 mask at (50, 740), then `Alice` at (50, 752). |
| Pipeline.OnlyEmailsFound | streamlit_app.py:154 | Two `Emails:` words are found for that label and for no other. |
| Pipeline.FieldOpsOfTwo | streamlit_app.py:94-104 | A field with two matches draws the first match's block, then the second's. |
| Pipeline.TwoEmailsOps | streamlit_app.py:154-158 | Two `Emails:` matches give the first match's block followed by the second's. |
| Pipeline.LabelOnTwoPagesLandsOnFirst | streamlit_app.py:139-162 | A label found on pages 0 and 1 of a two-page report has both masks and values drawn on page 0. Page 1 is written unchanged. |

## Left out

- Regex parsing of the report text (`extract_pdf_data`, streamlit_app.py:11-59). The report data is an input, `ReportData`.
- Word extraction by the PDF text library (`get_text_positions`, streamlit_app.py:61-76). The words are an input sequence of `Word` records. Its defaults (size 12, font Helvetica) are not modelled.
- Reading and writing PDF bytes, including the `BytesIO` streams and `PdfReader`/`PdfWriter` serialization. Pages are modelled as drawing programs. `PdfReader` is modelled by `Merge.ReadPages`, which makes fresh page objects, and the overlay is the canvas's finished pages.
- Reportlab's rendering internals. The model assumes a saved canvas with no commands has no page. `Merge.BlankOverlayIsIdentity` shows the result is the same if it had one blank page.
- Whether reportlab accepts the font name the extractor reports (streamlit_app.py:100). This is foreign-library behaviour; `setFont` is recorded as called.
- Floating-point rounding in the coordinate arithmetic. Coordinates are exact reals.
- The image file. It is identified by its path. Resizing it, the temporary file and its cleanup belong to the user interface (streamlit_app.py:252-270).
- The Streamlit user interface and session state (`main`, streamlit_app.py:164-274).
