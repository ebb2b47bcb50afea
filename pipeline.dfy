/** One regeneration pass: build the field table and the positions table
    from the extracted words, draw the overlay, and merge it onto the
    original document. */
module Pipeline {
  import opened Locator
  import opened Drawing
  import opened Overlay
  import opened Report
  import opened Merge

  /** The overlay program a regeneration draws. */
  function RegenerationOps(data: ReportData, words: seq<Word>, image: Option<string>): seq<DrawOp> {
    OverlayOps(FieldsToUpdate(data), PositionsDict(words), Letter, image)
  }

  /** The pages a regeneration writes. */
  function Regenerate(data: ReportData, words: seq<Word>, original: seq<Page>, image: Option<string>): seq<Page> {
    MergedPages(original, OverlayDocument(FieldsToUpdate(data), PositionsDict(words), Letter, image))
  }

  /** Regenerates the report: `words` are the words extracted from the
      original document, `original` its pages, and `profileImagePath` the
      optional image file. The original document is only read. */
  method GeneratePdf(data: ReportData, words: seq<Word>, original: seq<Page>, profileImagePath: Option<string>)
    returns (writer: PdfWriter)
    ensures fresh(writer)
    ensures writer.pages == Regenerate(data, words, original, profileImagePath)
  {
    var fields := FieldsToUpdate(data);
    var positions := PositionsDict(words);
    var pageSize := Letter;
    var overlay := CreateOverlay(fields, positions, pageSize, profileImagePath);
    writer := MergePdfs(original, overlay.pages);
  }

  /** The result has the original's page count; every page after the first
      is the original page untouched, and the first carries the whole
      overlay program on top, whichever pages the labels were found on. */
  lemma OverlayLandsOnFirstPage(data: ReportData, words: seq<Word>, original: seq<Page>, image: Option<string>)
    ensures |Regenerate(data, words, original, image)| == |original|
    ensures forall i :: 1 <= i < |original| ==> Regenerate(data, words, original, image)[i] == original[i]
    ensures |original| > 0 ==>
      Regenerate(data, words, original, image)[0] == Overlaid(original[0], Page(RegenerationOps(data, words, image)))
  {
    var overlay := OverlayDocument(FieldsToUpdate(data), PositionsDict(words), Letter, image);
    forall i | 1 <= i < |original|
      ensures Regenerate(data, words, original, image)[i] == original[i]
    {
      MergedPageAt(original, overlay, i);
    }
    if |original| > 0 {
      MergedPageAt(original, overlay, 0);
      if overlay == [] {
        assert original[0].content + [] == original[0].content;
      }
    }
  }

  /** When no extracted word is any of the labels, and no supplied image
      has an anchor, the document comes back exactly as it was. */
  lemma NothingFoundLeavesDocumentUnchanged(data: ReportData, words: seq<Word>, original: seq<Page>, image: Option<string>)
    requires forall j :: 0 <= j < |words| ==> words[j].text !in Labels
    requires Truthy(image) ==> forall j :: 0 <= j < |words| ==> words[j].text != ProfileImageLabel
    ensures Regenerate(data, words, original, image) == original
  {
    var fields := FieldsToUpdate(data);
    var positions := PositionsDict(words);
    FieldTableShape(data);
    PositionsDictLookups(words);
    forall i | 0 <= i < |fields|
      ensures Lookup(positions, fields[i].name) == []
    {
      NoMatchIffAbsent(words, Labels[i]);
    }
    UnmatchedFieldsDrawNothing(fields, positions, Letter.height);
    if Truthy(image) {
      NoMatchIffAbsent(words, ProfileImageLabel);
    }
    assert OverlayOps(fields, positions, Letter, image) == [];
    BlankOverlayIsIdentity(original, []);
  }

  /** Only field `i` of the table has matches, and they are `found`. */
  lemma OnlyOneFieldFound(data: ReportData, words: seq<Word>, i: nat, found: seq<Word>, image: Option<string>)
    requires i < |Labels|
    requires Matches(words, Labels[i]) == found
    requires forall j :: 0 <= j < |Labels| && j != i ==> Matches(words, Labels[j]) == []
    requires !Truthy(image)
    ensures RegenerationOps(data, words, image) == FieldOps(FieldsToUpdate(data)[i].value, found, Letter.height)
  {
    var fields := FieldsToUpdate(data);
    var positions := PositionsDict(words);
    FieldTableShape(data);
    PositionsDictLookups(words);
    assert forall k :: 0 <= k < |fields| ==> Lookup(positions, fields[k].name) == Matches(words, Labels[k]);
    OnlyFieldDrawn(fields, positions, Letter.height, i);
    assert OverlayOps(fields, positions, Letter, image) == TextOps(fields, positions, Letter.height) + [];
  }

  /** A one-page report whose only label is 'Name:' at (50, 40) in 12-point
      Helvetica, renamed to 'Alice': the page gets a white mask from
      (50, 792 - 40 - 12) that is 200 wide and 17 high, then 'Alice' at
      (50, 792 - 40). */
  lemma NameFieldExample(data: ReportData, w: Word, page: Page)
    requires data.name == "Alice"
    requires w.text == "Name:" && w.x0 == 50.0 && w.top == 40.0 && w.size == 12.0 && w.fontName == "Helvetica"
    ensures Regenerate(data, [w], [page], None)
      == [Overlaid(page, Page([ DrawOp.SetFont("Helvetica", 12.0),
                                SetFillColor(White),
                                DrawOp.Rect(50.0, 740.0, 200.0, 17.0, true, false),
                                SetFillColor(Black),
                                DrawOp.DrawString(50.0, 752.0, "Alice") ]))]
  {
    var words := [w];
    assert Matches(words, Labels[0]) == [w];
    forall j | 0 <= j < |Labels| && j != 0
      ensures Matches(words, Labels[j]) == []
    {
      NoMatchIffAbsent(words, Labels[j]);
    }
    OnlyOneFieldFound(data, words, 0, [w], None);
    assert [w][..0] == [];
    assert FieldOps("Alice", [w], Letter.height) == [] + MatchOps("Alice", w, Letter.height);
    var ops := RegenerationOps(data, words, None);
    assert ops == MatchOps("Alice", w, Letter.height);
    OverlayLandsOnFirstPage(data, words, [page], None);
    var r := Regenerate(data, words, [page], None);
    assert r == [r[0]];
  }

  lemma OnlyEmailsFound(w0: Word, w1: Word)
    requires w0.text == "Emails:" && w1.text == "Emails:"
    ensures Matches([w0, w1], Labels[3]) == [w0, w1]
    ensures forall j :: 0 <= j < |Labels| && j != 3 ==> Matches([w0, w1], Labels[j]) == []
  {
    var words := [w0, w1];
    assert words[..1] == [w0] && [w0][..0] == [];
    forall j | 0 <= j < |Labels| && j != 3
      ensures Matches(words, Labels[j]) == []
    {
      NoMatchIffAbsent(words, Labels[j]);
    }
  }

  /** Two 'Emails:' words and no other label: the overlay program is the
      mask-and-value block of the first, then that of the second. */
  lemma TwoEmailsOps(data: ReportData, w0: Word, w1: Word)
    requires w0.text == "Emails:" && w1.text == "Emails:"
    ensures RegenerationOps(data, [w0, w1], None)
      == MatchOps(data.emails, w0, Letter.height) + MatchOps(data.emails, w1, Letter.height)
  {
    OnlyEmailsFound(w0, w1);
    OnlyOneFieldFound(data, [w0, w1], 3, [w0, w1], None);
    FieldOpsOfTwo(data.emails, w0, w1, Letter.height);
  }

  lemma FieldOpsOfTwo(value: string, w0: Word, w1: Word, height: real)
    ensures FieldOps(value, [w0, w1], height) == MatchOps(value, w0, height) + MatchOps(value, w1, height)
  {
    assert [w0, w1][..1] == [w0] && [w0][..0] == [];
    assert FieldOps(value, [w0], height) == [] + MatchOps(value, w0, height);
  }

  /** The same label on the first and the second page of a two-page report:
      both masks and both values are drawn on the first page, the second
      word's too, and the second page is left as it was. The page a word
      was found on plays no part. */
  lemma LabelOnTwoPagesLandsOnFirst(data: ReportData, w0: Word, w1: Word, first: Page, second: Page)
    requires w0.text == "Emails:" && w0.pageNumber == 0
    requires w1.text == "Emails:" && w1.pageNumber == 1
    ensures Regenerate(data, [w0, w1], [first, second], None)
      == [Overlaid(first, Page(MatchOps(data.emails, w0, Letter.height) + MatchOps(data.emails, w1, Letter.height))), second]
  {
    TwoEmailsOps(data, w0, w1);
    OverlayLandsOnFirstPage(data, [w0, w1], [first, second], None);
    var r := Regenerate(data, [w0, w1], [first, second], None);
    assert r == [r[0], r[1]];
  }
}
