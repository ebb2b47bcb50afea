/** Page merger: walks the original document page by page, stacks the
    overlay page with the same index on top when there is one, and hands
    every page, merged or not, to a writer. */
module Merge {
  import opened Drawing

  /** One page with another stacked on top: the original's content, then
      the overlay's, which therefore paints over it. */
  function Overlaid(original: Page, overlay: Page): Page {
    Page(original.content + overlay.content)
  }

  /** The pages of the merged document, page index aligned with the original. */
  function MergedPages(original: seq<Page>, overlay: seq<Page>): (r: seq<Page>)
    ensures |r| == |original|
  {
    if original == [] then []
    else
      var n := |original| - 1;
      MergedPages(original[..n], overlay) + [if n < |overlay| then Overlaid(original[n], overlay[n]) else original[n]]
  }

  /** Page `i` of the result is original page `i` with overlay page `i` on
      top when the overlay has that many pages, and original page `i`
      untouched otherwise. */
  lemma {:induction false} MergedPageAt(original: seq<Page>, overlay: seq<Page>, i: nat)
    requires i < |original|
    ensures MergedPages(original, overlay)[i]
      == if i < |overlay| then Overlaid(original[i], overlay[i]) else original[i]
  {
    var n := |original| - 1;
    if i < n {
      MergedPageAt(original[..n], overlay, i);
    }
  }

  /** The merge reads the overlay only at the original's page indices. */
  lemma {:induction false} MergeReadsOnlyAlignedPages(original: seq<Page>, o1: seq<Page>, o2: seq<Page>)
    requires |o1| == |o2| || (|o1| >= |original| && |o2| >= |original|)
    requires forall i :: 0 <= i < |original| && i < |o1| && i < |o2| ==> o1[i] == o2[i]
    ensures MergedPages(original, o1) == MergedPages(original, o2)
  {
    if original != [] {
      var n := |original| - 1;
      MergeReadsOnlyAlignedPages(original[..n], o1, o2);
    }
  }

  /** Overlay pages past the end of the original never show up. */
  lemma SurplusOverlayDropped(original: seq<Page>, overlay: seq<Page>)
    requires |overlay| > |original|
    ensures MergedPages(original, overlay) == MergedPages(original, overlay[..|original|])
  {
    MergeReadsOnlyAlignedPages(original, overlay, overlay[..|original|]);
  }

  /** Overlay pages that draw nothing leave the original as it was, and so
      does an overlay with no pages at all. */
  lemma BlankOverlayIsIdentity(original: seq<Page>, overlay: seq<Page>)
    requires forall k :: 0 <= k < |overlay| ==> overlay[k].content == []
    ensures MergedPages(original, overlay) == original
  {
    forall i | 0 <= i < |original|
      ensures MergedPages(original, overlay)[i] == original[i]
    {
      MergedPageAt(original, overlay, i);
      if i < |overlay| {
        assert original[i].content + overlay[i].content == original[i].content;
      }
    }
  }

  /** One more original page adds its merged form at the end. */
  lemma MergedPagesStep(original: seq<Page>, overlay: seq<Page>, i: nat)
    requires i < |original|
    ensures MergedPages(original[..i + 1], overlay)
      == MergedPages(original[..i], overlay) + [if i < |overlay| then Overlaid(original[i], overlay[i]) else original[i]]
  {
    assert original[..i + 1][..i] == original[..i];
  }

  /** A page of a document that has been read in: merging changes it in place. */
  class PageObject {
    var content: seq<DrawOp>

    constructor (content: seq<DrawOp>)
      ensures this.content == content
    {
      this.content := content;
    }

    /** Stacks `overlay` on top of this page. */
    method MergePage(overlay: Page)
      modifies this
      ensures Page(content) == Overlaid(Page(old(content)), overlay)
    {
      content := content + overlay.content;
    }
  }

  /** The document being written: the pages added so far, as they were
      when added. */
  class PdfWriter {
    var pages: seq<Page>

    constructor ()
      ensures pages == []
    {
      pages := [];
    }

    method AddPage(page: PageObject)
      modifies this
      ensures pages == old(pages) + [Page(page.content)]
    {
      pages := pages + [Page(page.content)];
    }
  }

  /** Reads a document in: one fresh page object per page, holding that
      page's content. The caller's document is never changed afterwards,
      since merging works on these objects only. */
  method ReadPages(pages: seq<Page>) returns (reader: seq<PageObject>)
    ensures |reader| == |pages|
    ensures forall k :: 0 <= k < |reader| ==> fresh(reader[k]) && Page(reader[k].content) == pages[k]
    ensures forall i, j :: 0 <= i < j < |reader| ==> reader[i] != reader[j]
  {
    reader := [];
    for i := 0 to |pages|
      invariant |reader| == i
      invariant forall k :: 0 <= k < i ==> fresh(reader[k]) && Page(reader[k].content) == pages[k]
      invariant forall a, b :: 0 <= a < b < i ==> reader[a] != reader[b]
    {
      var page := new PageObject(pages[i].content);
      reader := reader + [page];
    }
  }

  /** Merges overlay page `pageNum`, if there is one, onto `page` in place
      and hands the page to the writer. */
  method WritePage(writer: PdfWriter, page: PageObject, overlay: seq<Page>, pageNum: nat)
    modifies writer, page
    ensures Page(page.content)
      == if pageNum < |overlay| then Overlaid(Page(old(page.content)), overlay[pageNum]) else Page(old(page.content))
    ensures writer.pages == old(writer.pages) + [Page(page.content)]
  {
    if pageNum < |overlay| {
      page.MergePage(overlay[pageNum]);
    }
    writer.AddPage(page);
  }

  /** Reads the original document and writes every one of its pages in
      order, each with the overlay page of the same index merged onto it
      when the overlay has one. */
  method MergePdfs(original: seq<Page>, overlay: seq<Page>) returns (writer: PdfWriter)
    ensures fresh(writer)
    ensures writer.pages == MergedPages(original, overlay)
  {
    var reader := ReadPages(original);
    writer := new PdfWriter();
    for pageNum := 0 to |reader|
      invariant fresh(writer)
      invariant writer.pages == MergedPages(original[..pageNum], overlay)
      invariant forall k :: pageNum <= k < |reader| ==> Page(reader[k].content) == original[k]
    {
      var originalPage := reader[pageNum];
      WritePage(writer, originalPage, overlay, pageNum);
      assert forall k :: 0 <= k < |reader| && k != pageNum ==> reader[k] != originalPage;
      MergedPagesStep(original, overlay, pageNum);
    }
    assert original[..|original|] == original;
  }
}
