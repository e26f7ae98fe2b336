/** T.py: the clipping splitter, the merger, page numbering with T.py's own
    label and anchors, text extraction and the name of the numbered output. */
module TScript {

  import opened Wrappers
  import opened Decimal
  import opened PdfModel
  import opened Paths
  import opened Strings
  import Numbering

  function Min(a: int, b: int): int {
    if a <= b then a else b
  }

  /** process_pdf_split: pages start_page .. end_page, 1-based and inclusive,
      with the end clipped to the page count. Never fails for start_page >= 1:
      a start past the end or past the last page gives an empty document. */
  method ProcessPdfSplit(doc: seq<Page>, startPage: int, endPage: int) returns (out: seq<Page>)
    requires startPage >= 1
    ensures startPage <= Min(endPage, |doc|) ==> out == doc[startPage - 1..Min(endPage, |doc|)]
    ensures |out| == if startPage <= Min(endPage, |doc|) then Min(endPage, |doc|) - startPage + 1 else 0
    ensures startPage > |doc| || startPage > endPage ==> out == []
  {
    var writer := new Writer();
    var stop := Min(endPage, |doc|);
    var pageNum := startPage - 1;
    while pageNum < stop
      invariant startPage - 1 <= pageNum
      invariant startPage <= stop ==> pageNum <= stop
      invariant startPage > stop ==> pageNum == startPage - 1
      invariant pageNum == startPage - 1 ==> writer.pages == []
      invariant pageNum > startPage - 1 ==> writer.pages == doc[startPage - 1..pageNum]
    {
      writer.AddPage(doc[pageNum]);
      pageNum := pageNum + 1;
    }
    out := writer.pages;
  }

  /** merge_pdfs: every page of every supplied document, in supplied order. */
  method MergePdfs(docs: seq<seq<Page>>) returns (out: seq<Page>)
    ensures out == Flatten(docs)
    ensures |out| == TotalLength(docs)
  {
    var writer := new Writer();
    for d := 0 to |docs|
      invariant writer.pages == Flatten(docs[..d])
    {
      ghost var before := writer.pages;
      var pages := docs[d];
      for p := 0 to |pages|
        invariant writer.pages == before + pages[..p]
      {
        writer.AddPage(pages[p]);
      }
      assert pages[..|pages|] == pages;
      assert docs[..d + 1] == docs[..d] + [pages];
      FlattenSnoc(docs[..d], pages);
    }
    assert docs[..|docs|] == docs;
    out := writer.pages;
    FlattenLength(docs);
  }

  /** Width of a US letter page in points (`letter[0]`). */
  const LetterWidth := 612

  /** The anchor of the label: 30 points in from the left, half the page width
      less 20, or the page width less 80, all 30 points up; no anchor for any
      other position. */
  function Anchor(position: string): (a: Option<(int, int)>)
    ensures a.Some? <==> position in {"left", "middle", "right"}
    ensures a.Some? ==> a.value.1 == 30 && 0 <= a.value.0 < LetterWidth
    ensures position == "left" ==> a == Some((30, 30))
    ensures position == "middle" ==> a == Some((286, 30))
    ensures position == "right" ==> a == Some((532, 30))
  {
    if position == "left" then Some((30, 30))
    else if position == "middle" then Some((LetterWidth / 2 - 20, 30))
    else if position == "right" then Some((LetterWidth - 80, 30))
    else None
  }

  /** T.py's "detailed" label is the bare number. */
  const DetailedSuffix := ""

  /** add_page_numbers: with N fixed before the loop, page i of N comes out as
      page i with its label drawn over it, one output page per input page, in
      order. */
  method AddPageNumbers(doc: seq<Page>, numberingMethod: string, position: string) returns (out: seq<Page>)
    ensures |out| == |doc|
    ensures forall i :: 0 <= i < |doc| ==>
      out[i] == doc[i].Stamped(Numbering.OverlayAt(Anchor(position),
                                 Numbering.Label(numberingMethod, i, |doc|, DetailedSuffix)))
  {
    var writer := new Writer();
    var totalPages := |doc|;
    for i := 0 to totalPages
      invariant |writer.pages| == i
      invariant forall k :: 0 <= k < i ==>
        writer.pages[k] == doc[k].Stamped(Numbering.OverlayAt(Anchor(position),
                                            Numbering.Label(numberingMethod, k, totalPages, DetailedSuffix)))
    {
      var page := doc[i];
      var pageNumber;
      if numberingMethod == "simple" {
        pageNumber := "Page " + NatToString(i + 1) + " of " + NatToString(totalPages);
      } else if numberingMethod == "detailed" {
        pageNumber := NatToString(i + 1);
        assert pageNumber == NatToString(i + 1) + DetailedSuffix;
      } else {
        pageNumber := "Page " + NatToString(i + 1);
      }
      var overlay := Blank;
      if position == "left" {
        overlay := Drawn(pageNumber, 30, 30);
      } else if position == "middle" {
        overlay := Drawn(pageNumber, LetterWidth / 2 - 20, 30);
      } else if position == "right" {
        overlay := Drawn(pageNumber, LetterWidth - 80, 30);
      }
      page := page.Stamped(overlay);
      writer.AddPage(page);
    }
    out := writer.pages;
  }

  /** The "detailed" label of page i reads back as the number i + 1 alone. */
  lemma DetailedLabelIsPageNumber(i: nat, total: nat)
    ensures ParseNat(Numbering.Label("detailed", i, total, DetailedSuffix)) == Some(i + 1)
  {
    Numbering.DetailedLabelReadsBack(i, total, DetailedSuffix);
    var s := Numbering.Label("detailed", i, total, DetailedSuffix);
    assert s[..|s| - 0] == s;
  }

  /** The text-extraction loop: the page texts joined in page order, no
      separator. */
  method ExtractText(pageTexts: seq<string>) returns (text: string)
    ensures text == Flatten(pageTexts)
    ensures |text| == TotalLength(pageTexts)
  {
    text := "";
    for i := 0 to |pageTexts|
      invariant text == Flatten(pageTexts[..i])
    {
      assert pageTexts[..i + 1] == pageTexts[..i] + [pageTexts[i]];
      FlattenSnoc(pageTexts[..i], pageTexts[i]);
      text := text + pageTexts[i];
    }
    assert pageTexts[..|pageTexts|] == pageTexts;
    FlattenLength(pageTexts);
  }

  /** `f"numbered_{file.filename}"`. */
  function NumberedFilename(filename: string): (r: string)
    ensures |r| == |filename| + 9
    ensures r[..9] == "numbered_" && r[9..] == filename
  {
    "numbered_" + filename
  }

  /** Different uploads get different numbered outputs. */
  lemma NumberedFilenameInjective(a: string, b: string)
    requires NumberedFilename(a) == NumberedFilename(b)
    ensures a == b
  {
    assert a == NumberedFilename(a)[9..];
  }

  /** For an upload name without directories, the numbered output keeps the
      upload's extension. */
  lemma NumberedFilenameKeepsExtension(filename: string)
    requires '/' !in filename
    requires Splitext(filename).1 != []
    ensures Splitext(NumberedFilename(filename)).1 == Splitext(filename).1
  {
    assert NumberedFilename(filename) == "numbered_" + filename;
    PrefixKeepsExtension("numbered_", filename);
  }
}
