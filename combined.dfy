/** combined.py: split, merge, rotate, text extraction, page removal, page
    numbering and page extraction, each a loop that appends pages of the
    uploaded document(s) to a fresh writer. */
module Combined {

  import opened Wrappers
  import opened PdfModel
  import Numbering
  import opened Decimal

  /** `pdf_reader.pages[index]` with an index at or past the page count. */
  datatype SplitError = IndexError(index: int)

  /** splitter: pages start_page .. end_page, 1-based and inclusive, with no
      clipping. An empty range gives an empty document; a range that runs past
      the last page fails at the first missing index and writes nothing. */
  method Splitter(doc: seq<Page>, startPage: int, endPage: int) returns (r: Result<seq<Page>, SplitError>)
    requires startPage >= 1
    ensures r.Ok? <==> startPage > endPage || endPage <= |doc|
    ensures r.Ok? && startPage <= endPage ==> r.value == doc[startPage - 1..endPage]
    ensures r.Ok? && startPage <= endPage ==> |r.value| == endPage - startPage + 1
    ensures r.Ok? && startPage > endPage ==> r.value == []
    ensures r.Err? ==> r.error == IndexError(if startPage - 1 > |doc| then startPage - 1 else |doc|)
  {
    var writer := new Writer();
    var pageNum := startPage - 1;
    while pageNum < endPage
      invariant startPage - 1 <= pageNum
      invariant startPage <= endPage ==> pageNum <= endPage
      invariant startPage > endPage ==> pageNum == startPage - 1
      invariant pageNum > startPage - 1 ==> pageNum <= |doc|
      invariant pageNum == startPage - 1 ==> writer.pages == []
      invariant pageNum > startPage - 1 ==> writer.pages == doc[startPage - 1..pageNum]
    {
      if pageNum >= |doc| {
        return Err(IndexError(pageNum));
      }
      writer.AddPage(doc[pageNum]);
      pageNum := pageNum + 1;
    }
    r := Ok(writer.pages);
  }

  /** merger: every page of every uploaded document, documents in upload
      order, each document's pages in their own order. */
  method Merger(docs: seq<seq<Page>>) returns (out: seq<Page>)
    ensures out == Flatten(docs)
    ensures |out| == TotalLength(docs)
  {
    var writer := new Writer();
    for d := 0 to |docs|
      invariant writer.pages == Flatten(docs[..d])
    {
      ghost var before := writer.pages;
      for p := 0 to |docs[d]|
        invariant writer.pages == before + docs[d][..p]
      {
        writer.AddPage(docs[d][p]);
      }
      assert docs[d][..|docs[d]|] == docs[d];
      assert docs[..d + 1] == docs[..d] + [docs[d]];
      FlattenSnoc(docs[..d], docs[d]);
    }
    assert docs[..|docs|] == docs;
    out := writer.pages;
    FlattenLength(docs);
  }

  /** `degree % 360` with Python's floor modulo, which for the positive
      divisor 360 is Dafny's: the unique angle in [0, 360) congruent to the
      input, negative inputs included. */
  function NormalizeDegree(degree: int): (d: int)
    ensures 0 <= d < 360
    ensures (degree - d) % 360 == 0
  {
    degree % 360
  }

  /** `(current_rotation + degree) % 360`: the angle asked of page.rotate. */
  function NewRotation(current: int, degree: int): (r: int)
    ensures 0 <= r < 360
    ensures (current + degree - r) % 360 == 0
  {
    (current + degree) % 360
  }

  /** rotate: one page out per page in, in order; each page is asked to rotate
      by (its /Rotate + the normalised degree) mod 360. */
  method Rotate(doc: seq<Page>, degree: int) returns (out: seq<Page>)
    ensures |out| == |doc|
    ensures forall i :: 0 <= i < |doc| ==>
      out[i] == doc[i].Rotated(NewRotation(doc[i].rotation, NormalizeDegree(degree)))
  {
    var d := degree % 360;
    var writer := new Writer();
    for i := 0 to |doc|
      invariant |writer.pages| == i
      invariant forall k :: 0 <= k < i ==>
        writer.pages[k] == doc[k].Rotated(NewRotation(doc[k].rotation, NormalizeDegree(degree)))
    {
      var page := doc[i];
      var currentRotation := page.rotation;
      var newRotation := (currentRotation + d) % 360;
      page := page.Rotated(newRotation);
      writer.AddPage(page);
    }
    out := writer.pages;
  }

  /** The angle formula composes: if the angle asked for a d1 rotation is taken
      as the page's current rotation, a d2 rotation then asks for the same
      angle as a single d1 + d2 rotation, negative degrees included. This is
      about the formula only: a second pass of `rotate` reads the /Rotate
      entry of the file, which the model does not update. */
  lemma RotationsCompose(current: int, d1: int, d2: int)
    ensures NewRotation(NewRotation(current, NormalizeDegree(d1)), NormalizeDegree(d2))
         == NewRotation(current, NormalizeDegree(d1 + d2))
  {
    var n1, n2, n12 := NormalizeDegree(d1), NormalizeDegree(d2), NormalizeDegree(d1 + d2);
    var r1 := NewRotation(current, n1);
    var lhs := NewRotation(r1, n2);
    var rhs := NewRotation(current, n12);
    // every quantity as a multiple of 360 plus its residue
    var q1, q2, q12 := d1 / 360, d2 / 360, (d1 + d2) / 360;
    var qa, qb, qc := (current + n1) / 360, (r1 + n2) / 360, (current + n12) / 360;
    assert d1 == 360 * q1 + n1;
    assert d2 == 360 * q2 + n2;
    assert d1 + d2 == 360 * q12 + n12;
    assert current + n1 == 360 * qa + r1;
    assert r1 + n2 == 360 * qb + lhs;
    assert current + n12 == 360 * qc + rhs;
    var k := q12 + qc - q1 - q2 - qa - qb;
    assert lhs - rhs == 360 * k;
  }

  /** extract_text: the page texts joined in page order, no separator. */
  method ExtractText(pageTexts: seq<string>) returns (text: string)
    ensures text == Flatten(pageTexts)
    ensures |text| == TotalLength(pageTexts)
  {
    text := "";
    for i := 0 to |pageTexts|
      invariant text == Flatten(pageTexts[..i])
    {
      assert pageTexts[..i + 1] == pageTexts[..i] + [pageTexts[i]];
      FlattenSnoc(pageTexts[..i], pageTexts[i]);
      text := text + pageTexts[i];
    }
    assert pageTexts[..|pageTexts|] == pageTexts;
    FlattenLength(pageTexts);
  }

  /** remove_page: every page but the one at the 1-based page_number; a
      number outside 1..N leaves the document as it was. */
  method RemovePage(doc: seq<Page>, pageNumber: int) returns (out: seq<Page>)
    ensures 1 <= pageNumber <= |doc| ==> out == doc[..pageNumber - 1] + doc[pageNumber..]
    ensures 1 <= pageNumber <= |doc| ==> |out| == |doc| - 1
    ensures !(1 <= pageNumber <= |doc|) ==> out == doc
  {
    var writer := new Writer();
    var removed := pageNumber - 1;
    for i := 0 to |doc|
      invariant 0 <= removed < i ==> writer.pages == doc[..removed] + doc[removed + 1..i]
      invariant !(0 <= removed < i) ==> writer.pages == doc[..i]
    {
      if i != removed {
        writer.AddPage(doc[i]);
      }
      assert doc[..i + 1] == doc[..i] + [doc[i]];
    }
    assert doc[..|doc|] == doc;
    out := writer.pages;
  }

  /** The anchor of the label: bottom left, a fixed "centre" and bottom right
      of a letter page, all 10 points up; no anchor for any other position. */
  function Anchor(position: string): (a: Option<(int, int)>)
    ensures a.Some? <==> position in {"left", "middle", "right"}
    ensures a.Some? ==> a.value.1 == 10 && 0 <= a.value.0 < 612
    ensures position == "left" ==> a == Some((10, 10))
    ensures position == "middle" ==> a == Some((270, 10))
    ensures position == "right" ==> a == Some((500, 10))
  {
    if position == "left" then Some((10, 10))
    else if position == "middle" then Some((270, 10))
    else if position == "right" then Some((500, 10))
    else None
  }

  /** What combined.py puts after the number of a "detailed" label. */
  const DetailedSuffix := ", "

  /** add_page_numbers: page i of N comes out as page i with its label drawn
      over it, one output page per input page, in order. */
  method AddPageNumbers(doc: seq<Page>, numberingMethod: string, position: string) returns (out: seq<Page>)
    ensures |out| == |doc|
    ensures forall i :: 0 <= i < |doc| ==>
      out[i] == doc[i].Stamped(Numbering.OverlayAt(Anchor(position),
                                 Numbering.Label(numberingMethod, i, |doc|, DetailedSuffix)))
  {
    var writer := new Writer();
    var totalPages := |doc|;
    for i := 0 to totalPages
      invariant |writer.pages| == i
      invariant forall k :: 0 <= k < i ==>
        writer.pages[k] == doc[k].Stamped(Numbering.OverlayAt(Anchor(position),
                                            Numbering.Label(numberingMethod, k, totalPages, DetailedSuffix)))
    {
      var page := doc[i];
      var pageNumber;
      if numberingMethod == "simple" {
        pageNumber := "Page " + NatToString(i + 1) + " of " + NatToString(totalPages);
      } else if numberingMethod == "detailed" {
        pageNumber := NatToString(i + 1) + ", ";
      } else {
        pageNumber := "Page " + NatToString(i + 1);
      }
      var overlay := Blank;
      if position == "left" {
        overlay := Drawn(pageNumber, 10, 10);
      } else if position == "middle" {
        overlay := Drawn(pageNumber, 270, 10);
      } else if position == "right" {
        overlay := Drawn(pageNumber, 500, 10);
      }
      page := page.Stamped(overlay);
      writer.AddPage(page);
    }
    out := writer.pages;
  }

  /** extract_pages: the requested 0-based indices that are below the page
      count, in request order, repeats included. */
  method ExtractPages(doc: seq<Page>, pageNumbers: seq<int>) returns (out: seq<Page>)
    requires forall k :: 0 <= k < |pageNumbers| ==> pageNumbers[k] >= 0
    ensures |out| == |KeptIndices(pageNumbers, |doc|)|
    ensures forall j :: 0 <= j < |out| ==>
      0 <= KeptIndices(pageNumbers, |doc|)[j] < |doc| && out[j] == doc[KeptIndices(pageNumbers, |doc|)[j]]
  {
    var writer := new Writer();
    for k := 0 to |pageNumbers|
      invariant |writer.pages| == |KeptIndices(pageNumbers[..k], |doc|)|
      invariant forall j :: 0 <= j < |writer.pages| ==>
        0 <= KeptIndices(pageNumbers[..k], |doc|)[j] < |doc| &&
        writer.pages[j] == doc[KeptIndices(pageNumbers[..k], |doc|)[j]]
    {
      var pageNum := pageNumbers[k];
      assert pageNumbers[..k + 1][..k] == pageNumbers[..k];
      if pageNum < |doc| {
        writer.AddPage(doc[pageNum]);
      }
    }
    assert pageNumbers[..|pageNumbers|] == pageNumbers;
    out := writer.pages;
  }
}
