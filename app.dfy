/** app.py: page numbering and page extraction, the parse of the comma-separated
    page list, and the names of the two output files. */
module App {

  import opened Wrappers
  import opened Decimal
  import opened Strings
  import opened Paths
  import opened PdfModel
  import Numbering

  /** The anchor of the label: (10, 10), (270, 10) or (500, 10); no anchor for
      any other position, though the blank overlay is still merged. */
  function Anchor(position: string): (a: Option<(int, int)>)
    ensures a.Some? <==> position in {"left", "middle", "right"}
    ensures a.Some? ==> a.value.1 == 10 && 0 <= a.value.0 < 612
    ensures position == "left" ==> a == Some((10, 10))
    ensures position == "middle" ==> a == Some((270, 10))
    ensures position == "right" ==> a == Some((500, 10))
  {
    if position == "left" then Some((10, 10))
    else if position == "middle" then Some((270, 10))
    else if position == "right" then Some((500, 10))
    else None
  }

  /** What app.py puts after the number of a "detailed" label. */
  const DetailedSuffix := ", "

  /** add_page_numbers: page i of N comes out as page i with its label drawn
      over it, one output page per input page, in order. */
  method AddPageNumbers(doc: seq<Page>, numberingMethod: string, position: string) returns (out: seq<Page>)
    ensures |out| == |doc|
    ensures forall i :: 0 <= i < |doc| ==>
      out[i] == doc[i].Stamped(Numbering.OverlayAt(Anchor(position),
                                 Numbering.Label(numberingMethod, i, |doc|, DetailedSuffix)))
  {
    var writer := new Writer();
    var totalPages := |doc|;
    for i := 0 to totalPages
      invariant |writer.pages| == i
      invariant forall k :: 0 <= k < i ==>
        writer.pages[k] == doc[k].Stamped(Numbering.OverlayAt(Anchor(position),
                                            Numbering.Label(numberingMethod, k, totalPages, DetailedSuffix)))
    {
      var page := doc[i];
      var pageNumber;
      if numberingMethod == "simple" {
        pageNumber := "Page " + NatToString(i + 1) + " of " + NatToString(totalPages);
      } else if numberingMethod == "detailed" {
        pageNumber := NatToString(i + 1) + ", ";
      } else {
        pageNumber := "Page " + NatToString(i + 1);
      }
      var overlay := Blank;
      if position == "left" {
        overlay := Drawn(pageNumber, 10, 10);
      } else if position == "middle" {
        overlay := Drawn(pageNumber, 270, 10);
      } else if position == "right" {
        overlay := Drawn(pageNumber, 500, 10);
      }
      page := page.Stamped(overlay);
      writer.AddPage(page);
    }
    out := writer.pages;
  }

  /** extract_pages: the requested 0-based indices that are below the page
      count, in request order, repeats included. */
  method ExtractPages(doc: seq<Page>, pageNumbers: seq<int>) returns (out: seq<Page>)
    requires forall k :: 0 <= k < |pageNumbers| ==> pageNumbers[k] >= 0
    ensures |out| == |KeptIndices(pageNumbers, |doc|)|
    ensures forall j :: 0 <= j < |out| ==>
      0 <= KeptIndices(pageNumbers, |doc|)[j] < |doc| && out[j] == doc[KeptIndices(pageNumbers, |doc|)[j]]
  {
    var writer := new Writer();
    for k := 0 to |pageNumbers|
      invariant |writer.pages| == |KeptIndices(pageNumbers[..k], |doc|)|
      invariant forall j :: 0 <= j < |writer.pages| ==>
        0 <= KeptIndices(pageNumbers[..k], |doc|)[j] < |doc| &&
        writer.pages[j] == doc[KeptIndices(pageNumbers[..k], |doc|)[j]]
    {
      var pageNum := pageNumbers[k];
      assert pageNumbers[..k + 1][..k] == pageNumbers[..k];
      if pageNum < |doc| {
        writer.AddPage(doc[pageNum]);
      }
    }
    assert pageNumbers[..|pageNumbers|] == pageNumbers;
    out := writer.pages;
  }

  /** Index 0 names the first page: a request for [0] on a non-empty document
      extracts exactly its first page. */
  lemma ExtractIndexZeroIsFirstPage(n: nat)
    requires n > 0
    ensures KeptIndices([0], n) == [0]
  {
    KeptIndicesSingle(0, n);
  }

  /** `int` applied to every piece; one bad piece fails the whole list. */
  function ParseAll(pieces: seq<string>): (r: Option<seq<int>>)
    ensures r.Some? ==> |r.value| == |pieces|
    ensures r.Some? <==> forall k :: 0 <= k < |pieces| ==> ParseInt(pieces[k]).Some?
    ensures r.Some? ==> forall k :: 0 <= k < |pieces| ==> r.value[k] == ParseInt(pieces[k]).value
  {
    if |pieces| == 0 then Some([])
    else
      match ParseInt(pieces[0])
      case None => None
      case Some(x) =>
        match ParseAll(pieces[1..])
        case None => None
        case Some(xs) => Some([x] + xs)
  }

  /** `list(map(int, page_numbers.split(',')))`: one number per comma-separated
      piece; an empty or non-numeric piece makes the request fail. */
  function ParsePageList(text: string): (r: Option<seq<int>>)
    ensures r.Some? ==> |r.value| == Count(text, ',') + 1
    ensures r.Some? <==> forall k :: 0 <= k < |Split(text, ',')| ==> ParseInt(Split(text, ',')[k]).Some?
  {
    CountSplit(text, ',');
    ParseAll(Split(text, ','))
  }

  /** An empty piece, between two commas or after a trailing comma, fails the
      request. */
  lemma EmptyPieceFails(text: string, k: nat)
    requires k < |Split(text, ',')| && Split(text, ',')[k] == ""
    ensures ParsePageList(text) == None
  {
  }

  /** A piece holding a character that is neither a digit nor a sign, such as
      the "a" of "1,a", fails the request. */
  lemma NonNumericPieceFails(text: string, k: nat, j: nat)
    requires k < |Split(text, ',')| && j < |Split(text, ',')[k]|
    requires var c := Split(text, ',')[k][j]; !IsDigit(c) && c != '+' && c != '-'
    ensures ParsePageList(text) == None
  {
    var piece := Split(text, ',')[k];
    assert !AllDigits(piece);
    if j > 0 {
      assert piece[1..][j - 1] == piece[j];
    }
    assert ParseInt(piece).None?;
  }

  /** "1,a" is refused. */
  lemma LetterPieceFails()
    ensures ParsePageList("1,a") == None
  {
    var text := "1,a";
    assert Find(text, ',') == 1;
    assert text[2..] == "a";
    assert ',' !in text[2..];
    assert text[..1] == "1";
    assert Split(text[2..], ',') == ["a"];
    assert Split(text, ',') == ["1", "a"];
    NonNumericPieceFails(text, 1, 0);
  }

  /** The page list as the form would have it typed: the numbers in decimal,
      separated by commas. */
  function FormatPageList(xs: seq<int>): string {
    Join(seq(|xs|, k requires 0 <= k < |xs| => IntToString(xs[k])), ',')
  }

  /** Parsing a typed page list gives back the numbers typed. */
  lemma PageListRoundTrip(xs: seq<int>)
    requires |xs| >= 1
    ensures ParsePageList(FormatPageList(xs)) == Some(xs)
  {
    var pieces := seq(|xs|, k requires 0 <= k < |xs| => IntToString(xs[k]));
    forall k | 0 <= k < |pieces| ensures ',' !in pieces[k] {
      NatNoComma(if xs[k] < 0 then -xs[k] else xs[k]);
      if xs[k] < 0 {
        assert pieces[k] == "-" + NatToString(-xs[k]);
      }
    }
    SplitJoin(pieces, ',');
    forall k | 0 <= k < |pieces| ensures ParseInt(pieces[k]) == Some(xs[k]) {
      IntRoundTrip(xs[k]);
    }
    var r := ParsePageList(FormatPageList(xs));
    assert r.Some?;
    assert r.value == xs;
  }

  lemma NatNoComma(n: nat)
    ensures ',' !in NatToString(n)
  {
    var s := NatToString(n);
    assert forall k :: 0 <= k < |s| ==> IsDigit(s[k]);
  }

  /** `f"{os.path.splitext(filename)[0]}_page_numbered.pdf"`: whatever the
      upload's extension, the output is a ".pdf". */
  function PageNumberedFilename(filename: string): (r: string)
    ensures |r| >= 4 && r[|r| - 4..] == ".pdf"
  {
    var r := Splitext(filename).0 + "_page_numbered" + ".pdf";
    assert r[|r| - 4..] == ".pdf";
    r
  }

  /** `f"{os.path.splitext(filename)[0]}_extracted.pdf"`: whatever the upload's
      extension, the output is a ".pdf". */
  function ExtractedFilename(filename: string): (r: string)
    ensures |r| >= 4 && r[|r| - 4..] == ".pdf"
  {
    var r := Splitext(filename).0 + "_extracted" + ".pdf";
    assert r[|r| - 4..] == ".pdf";
    r
  }

  /** Lower-case letters and underscores only. */
  predicate PlainTag(t: string) {
    forall k :: 0 <= k < |t| ==> t[k] == '_' || 'a' <= t[k] <= 'z'
  }

  lemma PlainTagHasNoDot(t: string)
    requires PlainTag(t)
    ensures '.' !in t && '/' !in t
  {
  }

  lemma ExtensionPdf()
    ensures '.' !in ".pdf"[1..] && '/' !in ".pdf"
  {
    assert ".pdf"[1..] == "pdf";
  }

  /** A root followed by a plain tag and ".pdf" splits back into the root with
      the tag, and ".pdf". */
  lemma RetaggedSplits(root: string, tag: string)
    requires PlainTag(tag) && |tag| > 0
    ensures Splitext(root + tag + ".pdf") == (root + tag, ".pdf")
  {
    ExtensionPdf();
    PlainTagHasNoDot(tag);
    TaggedNameSplits(root, tag, ".pdf");
  }

  /** The numbered output is the upload's root with "_page_numbered.pdf";
      split again, it gives back that root with "_page_numbered", and ".pdf". */
  lemma PageNumberedFilenameSplits(filename: string)
    ensures Splitext(PageNumberedFilename(filename)) == (Splitext(filename).0 + "_page_numbered", ".pdf")
  {
    var root := Splitext(filename).0;
    assert PageNumberedFilename(filename) == root + "_page_numbered" + ".pdf";
    RetaggedSplits(root, "_page_numbered");
  }

  /** The extracted output is the upload's root with "_extracted.pdf"; split
      again, it gives back that root with "_extracted", and ".pdf". */
  lemma ExtractedFilenameSplits(filename: string)
    ensures Splitext(ExtractedFilename(filename)) == (Splitext(filename).0 + "_extracted", ".pdf")
  {
    var root := Splitext(filename).0;
    assert ExtractedFilename(filename) == root + "_extracted" + ".pdf";
    RetaggedSplits(root, "_extracted");
  }

  /** Only the last extension is removed: a root with dots in it keeps them. */
  lemma LastExtensionRemoved(root: string, tag: string)
    requires '.' !in tag && '/' !in tag && |tag| > 0
    ensures PageNumberedFilename(root + tag + ".pdf") == root + tag + "_page_numbered.pdf"
  {
    ExtensionPdf();
    TaggedNameSplits(root, tag, ".pdf");
  }

  /** "a.b.pdf" becomes "a.b_page_numbered.pdf". */
  lemma LastExtensionOnly()
    ensures PageNumberedFilename("a.b.pdf") == "a.b_page_numbered.pdf"
  {
    var root, tag, ext := "a.", "b", ".pdf";
    assert '.' !in tag && '/' !in tag;
    ExtensionPdf();
    TaggedNameSplits(root, tag, ext);
    assert root + tag + ext == "a.b.pdf";
    assert Splitext("a.b.pdf").0 == "a.b";
  }

  /** A leading dot does not start an extension: ".pdf" has none, so its
      numbered output is ".pdf_page_numbered.pdf". */
  lemma LeadingDotIsNoExtension()
    ensures Splitext(".pdf") == (".pdf", "")
    ensures PageNumberedFilename(".pdf") == ".pdf_page_numbered.pdf"
  {
    ExtensionPdf();
    LeadingDotOnly(".pdf");
  }
}
