/** The page-level view of a PDF that the scripts work with. A document is the
    reader's ordered page list; a page is an opaque handle with its /Rotate
    entry and the in-place edits a script has applied to it; an output document
    is a writer that pages are appended to. */
module PdfModel {

  /** What a reportlab canvas drew for one label: either nothing (an unknown
      position draws no string, but the blank canvas is still merged) or one
      string at a point, in 10pt Helvetica. */
  datatype Overlay = Blank | Drawn(text: string, x: int, y: int)

  /** An in-place change made to a page object before it is added to a writer. */
  datatype Edit =
    | RotateBy(degrees: int)     // page.rotate(degrees); its effect is PyPDF2's
    | MergeOverlay(overlay: Overlay)  // page.merge_page(overlay page)

  /** A page of an input document: which page it is (opaque), its /Rotate entry
      as read from the file (0 when absent), and the edits applied to it,
      oldest first. A rotate edit is logged, not applied to `rotation`. */
  datatype Page = Page(id: nat, rotation: int, edits: seq<Edit>) {

    function Rotated(degrees: int): (p: Page)
      ensures p.id == id && p.rotation == rotation
      ensures p.edits == edits + [RotateBy(degrees)]
    {
      this.(edits := edits + [RotateBy(degrees)])
    }

    function Stamped(o: Overlay): (p: Page)
      ensures p.id == id && p.rotation == rotation
      ensures p.edits == edits + [MergeOverlay(o)]
    {
      this.(edits := edits + [MergeOverlay(o)])
    }
  }

  /** An output document being built, as PdfWriter: pages are only appended. */
  class Writer {
    var pages: seq<Page>

    constructor ()
      ensures pages == []
    {
      pages := [];
    }

    method AddPage(p: Page)
      modifies this
      ensures pages == old(pages) + [p]
    {
      pages := pages + [p];
    }
  }

  /** The concatenation of a list of sequences, in list order: the pages of
      several documents one after another, or the text of several pages. */
  function Flatten<T>(xss: seq<seq<T>>): seq<T> {
    if |xss| == 0 then [] else xss[0] + Flatten(xss[1..])
  }

  /** The sum of the lengths of a list of sequences. */
  function TotalLength<T>(xss: seq<seq<T>>): nat {
    if |xss| == 0 then 0 else |xss[0]| + TotalLength(xss[1..])
  }

  /** Appending one more sequence at the end appends its elements at the end. */
  lemma {:induction false} FlattenSnoc<T>(xss: seq<seq<T>>, xs: seq<T>)
    ensures Flatten(xss + [xs]) == Flatten(xss) + xs
  {
    if |xss| > 0 {
      assert (xss + [xs])[1..] == xss[1..] + [xs];
      FlattenSnoc(xss[1..], xs);
    } else {
      assert xss + [xs] == [xs];
    }
  }

  /** The concatenation holds exactly as many elements as its parts together. */
  lemma {:induction false} FlattenLength<T>(xss: seq<seq<T>>)
    ensures |Flatten(xss)| == TotalLength(xss)
  {
    if |xss| > 0 {
      FlattenLength(xss[1..]);
    }
  }

  /** Element k of part j sits in the concatenation right after the elements of
      the parts before j. */
  lemma {:induction false} FlattenAt<T>(xss: seq<seq<T>>, j: nat, k: nat)
    requires j < |xss| && k < |xss[j]|
    ensures TotalLength(xss[..j]) + k < |Flatten(xss)|
    ensures Flatten(xss)[TotalLength(xss[..j]) + k] == xss[j][k]
  {
    FlattenLength(xss);
    if j > 0 {
      FlattenAt(xss[1..], j - 1, k);
      assert xss[..j][1..] == xss[1..][..j - 1];
      FlattenLength(xss[1..]);
    } else {
      assert xss[..j] == [];
    }
  }

  /** The requested page indices that pass the guard `index < n`, in request
      order and with repeats kept. */
  function KeptIndices(requested: seq<int>, n: nat): (kept: seq<int>)
    ensures |kept| <= |requested|
    ensures forall j :: 0 <= j < |kept| ==> kept[j] < n && kept[j] in requested
  {
    if |requested| == 0 then []
    else
      var last := requested[|requested| - 1];
      var front := KeptIndices(requested[..|requested| - 1], n);
      assert forall j :: 0 <= j < |front| ==> front[j] in requested by {
        assert forall x :: x in requested[..|requested| - 1] ==> x in requested;
      }
      front + (if last < n then [last] else [])
  }

  /** Keeping indices distributes over concatenated requests: the selection is
      made entry by entry, so request order and repeats carry over. */
  lemma {:induction false} KeptIndicesConcat(a: seq<int>, b: seq<int>, n: nat)
    ensures KeptIndices(a + b, n) == KeptIndices(a, n) + KeptIndices(b, n)
  {
    if |b| == 0 {
      assert a + b == a;
    } else {
      var b' := b[..|b| - 1];
      assert (a + b)[..|a + b| - 1] == a + b';
      KeptIndicesConcat(a, b', n);
    }
  }

  /** One request is kept exactly when it is below n. */
  lemma KeptIndicesSingle(k: int, n: nat)
    ensures KeptIndices([k], n) == if k < n then [k] else []
  {
    assert [k][..0] == [];
  }

  /** When every request is below n, nothing is dropped. */
  lemma {:induction false} KeptIndicesAll(requested: seq<int>, n: nat)
    requires forall j :: 0 <= j < |requested| ==> requested[j] < n
    ensures KeptIndices(requested, n) == requested
  {
    if |requested| > 0 {
      var front := requested[..|requested| - 1];
      KeptIndicesAll(front, n);
      assert front + [requested[|requested| - 1]] == requested;
    }
  }
}
