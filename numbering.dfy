/** The page-number label that `add_page_numbers` draws on page i (0-based) of a
    document of `total` pages. The three scripts agree on "simple" and on the
    default, and differ only in what follows the bare number of the "detailed"
    label: ", " in combined.py and app.py, nothing in T.py. */
module Numbering {

  import opened Wrappers
  import opened Decimal
  import opened PdfModel

  /** The label of page i: "Page {i+1} of {total}" for "simple", the number
      followed by the suffix for "detailed", "Page {i+1}" for anything else.
      Only a "detailed" label starts with a digit. */
  function Label(numberingMethod: string, i: nat, total: nat, detailedSuffix: string): (s: string)
    ensures numberingMethod == "detailed" ==> |s| > 0 && IsDigit(s[0])
    ensures numberingMethod != "detailed" ==> |s| > 5 && s[..5] == "Page "
  {
    if numberingMethod == "simple" then "Page " + NatToString(i + 1) + " of " + NatToString(total)
    else if numberingMethod == "detailed" then NatToString(i + 1) + detailedSuffix
    else "Page " + NatToString(i + 1)
  }

  /** The overlay drawn for a label: the label at the anchor, or nothing when
      the position has no anchor. */
  function OverlayAt(anchor: Option<(int, int)>, text: string): (o: Overlay)
    ensures anchor.None? <==> o == Blank
    ensures anchor.Some? ==> o.text == text && (o.x, o.y) == anchor.value
  {
    match anchor
    case None => Blank
    case Some((x, y)) => Drawn(text, x, y)
  }

  /** Different pages of one document never get the same label, whatever the
      numbering method, as long as the detailed suffix does not start with a
      digit. */
  lemma LabelsDistinct(numberingMethod: string, i: nat, j: nat, total: nat, detailedSuffix: string)
    requires detailedSuffix == [] || !IsDigit(detailedSuffix[0])
    requires Label(numberingMethod, i, total, detailedSuffix) == Label(numberingMethod, j, total, detailedSuffix)
    ensures i == j
  {
    if numberingMethod == "simple" {
      var tail := " of " + NatToString(total);
      SimpleLabelShape(i, total, detailedSuffix);
      SimpleLabelShape(j, total, detailedSuffix);
      DropPrefix("Page ", NatToString(i + 1) + tail, NatToString(j + 1) + tail);
      NatToStringPrefixFree(i + 1, tail, j + 1, tail);
    } else if numberingMethod == "detailed" {
      NatToStringPrefixFree(i + 1, detailedSuffix, j + 1, detailedSuffix);
    } else {
      DropPrefix("Page ", NatToString(i + 1), NatToString(j + 1));
      NatToStringInjective(i + 1, j + 1);
    }
  }

  lemma SimpleLabelShape(i: nat, total: nat, detailedSuffix: string)
    ensures Label("simple", i, total, detailedSuffix) == "Page " + (NatToString(i + 1) + (" of " + NatToString(total)))
  {
    var a, t := NatToString(i + 1), NatToString(total);
    assert "Page " + a + " of " + t == "Page " + (a + (" of " + t));
  }

  lemma DropPrefix(p: string, x: string, y: string)
    requires p + x == p + y
    ensures x == y
  {
    assert x == (p + x)[|p|..];
    assert y == (p + y)[|p|..];
  }

  /** The "detailed" label is the 1-based page number followed by the suffix:
      removing the suffix and reading the digits gives i + 1 back. */
  lemma DetailedLabelReadsBack(i: nat, total: nat, detailedSuffix: string)
    ensures var s := Label("detailed", i, total, detailedSuffix);
      |s| >= |detailedSuffix| && s[|s| - |detailedSuffix|..] == detailedSuffix &&
      ParseNat(s[..|s| - |detailedSuffix|]) == Some(i + 1)
  {
    var s := Label("detailed", i, total, detailedSuffix);
    assert s[..|s| - |detailedSuffix|] == NatToString(i + 1);
    NatRoundTrip(i + 1);
  }

  /** The "simple" label names both the page and the page count:
      "Page " + (i + 1) + " of " + total, each number readable back. */
  lemma SimpleLabelReadsBack(i: nat, total: nat, detailedSuffix: string)
    ensures var s := Label("simple", i, total, detailedSuffix);
      var a := |NatToString(i + 1)|;
      |s| == 9 + a + |NatToString(total)| &&
      s[..5] == "Page " && ParseNat(s[5..5 + a]) == Some(i + 1) &&
      s[5 + a..9 + a] == " of " && ParseNat(s[9 + a..]) == Some(total)
  {
    var s := Label("simple", i, total, detailedSuffix);
    var a := NatToString(i + 1);
    assert s[5..5 + |a|] == a;
    assert s[9 + |a|..] == NatToString(total);
    NatRoundTrip(i + 1);
    NatRoundTrip(total);
  }
}
