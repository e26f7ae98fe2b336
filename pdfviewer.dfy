/** Pdfviewer.py: the extension check on uploads and the decision the upload
    route takes from it. */
module Pdfviewer {

  import opened Strings

  const AllowedExtensions: set<string> := {"pdf"}

  /** The name ends in "." and "pdf", the letters in any case. */
  predicate EndsWithPdf(filename: string) {
    |filename| >= 4 && filename[|filename| - 4] == '.' && Lower(filename[|filename| - 3..]) == "pdf"
  }

  /** `'.' in filename and filename.rsplit('.', 1)[1].lower() in
      ALLOWED_EXTENSIONS`: the text after the last dot, lower-cased, is an
      allowed extension. A name is allowed exactly when it ends in ".pdf",
      letters in any case. */
  function AllowedFile(filename: string): (allowed: bool)
    ensures allowed <==> EndsWithPdf(filename)
  {
    AllowedExtensionIsSuffix(filename);
    SuffixIsAllowedExtension(filename);
    '.' in filename && Lower(filename[RFind(filename, '.') + 1..]) in AllowedExtensions
  }

  /** An allowed extension after the last dot means the name ends in ".pdf". */
  lemma AllowedExtensionIsSuffix(filename: string)
    ensures '.' in filename && Lower(filename[RFind(filename, '.') + 1..]) in AllowedExtensions ==>
            EndsWithPdf(filename)
  {
    if '.' !in filename || Lower(filename[RFind(filename, '.') + 1..]) !in AllowedExtensions {
      return;
    }
    var n, dot := |filename|, RFind(filename, '.');
    var ext := filename[dot + 1..];
    assert Lower(ext) == "pdf";
    assert |ext| == 3;
    assert dot == n - 4;
    assert filename[n - 3..] == ext;
  }

  /** A name ending in ".pdf" passes the test on its last extension. */
  lemma SuffixIsAllowedExtension(filename: string)
    ensures EndsWithPdf(filename) ==>
            '.' in filename && Lower(filename[RFind(filename, '.') + 1..]) in AllowedExtensions
  {
    if !EndsWithPdf(filename) {
      return;
    }
    var n := |filename|;
    var ext := filename[n - 3..];
    assert Lower(ext) == "pdf";
    assert '.' !in ext by {
      forall k | 0 <= k < 3 ensures ext[k] != '.' {
        assert LowerChar(ext[k]) == "pdf"[k];
      }
    }
    assert filename[n - 4 + 1..] == ext;
    RFindLast(filename, '.', n - 4);
  }

  /** An index that holds c with no c after it is the last occurrence. */
  lemma RFindLast(s: string, c: char, i: int)
    requires 0 <= i < |s| && s[i] == c && c !in s[i + 1..]
    ensures RFind(s, c) == i
  {
    var r := RFind(s, c);
    forall k | i < k < |s| ensures s[k] != c {
      assert s[i + 1..][k - i - 1] == s[k];
    }
    forall k | r < k < |s| ensures s[k] != c {
      assert s[r + 1..][k - r - 1] == s[k];
    }
  }

  /** No dot, no upload: "report" is refused. */
  lemma NoDotRefused(filename: string)
    requires '.' !in filename
    ensures !AllowedFile(filename)
  {
  }

  /** Only the text after the last dot is tested. */
  lemma OnlyLastExtensionCounts()
    ensures !AllowedFile("a.pdf.exe")
    ensures AllowedFile("a.exe.pdf")
  {
    var bad, good := "a.pdf.exe", "a.exe.pdf";
    assert Lower(bad[6..])[0] == 'e';
    assert Lower(good[6..]) == "pdf";
  }

  /** The comparison ignores case. */
  lemma ExtensionCaseIgnored()
    ensures AllowedFile("X.PDF")
  {
    var name := "X.PDF";
    assert Lower(name[2..]) == "pdf";
  }

  /** An empty extension is refused, an empty stem is not. */
  lemma EmptyExtensionRefusedEmptyStemAllowed()
    ensures !AllowedFile("name.")
    ensures AllowedFile(".pdf")
  {
    var bad, good := "name.", ".pdf";
    assert bad[1] != '.';
    assert Lower(good[1..]) == "pdf";
  }

  /** What the upload route answers. */
  datatype Response =
    | SavedAndRedirected        // file saved under its secured name, viewer shown
    | Rejected(status: nat, message: string)

  /** upload_file: a missing file part and a file that is empty-named or not a
      PDF are both answered with 400; otherwise the file is saved and the
      browser sent to the viewer. */
  function UploadFile(hasFilePart: bool, filename: string): (r: Response)
    ensures r == SavedAndRedirected <==> hasFilePart && AllowedFile(filename)
    ensures r.Rejected? ==> r.status == 400
    ensures !hasFilePart ==> r == Rejected(400, "No file part")
    ensures hasFilePart && !AllowedFile(filename) ==> r == Rejected(400, "Invalid file format")
  {
    if !hasFilePart then Rejected(400, "No file part")
    else if filename != "" && AllowedFile(filename) then SavedAndRedirected
    else Rejected(400, "Invalid file format")
  }
}
