/** `os.path.splitext` on POSIX paths ('/' separates directories, '.' starts an
    extension), which app.py and combined.py use to name their output files. */
module Paths {

  import opened Strings

  /** Some character of s is not a dot. */
  predicate HasNonDot(s: string) {
    exists k | 0 <= k < |s| :: s[k] != '.'
  }

  /** (root, ext): ext runs from the last '.' to the end, provided that dot lies
      in the last path component and is not one of the dots the component
      starts with; otherwise ext is empty and root is the whole path. */
  function Splitext(p: string): (r: (string, string))
    ensures r.0 + r.1 == p
  {
    var sepIndex := RFind(p, '/');
    var dotIndex := RFind(p, '.');
    if dotIndex > sepIndex && HasNonDot(p[sepIndex + 1..dotIndex]) then
      (p[..dotIndex], p[dotIndex..])
    else
      (p, "")
  }

  /** A non-empty extension is one dot followed by text holding neither a dot
      nor a separator, and the last path component of the root does not
      consist of dots only. */
  lemma SplitextExtension(p: string)
    ensures var (root, ext) := Splitext(p);
      ext != [] ==> ext[0] == '.' && '.' !in ext[1..] && '/' !in ext &&
                    |root| == RFind(p, '.') && HasNonDot(root[RFind(p, '/') + 1..])
  {
    var sepIndex := RFind(p, '/');
    var dotIndex := RFind(p, '.');
    if dotIndex > sepIndex && HasNonDot(p[sepIndex + 1..dotIndex]) {
      var ext := p[dotIndex..];
      forall k | 0 <= k < |ext| ensures ext[k] != '/' {
        assert ext[k] == p[dotIndex + k];
        if k > 0 {
          assert p[dotIndex + 1..][k - 1] == p[dotIndex + k];
        }
        assert p[sepIndex + 1..][dotIndex + k - sepIndex - 1] == p[dotIndex + k];
      }
      assert ext[1..] == p[dotIndex + 1..];
      assert p[..dotIndex][sepIndex + 1..] == p[sepIndex + 1..dotIndex];
    }
  }

  /** A dot that starts the name and is its only dot begins no extension:
      ".pdf" is all root. */
  lemma LeadingDotOnly(p: string)
    requires |p| > 0 && p[0] == '.' && '.' !in p[1..]
    ensures Splitext(p) == (p, "")
  {
    var dotIndex := RFind(p, '.');
    RFindUnique(p, '.', dotIndex, 0);
    var sepIndex := RFind(p, '/');
    if sepIndex < dotIndex {
      assert |p[sepIndex + 1..dotIndex]| == 0;
    }
  }

  /** A root whose last component is not all dots, followed by one dot and text
      with neither a dot nor a separator, splits into that root and that
      extension. */
  lemma ExtensionSplits(root: string, ext: string)
    requires |ext| > 0 && ext[0] == '.' && '.' !in ext[1..] && '/' !in ext
    requires HasNonDot(root[RFind(root, '/') + 1..])
    ensures Splitext(root + ext) == (root, ext)
  {
    var name := root + ext;
    ExtensionDot(root, ext);
    RFindConcatOut(root, ext, '/');
    var sepIndex := RFind(root, '/');
    assert RFind(name, '/') == sepIndex < |root| == RFind(name, '.');
    assert name[sepIndex + 1..|root|] == root[sepIndex + 1..];
    assert name[..|root|] == root && name[|root|..] == ext;
  }

  lemma ExtensionDot(root: string, ext: string)
    requires |ext| > 0 && ext[0] == '.' && '.' !in ext[1..]
    ensures RFind(root + ext, '.') == |root|
  {
    RFindUnique(ext, '.', RFind(ext, '.'), 0);
    RFindConcatIn(root, ext, '.');
  }

  /** Putting a directory-free prefix that does not start with a dot in front
      of a directory-free name with an extension leaves that extension alone. */
  lemma PrefixKeepsExtension(prefix: string, p: string)
    requires |prefix| > 0 && prefix[0] != '.' && '/' !in prefix
    requires '/' !in p && Splitext(p).1 != []
    ensures Splitext(prefix + p).1 == Splitext(p).1
  {
    SplitextExtension(p);
    var root, ext := Splitext(p).0, Splitext(p).1;
    assert '/' !in root by {
      assert forall k :: 0 <= k < |root| ==> root[k] == p[k];
    }
    PrefixedRootHasNonDot(prefix, root);
    assert prefix + p == (prefix + root) + ext;
    ExtensionSplits(prefix + root, ext);
  }

  lemma PrefixedRootHasNonDot(prefix: string, root: string)
    requires |prefix| > 0 && prefix[0] != '.' && '/' !in prefix && '/' !in root
    ensures HasNonDot((prefix + root)[RFind(prefix + root, '/') + 1..])
  {
    var name := prefix + root;
    NotInConcat(prefix, root, '/');
    assert RFind(name, '/') == -1;
    assert name[0..] == name;
    assert name[0] != '.';
  }

  /** Appending a tag and an extension to a root and splitting again gives the
      root with the tag, and the extension, as long as the tag holds no dot and
      no separator and the extension is one dot followed by neither. */
  lemma TaggedNameSplits(root: string, tag: string, ext: string)
    requires '.' !in tag && '/' !in tag && |tag| > 0
    requires |ext| > 0 && ext[0] == '.' && '.' !in ext[1..] && '/' !in ext
    ensures Splitext(root + tag + ext) == (root + tag, ext)
  {
    var name := root + tag + ext;
    var dotIndex := |root| + |tag|;
    TaggedNameDot(root, tag, ext);
    TaggedNameSep(root, tag, ext);
    var sepIndex := RFind(name, '/');
    var component := name[sepIndex + 1..dotIndex];
    assert component[|root| - sepIndex - 1] == tag[0];
    assert tag[0] != '.';
    assert HasNonDot(component);
    assert name[..dotIndex] == root + tag;
    assert name[dotIndex..] == ext;
  }

  lemma TaggedNameDot(root: string, tag: string, ext: string)
    requires '.' !in tag
    requires |ext| > 0 && ext[0] == '.' && '.' !in ext[1..]
    ensures RFind(root + tag + ext, '.') == |root| + |tag|
  {
    RFindUnique(ext, '.', RFind(ext, '.'), 0);
    RFindConcatIn(tag, ext, '.');
    RFindConcatIn(root, tag + ext, '.');
    assert root + tag + ext == root + (tag + ext);
  }

  lemma TaggedNameSep(root: string, tag: string, ext: string)
    requires '/' !in tag && '/' !in ext
    ensures RFind(root + tag + ext, '/') < |root|
  {
    var tail := tag + ext;
    NotInConcat(tag, ext, '/');
    RFindConcatOut(root, tail, '/');
    assert root + tag + ext == root + tail;
  }

  /** The last occurrence of c in a + b lies in b when b holds one. */
  lemma RFindConcatIn(a: string, b: string, c: char)
    requires c in b
    ensures RFind(a + b, c) == |a| + RFind(b, c)
  {
    var s := a + b;
    var r, rb := RFind(s, c), RFind(b, c);
    assert s[|a| + rb] == c;
    assert s[|a| + rb + 1..] == b[rb + 1..];
    RFindUnique(s, c, r, |a| + rb);
  }

  /** The last occurrence of c in a + b lies in a when b holds none. */
  lemma RFindConcatOut(a: string, b: string, c: char)
    requires c !in b
    ensures RFind(a + b, c) == RFind(a, c)
  {
    var s := a + b;
    var r, ra := RFind(s, c), RFind(a, c);
    if ra >= 0 {
      assert s[ra] == c;
      assert s[ra + 1..] == a[ra + 1..] + b;
      RFindUnique(s, c, r, ra);
    } else {
      NotInConcat(a, b, c);
    }
  }

  /** At most one index holds the last occurrence of c. */
  lemma RFindUnique(s: string, c: char, i: int, j: int)
    requires 0 <= i < |s| && s[i] == c && c !in s[i + 1..]
    requires 0 <= j < |s| && s[j] == c && c !in s[j + 1..]
    ensures i == j
  {
    forall k | i < k < |s| ensures s[k] != c {
      assert s[i + 1..][k - i - 1] == s[k];
    }
    forall k | j < k < |s| ensures s[k] != c {
      assert s[j + 1..][k - j - 1] == s[k];
    }
  }
}
