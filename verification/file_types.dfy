/**
 The file-type dispatch of `extract_pages_from_file` (utils/extract.py,
 lines 29-38): the extension, found as `os.path.splitext` finds it on POSIX
 and lower-cased, picks one of three document loaders; anything else is an
 "Unsupported file type" error.
 */
module FileTypes {
  import opened Strings

  datatype Result<T> = Ok(value: T) | Err(message: string)

  /** The three loaders of lines 32, 34 and 36. */
  datatype Loader = PyPdf | Text | UnstructuredWord

  // ---------------------------------------------------------------------
  // os.path.splitext (line 29)
  // ---------------------------------------------------------------------

  /** Every character of `w` is a dot. */
  predicate AllDots(w: string) {
    forall k :: 0 <= k < |w| ==> w[k] == '.'
  }

  /** Where `os.path.splitext(p)` with `/` as the only separator puts the
      extension: at the last dot, provided that dot is inside the last
      path component and not preceded there by dots only (so `.bashrc`
      and `..` have no extension); otherwise at the end of `p`. */
  function ExtensionStart(p: string): (k: int)
    ensures 0 <= k <= |p|
    ensures k < |p| ==> p[k] == '.' && forall j :: k < j < |p| ==> p[j] != '.' && p[j] != '/'
  {
    var s := LastIndex(p, '/');
    var d := LastIndex(p, '.');
    if d > s && !AllDots(p[s + 1..d]) then d else |p|
  }

  /** The shape of a non-empty extension: one dot, then neither dots nor
      separators. */
  predicate ExtensionShape(e: string) {
    |e| > 0 && e[0] == '.' && forall k :: 1 <= k < |e| ==> e[k] != '.' && e[k] != '/'
  }

  /** The pair `os.path.splitext` returns. */
  datatype Split = Split(root: string, ext: string)

  /** `os.path.splitext(p)`: the root and the extension. */
  function SplitExt(p: string): (r: Split)
    ensures r.root + r.ext == p
    ensures r.ext == [] || ExtensionShape(r.ext)
  {
    var k := ExtensionStart(p);
    assert p[..k] + p[k..] == p;
    Split(p[..k], p[k..])
  }

  /** No `/` from index `i` on. */
  predicate NoSlashFrom(p: string, i: int)
    requires 0 <= i <= |p|
  {
    forall k :: i <= k < |p| ==> p[k] != '/'
  }

  /** An independent description of when a path has an extension: some
      dot comes after some character that is not a dot, with no `/` from
      that character on. */
  predicate HasExtension(p: string) {
    exists i, j :: 0 <= i < j < |p| && ExtensionDot(p, i, j)
  }

  /** The dot at `j` follows the non-dot at `i`, with no `/` from `i` on. */
  predicate ExtensionDot(p: string, i: int, j: int) {
    0 <= i < j < |p| && p[i] != '.' && p[j] == '.' && NoSlashFrom(p, i)
  }

  /** An extension comes from a dot of the kind `HasExtension` asks
      for. */
  lemma ExtensionHasWitness(p: string)
    requires ExtensionStart(p) < |p|
    ensures HasExtension(p)
  {
    var s := LastIndex(p, '/');
    var d := LastIndex(p, '.');
    assert d > s && !AllDots(p[s + 1..d]);
    var k :| 0 <= k < |p[s + 1..d]| && p[s + 1..d][k] != '.';
    var i := s + 1 + k;
    assert p[i] != '.';
    assert NoSlashFrom(p, i);
    assert ExtensionDot(p, i, d);
  }

  /** A dot of the kind `HasExtension` asks for gives an extension. */
  lemma WitnessGivesExtension(p: string, i: int, j: int)
    requires ExtensionDot(p, i, j)
    ensures ExtensionStart(p) < |p|
  {
    var s := LastIndex(p, '/');
    var d := LastIndex(p, '.');
    assert s < i by {
      assert 0 <= s ==> p[s] == '/';
    }
    assert j <= d;
    assert !AllDots(p[s + 1..d]) by {
      assert p[s + 1..d][i - s - 1] == p[i];
    }
  }

  /** The extension is non-empty exactly when the path has one. */
  lemma SplitExtFindsExtension(p: string)
    ensures SplitExt(p).ext != [] <==> HasExtension(p)
  {
    if ExtensionStart(p) < |p| {
      ExtensionHasWitness(p);
    }
    if HasExtension(p) {
      var i, j :| 0 <= i < j < |p| && ExtensionDot(p, i, j);
      WitnessGivesExtension(p, i, j);
    }
  }

  /** In a stem followed by an extension, the last dot is the
      extension's. */
  lemma LastDotOfName(stem: string, ext: string)
    requires ExtensionShape(ext)
    ensures LastIndex(stem + ext, '.') == |stem|
  {
    var p := stem + ext;
    forall j | |stem| < j < |p|
      ensures p[j] != '.'
    {
      assert p[j] == ext[j - |stem|];
    }
    LastIndexIs(p, '.', |stem|);
  }

  /** In a stem followed by an extension, the last `/` is the stem's. */
  lemma LastSlashOfName(stem: string, ext: string)
    requires ExtensionShape(ext)
    ensures LastIndex(stem + ext, '/') == LastIndex(stem, '/')
  {
    assert '/' !in ext by {
      forall k | 0 <= k < |ext|
        ensures ext[k] != '/'
      {
      }
    }
    LastIndexAppend(stem, ext, '/');
  }

  /** A name made of a stem and a one-dot extension splits back into the
      two, provided the stem's last path component is not all dots. */
  lemma SplitExtOfName(stem: string, ext: string)
    requires ExtensionShape(ext)
    requires !AllDots(stem[LastIndex(stem, '/') + 1..])
    ensures SplitExt(stem + ext) == Split(stem, ext)
  {
    var p := stem + ext;
    var s := LastIndex(stem, '/');
    LastSlashOfName(stem, ext);
    LastDotOfName(stem, ext);
    assert p[s + 1..|stem|] == stem[s + 1..];
    assert ExtensionStart(p) == |stem|;
    assert p[..|stem|] == stem && p[|stem|..] == ext;
    assert SplitExt(p) == Split(p[..|stem|], p[|stem|..]);
  }

  /** The last `c` is at `k` when `s[k]` is `c` and none follows. */
  lemma LastIndexIs(s: string, c: char, k: int)
    requires 0 <= k < |s| && s[k] == c
    requires forall j :: k < j < |s| ==> s[j] != c
    ensures LastIndex(s, c) == k
  {
  }

  /** `LastIndex` in `a + b` when `c` does not occur in `b`. */
  lemma {:induction false} LastIndexAppend(a: string, b: string, c: char)
    requires c !in b
    ensures LastIndex(a + b, c) == LastIndex(a, c)
    decreases |b|
  {
    if |b| > 0 {
      var ab := a + b;
      assert ab[|ab| - 1] == b[|b| - 1];
      assert ab[..|ab| - 1] == a + b[..|b| - 1];
      LastIndexAppend(a, b[..|b| - 1], c);
    } else {
      assert a + b == a;
    }
  }

  // ---------------------------------------------------------------------
  // str.lower (line 29)
  // ---------------------------------------------------------------------

  /** Lower-case of one character: `A`-`Z` map to `a`-`z`. */
  function LowerChar(c: char): (l: char)
    ensures 'A' <= c <= 'Z' ==> 'a' <= l <= 'z' && l as int - c as int == 32
    ensures !('A' <= c <= 'Z') ==> l == c
  {
    if 'A' <= c <= 'Z' then (c as int + 32) as char else c
  }

  /** Lower-case of a string, character by character. */
  function Lower(s: string): (r: string)
    ensures |r| == |s|
    ensures forall i :: 0 <= i < |s| ==> r[i] == LowerChar(s[i])
    decreases |s|
  {
    if |s| == 0 then [] else [LowerChar(s[0])] + Lower(s[1..])
  }

  // ---------------------------------------------------------------------
  // Loader dispatch (lines 29-38)
  // ---------------------------------------------------------------------

  /** The lower-cased extension that the dispatch compares. */
  function Extension(path: string): (e: string)
    ensures e == [] || ExtensionShape(e)
  {
    Lower(SplitExt(path).ext)
  }

  /** The extensions the dispatch accepts. */
  const Supported: set<string> := {".pdf", ".txt", ".docx", ".doc"}

  /** The error raised for any other extension. */
  function Unsupported(ext: string): string {
    "Unsupported file type: " + ext
  }

  /** The dispatch on an extension that is already lower-cased: one of
      the three loaders, or the "Unsupported file type" error. */
  function LoaderFor(ext: string): (r: Result<Loader>)
    ensures r.Ok? <==> ext in Supported
    ensures r.Err? ==> r.message == Unsupported(ext)
    ensures r == Ok(PyPdf) <==> ext == ".pdf"
    ensures r == Ok(Text) <==> ext == ".txt"
    ensures r == Ok(UnstructuredWord) <==> ext in {".docx", ".doc"}
  {
    if ext == ".pdf" then Ok(PyPdf)
    else if ext == ".txt" then Ok(Text)
    else if ext == ".docx" || ext == ".doc" then Ok(UnstructuredWord)
    else Err(Unsupported(ext))
  }

  /** Picks the loader for `path` by its lower-cased extension, or
      fails. */
  function SelectLoader(path: string): (r: Result<Loader>)
    ensures r.Ok? <==> Extension(path) in Supported
    ensures r.Err? ==> r.message == Unsupported(Extension(path))
  {
    LoaderFor(Extension(path))
  }

  /** Lower-casing never creates or removes a `/` or a `.`. */
  lemma {:induction false} LastIndexLower(p: string, q: string, c: char)
    requires Lower(p) == Lower(q) && !('A' <= c <= 'Z') && !('a' <= c <= 'z')
    ensures LastIndex(p, c) == LastIndex(q, c)
    decreases |p|
  {
    assert |p| == |q|;
    if |p| > 0 {
      assert LowerChar(p[|p| - 1]) == LowerChar(q[|q| - 1]);
      assert Lower(p[..|p| - 1]) == Lower(p)[..|p| - 1];
      assert Lower(q[..|q| - 1]) == Lower(q)[..|q| - 1];
      LastIndexLower(p[..|p| - 1], q[..|q| - 1], c);
    }
  }

  /** Strings equal up to case have suffixes equal up to case. */
  lemma LowerSuffix(p: string, q: string, k: int)
    requires Lower(p) == Lower(q) && 0 <= k <= |p|
    ensures Lower(p[k..]) == Lower(q[k..])
  {
    var a, b := Lower(p[k..]), Lower(q[k..]);
    forall i | 0 <= i < |a|
      ensures a[i] == b[i]
    {
      assert p[k..][i] == p[k + i] && q[k..][i] == q[k + i];
      assert LowerChar(p[k + i]) == Lower(p)[k + i];
    }
  }

  /** Lower-casing keeps dots where they are. */
  lemma AllDotsLower(p: string, q: string, i: int, j: int)
    requires Lower(p) == Lower(q) && 0 <= i <= j <= |p|
    ensures AllDots(p[i..j]) <==> AllDots(q[i..j])
  {
    forall k | 0 <= k < j - i
      ensures p[i..j][k] == '.' <==> q[i..j][k] == '.'
    {
      assert LowerChar(p[i + k]) == LowerChar(q[i + k]);
    }
  }

  /** The dispatch ignores case: paths that differ only in the case of
      their letters get the same loader or the same error. */
  lemma SelectLoaderIgnoresCase(p: string, q: string)
    requires Lower(p) == Lower(q)
    ensures Extension(p) == Extension(q)
    ensures SelectLoader(p) == SelectLoader(q)
  {
    SplitExtLower(p, q);
  }

  /** Paths that differ only in case have their extension at the same
      place. */
  lemma ExtensionStartLower(p: string, q: string)
    requires Lower(p) == Lower(q)
    ensures ExtensionStart(p) == ExtensionStart(q)
  {
    var s := LastIndex(p, '/');
    var d := LastIndex(p, '.');
    LastIndexLower(p, q, '/');
    LastIndexLower(p, q, '.');
    if d > s {
      AllDotsLower(p, q, s + 1, d);
    }
  }

  /** Splitting paths that differ only in case gives extensions that
      differ only in case. */
  lemma SplitExtLower(p: string, q: string)
    requires Lower(p) == Lower(q)
    ensures Lower(SplitExt(p).ext) == Lower(SplitExt(q).ext)
  {
    ExtensionStartLower(p, q);
    LowerSuffix(p, q, ExtensionStart(p));
  }

  /** A dot followed by lower-case letters. */
  predicate DotWord(l: string) {
    |l| > 0 && l[0] == '.' && forall k :: 1 <= k < |l| ==> 'a' <= l[k] <= 'z'
  }

  /** Every supported extension is a dot followed by lower-case letters. */
  lemma SupportedAreDotWords()
    ensures forall x :: x in Supported ==> DotWord(x)
  {
  }

  /** A string whose lower-case is a dot word is one dot followed by
      letters, upper- or lower-case. */
  lemma DotWordShape(e: string)
    requires DotWord(Lower(e))
    ensures ExtensionShape(e)
  {
    assert LowerChar(e[0]) == '.';
    forall k | 1 <= k < |e|
      ensures e[k] != '.' && e[k] != '/'
    {
      assert 'a' <= LowerChar(e[k]) <= 'z';
    }
  }

  /** Whatever its case, a supported extension is one dot followed by
      letters. */
  lemma SupportedShape(e: string)
    requires Lower(e) in Supported
    ensures ExtensionShape(e)
    ensures forall k :: 1 <= k < |e| ==> 'a' <= LowerChar(e[k]) <= 'z'
  {
    SupportedAreDotWords();
    DotWordShape(e);
  }

  /** A name whose extension is any spelling of `.pdf`, `.txt`, `.docx` or
      `.doc` is accepted, and `.doc` and `.docx` share the Word loader. */
  lemma SupportedNames(stem: string, ext: string)
    requires !AllDots(stem[LastIndex(stem, '/') + 1..])
    requires Lower(ext) in Supported
    ensures SelectLoader(stem + ext).Ok?
    ensures Lower(ext) in {".docx", ".doc"} ==> SelectLoader(stem + ext) == Ok(UnstructuredWord)
  {
    SupportedShape(ext);
    SplitExtOfName(stem, ext);
    assert Extension(stem + ext) == Lower(ext);
  }

  /** `.pdf` as a whole path is a dot file: its only dot starts its
      last component. */
  lemma DotFileHasNoExtension()
    ensures SplitExt(".pdf").ext == []
  {
    var p := ".pdf";
    assert '/' !in p;
    LastIndexIs(p, '.', 0);
    assert ExtensionStart(p) == |p|;
  }

  /** A dot file such as `.pdf` has no extension, so it is refused with an
      empty extension in the message. */
  lemma DotFileIsRefused()
    ensures SelectLoader(".pdf") == Err(Unsupported(""))
  {
    DotFileHasNoExtension();
    assert Lower([]) == [];
    assert Extension(".pdf") == [];
    assert LoaderFor([]) == Err(Unsupported(""));
  }
}
