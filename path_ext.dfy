/**
 * `os.path.splitext` on POSIX paths: the extension is the part from the last
 * dot of the last path component, unless every character of that component
 * before the dot is itself a dot (a leading-dot name such as `.pdf` has no
 * extension).
 */
module PathExt {

  /** `s.rfind(c)`: the last index holding `c`, or -1. */
  function RFind(s: string, c: char): (r: int)
    ensures -1 <= r < |s|
    ensures r >= 0 ==> s[r] == c
    ensures forall j :: r < j < |s| ==> s[j] != c
  {
    if s == [] then -1
    else if s[|s| - 1] == c then |s| - 1
    else RFind(s[..|s| - 1], c)
  }

  /** True iff some character of `s[lo..hi]` is not a dot. */
  predicate HasNonDot(s: string, lo: int, hi: int)
    requires 0 <= lo <= hi <= |s|
  {
    exists k :: lo <= k < hi && s[k] != '.'
  }

  /** `os.path.splitext(p)` as the pair (root, ext). */
  function SplitExt(p: string): (r: (string, string))
    ensures r.0 + r.1 == p
    ensures r.1 == "" || (r.1[0] == '.' && forall j :: 0 < j < |r.1| ==> r.1[j] != '.' && r.1[j] != '/')
    ensures r.1 != "" ==> r.1[0] == '.' && '/' !in r.1
  {
    var sepIndex := RFind(p, '/');
    var dotIndex := RFind(p, '.');
    if dotIndex > sepIndex && HasNonDot(p, sepIndex + 1, dotIndex) then
      assert p == p[..dotIndex] + p[dotIndex..];
      (p[..dotIndex], p[dotIndex..])
    else
      (p, "")
  }

  /** The extension of `p`, dot included; empty when `p` has none. */
  function Extension(p: string): string
  {
    SplitExt(p).1
  }

  /** True iff the last path component of `p` has a character other than a dot. */
  predicate LastComponentHasNonDot(p: string)
  {
    HasNonDot(p, RFind(p, '/') + 1, |p|)
  }

  /** True iff `ext` has the shape of an extension: a dot, then no dot and no slash. */
  predicate IsExtension(ext: string)
  {
    |ext| > 0 && ext[0] == '.' && forall j :: 0 < j < |ext| ==> ext[j] != '.' && ext[j] != '/'
  }

  /**
   * Appending an extension to a path whose last component is not all dots
   * makes that extension the path's extension.
   */
  lemma ExtensionOfAppend(base: string, ext: string)
    requires LastComponentHasNonDot(base) && IsExtension(ext)
    ensures SplitExt(base + ext) == (base, ext)
  {
    var p := base + ext;
    var sep := RFind(base, '/');
    forall j | |base| <= j < |p| ensures p[j] != '/' {
      assert p[j] == ext[j - |base|];
    }
    forall j | sep < j < |base| ensures p[j] != '/' {
      assert p[j] == base[j];
    }
    assert sep >= 0 ==> p[sep] == '/';
    assert RFind(p, '/') == sep;
    forall j | |base| < j < |p| ensures p[j] != '.' {
      assert p[j] == ext[j - |base|];
    }
    assert p[|base|] == '.';
    assert RFind(p, '.') == |base|;
    var k :| sep + 1 <= k < |base| && base[k] != '.';
    assert p[k] == base[k];
    assert HasNonDot(p, sep + 1, |base|);
    assert p[..|base|] == base;
    assert p[|base|..] == ext;
  }

  /** The extension keeps its letter case. */
  lemma ExtensionKeepsCase()
    ensures Extension("CV.PDF") == ".PDF"
  {
    assert RFind("CV", '/') == -1 && "CV"[0] != '.';
    assert IsExtension(".PDF");
    ExtensionOfAppend("CV", ".PDF");
    assert "CV" + ".PDF" == "CV.PDF";
  }

  /** Only the last extension is split off. */
  lemma ExtensionIsLast()
    ensures Extension("cv.pdf.exe") == ".exe"
  {
    assert "cv.pdf.exe"[6] == '.' && "cv.pdf.exe"[7..] == "exe";
    assert RFind("cv.pdf.exe", '.') == 6;
    assert RFind("cv.pdf.exe", '/') == -1;
    assert "cv.pdf.exe"[0] != '.';
    assert HasNonDot("cv.pdf.exe", 0, 6);
    assert "cv.pdf.exe"[6..] == ".exe";
  }

  /** A name without a dot has no extension. */
  lemma ExtensionOfPlainName()
    ensures Extension("cv") == ""
  {
    assert RFind("cv", '.') == -1;
  }

  /** A dot-file has no extension, in the current directory or below another. */
  lemma ExtensionOfDotFile()
    ensures Extension(".pdf") == ""
    ensures Extension("docs/.pdf") == ""
  {
    assert ".pdf"[0] == '.' && ".pdf"[1..] == "pdf";
    assert RFind(".pdf", '.') == 0;
    assert "docs/.pdf"[4] == '/' && "docs/.pdf"[5] == '.' && "docs/.pdf"[6..] == "pdf";
    assert RFind("docs/.pdf", '/') == 4;
    assert RFind("docs/.pdf", '.') == 5;
  }

  /** A dot in a directory name is not an extension. */
  lemma ExtensionIgnoresDirectories()
    ensures Extension("dir.d/cv") == ""
  {
    assert RFind("dir.d/cv", '/') == 5;
    assert "dir.d/cv"[3] == '.' && "dir.d/cv"[4..] == "d/cv";
    assert RFind("dir.d/cv", '.') == 3;
  }
}
