/**
 * The upload validator that checks a file's extension against an allowed
 * list, case-insensitively, and the CV instance of it that allows only PDF.
 */
module Validators {

  import opened Text
  import PathExt

  /** Returning normally, or raising `ValidationError` with a message. */
  datatype Outcome = Accepted | Rejected(message: string)

  /** One character of a Python string literal delimited by `quote`. */
  function ReprChar(c: char, quote: char): string
  {
    if c == quote || c == '\\' then ['\\', c]
    else if c == '\n' then "\\n"
    else if c == '\r' then "\\r"
    else if c == '\t' then "\\t"
    else [c]
  }

  function ReprBody(s: string, quote: char): string
  {
    if s == [] then "" else ReprChar(s[0], quote) + ReprBody(s[1..], quote)
  }

  /**
   * `repr(s)` for a string: single quotes unless the string holds a single
   * quote and no double quote.
   */
  function Repr(s: string): (r: string)
    ensures |r| >= 2 && r[0] == r[|r| - 1] && (r[0] == '\'' || r[0] == '"')
  {
    var quote := if '\'' in s && '"' !in s then '"' else '\'';
    [quote] + ReprBody(s, quote) + [quote]
  }

  /** A string free of quotes, backslashes and the escaped control characters is its own body. */
  lemma ReprPlain(s: string)
    requires forall i :: 0 <= i < |s| ==> s[i] !in {'\'', '"', '\\', '\n', '\r', '\t'}
    ensures Repr(s) == "'" + s + "'"
  {
    var q := '\'';
    assert '\'' !in s;
    PlainBody(s, q);
  }

  lemma {:induction false} PlainBody(s: string, q: char)
    requires q == '\''
    requires forall i :: 0 <= i < |s| ==> s[i] !in {'\'', '"', '\\', '\n', '\r', '\t'}
    ensures ReprBody(s, q) == s
  {
    if s != [] {
      PlainBody(s[1..], q);
      assert s == [s[0]] + s[1..];
    }
  }

  /** `map(repr, exts)`. */
  function ReprAll(exts: seq<string>): (r: seq<string>)
    ensures |r| == |exts| && forall i :: 0 <= i < |exts| ==> r[i] == Repr(exts[i])
  {
    if exts == [] then [] else [Repr(exts[0])] + ReprAll(exts[1..])
  }

  /** The message `FileExtensionValidator` raises: every allowed extension, repr'd, joined by commas. */
  function RejectionMessage(validExt: seq<string>): string
  {
    "File Extension not allowed: Must be one of " + Join(",", ReprAll(validExt)) + "."
  }

  /**
   * `FileExtensionValidator(valid_ext)(instance, file)`: the lower-cased
   * extension of the file's name must be one of `valid_ext`.
   */
  function CheckExtension(validExt: seq<string>, fileName: string): (r: Outcome)
    ensures r.Accepted? <==> Lower(PathExt.Extension(fileName)) in validExt
    ensures r.Rejected? ==> r.message == RejectionMessage(validExt)
  {
    if Lower(PathExt.Extension(fileName)) in validExt then Accepted
    else Rejected(RejectionMessage(validExt))
  }

  /** `validate_extension`: the CV validator, allowing `.pdf`. */
  const PdfOnly: seq<string> := [".pdf"]

  function ValidateExtension(fileName: string): Outcome
  {
    CheckExtension(PdfOnly, fileName)
  }

  /** The CV validator's text when it refuses a file. */
  lemma PdfRejectionMessage()
    ensures RejectionMessage(PdfOnly) == "File Extension not allowed: Must be one of '.pdf'."
  {
    ReprPlain(".pdf");
    assert PdfOnly[1..] == [];
    assert ReprAll(PdfOnly) == [Repr(".pdf")] + ReprAll([]);
  }

  /** What an accepted name looks like: it ends in `.pdf` after a name that is not only dots. */
  predicate PdfName(f: string)
  {
    |f| >= 4 && Lower(f[|f| - 4..]) == ".pdf" && PathExt.LastComponentHasNonDot(f[..|f| - 4])
  }

  /** Every name the CV validator accepts is a PDF name. */
  lemma AcceptedIsPdfName(f: string)
    requires ValidateExtension(f).Accepted?
    ensures PdfName(f)
  {
    var ext := PathExt.Extension(f);
    assert Lower(ext) == ".pdf";
    var sep := PathExt.RFind(f, '/');
    var dot := PathExt.RFind(f, '.');
    assert ext != "";
    assert dot > sep && PathExt.HasNonDot(f, sep + 1, dot);
    assert ext == f[dot..];
    assert dot == |f| - 4;
    var root := f[..dot];
    assert sep >= 0 ==> root[sep] == '/';
    assert forall j :: sep < j < |root| ==> root[j] == f[j];
    assert PathExt.RFind(root, '/') == sep;
    var k :| sep + 1 <= k < dot && f[k] != '.';
    assert root[k] == f[k];
  }

  /** Every PDF name is accepted by the CV validator. */
  lemma PdfNameIsAccepted(f: string)
    requires PdfName(f)
    ensures ValidateExtension(f).Accepted?
  {
    var e := f[|f| - 4..];
    assert Lower(e) == ".pdf";
    assert e[0] == '.' by { assert Lower(e)[0] == LowerChar(e[0]); }
    forall j | 0 < j < 4 ensures e[j] != '.' && e[j] != '/' {
      assert Lower(e)[j] == LowerChar(e[j]);
    }
    assert PathExt.IsExtension(e);
    PathExt.ExtensionOfAppend(f[..|f| - 4], e);
    assert f[..|f| - 4] + e == f;
  }

  /** The CV validator accepts exactly the PDF names. */
  lemma ValidateExtensionIff(f: string)
    ensures ValidateExtension(f).Accepted? <==> PdfName(f)
  {
    if ValidateExtension(f).Accepted? { AcceptedIsPdfName(f); }
    if PdfName(f) { PdfNameIsAccepted(f); }
  }

  /** The cases the upload form meets: accepted in any case, refused otherwise. */
  lemma ValidateExtensionAccepts()
    ensures ValidateExtension("CV.PDF") == Accepted
    ensures ValidateExtension("cv.pdf") == Accepted
  {
    PathExt.ExtensionKeepsCase();
    assert Lower(".PDF") == ".pdf";
    assert "cv.pdf"[2..] == ".pdf" && "cv.pdf"[..2] == "cv";
    assert Lower(".pdf") == ".pdf";
    assert PathExt.RFind("cv", '/') == -1 && "cv"[0] != '.';
    assert PathExt.HasNonDot("cv", 0, 2);
    PdfNameIsAccepted("cv.pdf");
  }

  /** Only the last extension counts: a PDF name with another extension appended is refused. */
  lemma ValidateExtensionRejectsDoubleExtension()
    ensures ValidateExtension("cv.pdf.exe").Rejected?
  {
    PathExt.ExtensionIsLast();
    assert Lower(".exe") == ".exe" by { assert Lower(".exe")[1] == 'e'; }
  }

  /** A name without an extension is refused. */
  lemma ValidateExtensionRejectsNoExtension()
    ensures ValidateExtension("cv").Rejected?
  {
    PathExt.ExtensionOfPlainName();
    assert Lower("") == "";
  }

  /** A dot-file named `.pdf` has no extension, so it is refused. */
  lemma ValidateExtensionRejectsDotFile()
    ensures ValidateExtension(".pdf").Rejected?
  {
    PathExt.ExtensionOfDotFile();
    assert Lower("") == "";
  }

  // ---------------------------------------------------------------------------
  // Running the validator on the CV field
  // ---------------------------------------------------------------------------

  /** A validator call: it returned an outcome, or the call itself raised `TypeError`. */
  datatype CallOutcome = Returned(outcome: Outcome) | RaisedTypeError

  /**
   * The CV field's validators on an upload, as written. An empty field skips
   * its validators. Otherwise the field passes the one value to
   * `__call__(self, instance, filename)`, which needs two arguments, so the
   * call raises `TypeError` before its body runs. `fileName` is the stored
   * file's name, empty for no file.
   */
  function RunCvValidatorAsWritten(fileName: string): CallOutcome
  {
    if fileName == "" then Returned(Accepted) else RaisedTypeError
  }

  /** The validator as intended: `__call__(self, value)`, checking `value.name`. */
  function RunCvValidator(fileName: string): CallOutcome
  {
    if fileName == "" then Returned(Accepted) else Returned(ValidateExtension(fileName))
  }

  /** As written, every upload that carries a file fails, whatever its name. */
  lemma CvUploadRaises(fileName: string)
    requires fileName != ""
    ensures RunCvValidatorAsWritten(fileName) == RaisedTypeError
  {
  }

  /** A PDF upload, which the form exists to accept, raises as written and is accepted as intended. */
  lemma CvPdfUploadRaises()
    ensures RunCvValidatorAsWritten("cv.pdf") == RaisedTypeError
    ensures RunCvValidator("cv.pdf") == Returned(Accepted)
  {
    ValidateExtensionAccepts();
  }

  /** As intended, the call never raises, and it accepts exactly no file or a PDF name. */
  lemma RunCvValidatorIff(fileName: string)
    ensures RunCvValidator(fileName).Returned?
    ensures RunCvValidator(fileName).outcome.Accepted? <==> fileName == "" || PdfName(fileName)
    ensures RunCvValidator(fileName).outcome.Rejected? ==>
              RunCvValidator(fileName).outcome.message == "File Extension not allowed: Must be one of '.pdf'."
  {
    ValidateExtensionIff(fileName);
    PdfRejectionMessage();
  }
}
