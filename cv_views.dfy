/**
 * Serving a hacker's CV: who may fetch it, when it is missing, and the
 * download response built header by header, either handing the file to the
 * web server (production) or sending its bytes (debug).
 */
module CvViews {

  import opened Wrappers
  import opened Http
  import opened HackerModels

  /** `is_allowed`: a superuser may fetch any CV, anyone else only their own. */
  predicate IsAllowed(user: User, username: string)
  {
    match user
    case SignedIn(name, isSuperuser) => isSuperuser || name == username
    // the anonymous user's username is the empty string
    case Anonymous => username == ""
  }

  lemma SuperuserAllowed(name: string, username: string)
    ensures IsAllowed(SignedIn(name, true), username)
  {
  }

  lemma OthersOnlyOwn(name: string, username: string)
    ensures IsAllowed(SignedIn(name, false), username) <==> name == username
  {
  }

  /** The `cv` decision: refused, not found, or served from this file. */
  datatype CvAccess = Denied | Missing | Serve(file: FieldFile)

  /** `get_object_or_404(CV, hacker__profile__username=username)`. */
  function CvRecord(s: Store, username: string): (r: Option<FieldFile>)
    ensures r.Some? <==> username in s.hackers && CV.relatedName in s.hackers[username].sections
                         && s.hackers[username].sections[CV.relatedName].CvUpload?
  {
    if username in s.hackers && CV.relatedName in s.hackers[username].sections then
      match s.hackers[username].sections[CV.relatedName]
      case CvUpload(f) => Some(f)
      case FormData(_) => None
    else None
  }

  function CvAccessFor(s: Store, user: User, username: string): CvAccess
  {
    if !IsAllowed(user, username) then Denied
    else match CvRecord(s, username)
      case None => Missing
      case Some(f) => if HasCv(f) then Serve(f) else Missing
  }

  /** A refused request is refused whatever is stored: no CV is looked up. */
  lemma DeniedWithoutLookup(s1: Store, s2: Store, user: User, username: string)
    requires !IsAllowed(user, username)
    ensures CvAccessFor(s1, user, username) == Denied && CvAccessFor(s2, user, username) == Denied
  {
  }

  /** A file is served iff the request is allowed and the record exists and holds a file. */
  lemma ServeIff(s: Store, user: User, username: string)
    ensures CvAccessFor(s, user, username).Serve? <==>
              IsAllowed(user, username) && CvRecord(s, username).Some? && HasCv(CvRecord(s, username).value)
    ensures CvAccessFor(s, user, username).Missing? <==>
              IsAllowed(user, username) && (CvRecord(s, username).None? || !HasCv(CvRecord(s, username).value))
  {
  }

  // ---------------------------------------------------------------------------
  // The responses
  // ---------------------------------------------------------------------------

  /** The content type of an `HttpResponse` made without one. */
  const DefaultContentType := "text/html; charset=utf-8"
  const PdfContentType := "application/pdf"

  /** An `HttpResponse` being built: its headers are set one by one. */
  class ResponseBuilder {
    var headers: map<string, string>
    var content: seq<byte>

    /** `HttpResponse(content, content_type)`. */
    constructor (body: seq<byte>, contentType: Option<string>)
      ensures content == body
      ensures headers == map["Content-Type" := if contentType.Some? then contentType.value else DefaultContentType]
    {
      content := body;
      headers := map["Content-Type" := if contentType.Some? then contentType.value else DefaultContentType];
    }

    /** `response[name] = value`. */
    method SetHeader(name: string, value: string)
      modifies this
      ensures headers == old(headers)[name := value]
      ensures content == old(content)
    {
      headers := headers[name := value];
    }

    function Build(): Response
      reads this
    {
      Attachment(headers, content)
    }
  }

  function Disposition(username: string): string
  {
    "attachment; filename=" + CvFilename(username)
  }

  /** `cv_prod`: an empty body and a redirect for the web server to the file's internal URL. */
  method CvProd(cv: FieldFile, username: string, internalPrefix: string) returns (resp: Response)
    requires HasCv(cv)
    ensures resp.Attachment? && resp.body == []
    ensures resp.headers.Keys == {"Content-Type", "Content-Disposition", "X-Accel-Redirect"}
    ensures resp.headers["Content-Disposition"] == "attachment; filename=" + username + ".pdf"
    ensures resp.headers["Content-Type"] == PdfContentType
    ensures Some(resp.headers["X-Accel-Redirect"]) == InternalUrl(internalPrefix, cv)
  {
    var response := new ResponseBuilder([], None);
    response.SetHeader("Content-Disposition", Disposition(username));
    response.SetHeader("Content-Type", PdfContentType);
    response.SetHeader("X-Accel-Redirect", InternalUrl(internalPrefix, cv).value);
    resp := response.Build();
  }

  /** `cv_debug`: the file's bytes themselves, as a PDF attachment. */
  method CvDebug(username: string, fileContent: seq<byte>) returns (resp: Response)
    ensures resp.Attachment? && resp.body == fileContent
    ensures resp.headers.Keys == {"Content-Type", "Content-Disposition"}
    ensures resp.headers["Content-Disposition"] == "attachment; filename=" + username + ".pdf"
    ensures resp.headers["Content-Type"] == PdfContentType
  {
    var response := new ResponseBuilder(fileContent, Some(PdfContentType));
    response.SetHeader("Content-Disposition", Disposition(username));
    resp := response.Build();
  }

  /** `cv_actual`: chosen once from the debug setting. */
  datatype Server = DebugServer | ProdServer

  function SelectServer(debug: bool): (srv: Server)
    ensures srv == DebugServer <==> debug
  {
    if debug then DebugServer else ProdServer
  }

  /**
   * The `cv` view. `debug` and `internalPrefix` are the settings; `read`
   * gives the stored bytes of a file.
   */
  method Cv(s: Store, r: Request, username: string, debug: bool, internalPrefix: string,
            read: FieldFile -> seq<byte>) returns (resp: Response)
    ensures !r.user.IsAuthenticated() ==> resp == RedirectToLogin(r.path)
    ensures r.user.IsAuthenticated() && CvAccessFor(s, r.user, username) == Denied ==> resp == Forbidden
    ensures r.user.IsAuthenticated() && CvAccessFor(s, r.user, username) == Missing ==> resp == NotFound
    ensures r.user.IsAuthenticated() && CvAccessFor(s, r.user, username).Serve? ==>
              var f := CvAccessFor(s, r.user, username).file;
              && resp.Attachment?
              && {"Content-Type", "Content-Disposition"} <= resp.headers.Keys
              && resp.headers["Content-Type"] == PdfContentType
              && resp.headers["Content-Disposition"] == "attachment; filename=" + username + ".pdf"
              && (debug ==> resp.body == read(f) && "X-Accel-Redirect" !in resp.headers)
              && (!debug ==>
                    resp.body == [] && "X-Accel-Redirect" in resp.headers && f.url.Some?
                    && resp.headers["X-Accel-Redirect"] == internalPrefix + f.url.value)
  {
    if !r.user.IsAuthenticated() {
      return RedirectToLogin(r.path);
    }
    var access := CvAccessFor(s, r.user, username);
    match access
    case Denied =>
      resp := Forbidden;
    case Missing =>
      resp := NotFound;
    case Serve(f) =>
      if SelectServer(debug) == DebugServer {
        resp := CvDebug(username, read(f));
      } else {
        resp := CvProd(f, username, internalPrefix);
      }
  }
}
