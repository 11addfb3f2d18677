/**
 * The web framework's request and response objects, reduced to what the
 * portal's views read and produce.
 */
module Http {

  newtype byte = x: int | 0 <= x < 256

  datatype Method = Get | Post | OtherMethod(name: string)

  /** `request.user`: the anonymous user, or a signed-in account. */
  datatype User = Anonymous | SignedIn(username: string, isSuperuser: bool)
  {
    predicate IsAuthenticated() { SignedIn? }
  }

  /** An uploaded file in `request.FILES`. */
  datatype Upload = Upload(name: string, content: seq<byte>)

  datatype Request = Request(
    verb: Method,
    user: User,
    path: string,
    post: map<string, string>,
    files: map<string, Upload>,
    args: seq<string>)

  /** Error lists keyed by field name; `"__all__"` holds the form-wide errors. */
  type Errors = map<string, seq<string>>

  const NonFieldErrors := "__all__"

  datatype Response =
    | Forbidden                                   // HttpResponseForbidden()
    | NotFound                                    // raise Http404
    | ServerError                                 // an exception no view handles
    | RedirectToLogin(next: string)               // login_required's redirect
    | Redirect(url: string)                       // redirect('/')
    | RedirectToView(name: string)                // redirect(reverse(name))
    | Page(template: string, context: map<string, string>, errors: Errors)
    | Attachment(headers: map<string, string>, body: seq<byte>)
}
