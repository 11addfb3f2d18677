# JacobsHack! Application Portal — a verified model of its core

The JacobsHack! portal is a Django site where hackers register for the event and fill in their
profile. A profile is filled in as a fixed sequence of *components*: academic data, the
application, organisational details and a CV. This project models the portal's core in Dafny and
proves properties of that model. The core covers:

- the hacker profile and its component registry. The registry answers one question: which
  component should the hacker set up next?
- the view decorators that gate access: sign-in required, profile required, component unset,
  setup completed;
- the registration form and its consent, minimum-age, password and username checks, including
  how Django's `add_error` and `clean` move a form's errors and cleaned data;
- the registration, setup-routing and per-component setup views, with their effect on the
  stored accounts and profiles;
- CV access control and the two download responses (web-server redirect or file bytes);
- the CV file-extension validator;
- the admin's helpers for reading properties, converting values to spreadsheet cells and
  exporting to CSV or XLSX;
- the custom model fields: the choice fields' forced keyword arguments and their
  `deconstruct`, the fuzzy choice field, and the datalist text widget.

## How the model is laid out

Code here is either a value computation or a change of state:

- A value computation in the source is a Dafny function with lemmas beside it.
- A change of state is a `class` with `modifies`-framed methods, each proved equal to a
  function of the old state. These classes are:
  - `ComponentRegistry`, the `Hacker.components` ordered dictionary;
  - `Database`, the accounts and profiles;
  - `RegistrationForm`, the form's errors and cleaned data;
  - `ResponseBuilder`, a response whose headers are set one by one;
  - `Kwargs`, a keyword-argument dictionary;
  - `RowSink`, the CSV writer or worksheet;
  - `ListTextWidget`.

A view is a `Handler = (Store, Request) -> Response`. A decorator is a function from handlers to
handlers, so the gating lemmas quantify over every wrapped view and every alternative.

All modules are self-contained:

| module | file | models |
|---|---|---|
| `Wrappers` | `wrappers.dfy` | `Option` |
| `Text` | `text.dfy` | `str.join`, `str.split`, ASCII `lower`, `replace`, decimal formatting |
| `PathExt` | `path_ext.dfy` | `os.path.splitext` |
| `Http` | `http.dfy` | requests, users, responses, form errors |
| `HackerModels` | `hacker_models.dfy` | `hacker/models.py` |
| `Validators` | `validators.dfy` | `hacker/validators.py` |
| `Decorators` | `decorators.dfy` | `registry/decorators.py` |
| `Forms` | `forms.dfy` | `registry/forms.py` |
| `SetupViews` | `setup_views.dfy` | `registry/views/setup.py` |
| `CvViews` | `cv_views.dfy` | `registry/views/cv.py` |
| `Actions` | `actions.dfy` | `hacker/actions.py` |
| `Fields` | `fields.dfy` | `hacker/fields.py` |

## Where the specification and the code differ (the model follows the code)

- **Step order.** `require_unset_component` checks only that its own component is unset. It
  does not check that the component is the first unset one. A hacker can therefore set up the CV
  before the academic data by opening that step's URL.
  - `SetupViews.StepSetsComponent` states what happens then: the component is set, and the
    setup state advances only if the component was the first unset one.
- **Registration re-runs `clean`.** After `is_valid()`, `register` calls `form.clean()` a second
  time and ignores what it returns. Nothing is saved between the two calls, so the second call
  repeats the first outcome. The two could differ only across midnight, since the age check reads
  today's date, or under a concurrent registration of the same username. Both are outside the
  model.
  - `SetupViews.Register` performs both calls and proves that the outcomes are equal.
- **The unique email.** `Hacker.email` is a unique column, so a model form's `_post_clean` checks
  that no stored hacker already has the address. Django runs this check only once the model
  form's own `clean` is reached, which in this form means every check of `clean` passed. The
  error goes on `email`.
- **Duplicate registrations.** `register_component` overwrites an existing name in place; it
  does not reject it.
- **Who may fetch a CV.** `is_allowed` compares usernames. The anonymous user's username is `""`,
  so in principle it matches a hacker named `""`. The `login_required` guard around the view
  sends anonymous callers away first.

## Model

| member | source | states |
|---|---|---|
| `HackerModels.ComponentRegistry.Register` | hacker/models.py:72-78 | registering a component returns it unchanged; the registry keeps insertion order with no duplicates, and re-registering a name replaces its record but keeps its place |
| `HackerModels.ComponentRegistry.GetFirstUnsetComponent` | hacker/models.py:88-96 | the answer is None iff the hacker has every registered component; otherwise it is the earliest unset component in registry order, every earlier one being set |
| `HackerModels.Registered` | hacker/models.py:72-78 | registering keeps the existing key order as a prefix and adds at most one key; the name then maps to the new record |
| `HackerModels.RelatedNamesDistinct` | hacker/models.py:104-162 | the related names of Approval and the four component classes are pairwise different |
| `HackerModels.HackerRegistration` | hacker/models.py:110-169 | registering the four component classes in declaration order yields the order academic, application, organizational, cv, without approval |
| `HackerModels.RegisterHackerComponents` | hacker/models.py:110-169 | the four decorated classes register, in declaration order, as academic, application, organizational, cv; Approval is not a component |
| `HackerModels.FirstUnset` | hacker/models.py:88-96 | the first name of an order that is not done, or None; its meaning is stated by `HackerModels.FirstUnsetSpec` |
| `HackerModels.HasComponent` | hacker/models.py:80-86 | a hacker has a component iff its record exists; a missing record reads as false |
| `HackerModels.FirstUnsetSpec` | hacker/models.py:88-96 | the resolver returns None iff every name is done, and otherwise returns the earliest name not done |
| `HackerModels.SetupState` | hacker/models.py:88-96 | a profile is in one of n+1 setup states: the number of components completed from the start without a gap |
| `HackerModels.SetupStateResolves` | hacker/models.py:88-96 | the resolver names exactly the component at the profile's setup state, or None in the final state |
| `HackerModels.SetupStateMonotone` | hacker/models.py:80-96 | completing more components never moves a profile to an earlier setup state |
| `HackerModels.CompletingAdvances` | hacker/models.py:88-96 | completing the first unset component moves the profile to a later state; completing any other leaves the state unchanged |
| `HackerModels.FullName` | hacker/models.py:32-40 | the name parts joined by one space; its shapes are stated by `HackerModels.FullNameShape` |
| `HackerModels.FullNameShape` | hacker/models.py:32-40 | the full name is first and last name joined by one space, with the middle name in between unless it is None; an empty middle name still adds its space |
| `HackerModels.FullNameRecoversParts` | hacker/models.py:32-40 | a full name built from parts without spaces splits back into exactly those parts |
| `HackerModels.Describe` | hacker/models.py:98-99 | the description is `Hacker [`, the full name, then `]` |
| `HackerModels.UploadTo` | hacker/models.py:155-156 | the storage path `cvs/` + username + the uploaded name's extension; stated by `HackerModels.UploadToKeepsExtension` |
| `HackerModels.UploadToKeepsExtension` | hacker/models.py:155-156 | an uploaded CV is stored under `cvs/<username>` and keeps the uploaded file's extension |
| `HackerModels.HasCv` | hacker/models.py:171-173 | a CV record holds a file iff its file has a name and a URL |
| `HackerModels.InternalUrl` | hacker/models.py:171-178 | the internal URL exists iff the record holds a file with a URL, and is then the internal prefix followed by that URL |
| `HackerModels.CvFilename` | hacker/models.py:180-182 | the download name is the username followed by `.pdf` |
| `HackerModels.CvFilenameIsPdf` | hacker/models.py:180-182 | the download name's extension is `.pdf` for any username without a slash that is not all dots |
| `HackerModels.Database.CreateUser` | registry/views/setup.py:28-31 | creating a user stores its password under the username and changes no profile |
| `HackerModels.Database.SaveHacker` | registry/views/setup.py:34-36 | saving a profile attaches it to that user and changes no account |
| `HackerModels.Database.SaveSection` | registry/views/setup.py:98-100 | saving a component record sets that one component of that one profile; nothing else changes |
| `Validators.Repr` | hacker/validators.py:16 | `repr` of a string is its body between two equal quote characters, `'` or `"` |
| `Validators.ReprPlain` | hacker/validators.py:16 | a string without quotes, backslashes, newlines, carriage returns or tabs is shown as `'` + the string + `'` |
| `Validators.CheckExtension` | hacker/validators.py:12-16 | a file is accepted iff its lower-cased extension is one of the valid ones; otherwise it is rejected with the message listing the valid extensions |
| `Validators.PdfRejectionMessage` | hacker/validators.py:16-19 | the CV validator's rejection message is exactly "File Extension not allowed: Must be one of '.pdf'." |
| `Validators.ValidateExtension` | hacker/validators.py:19 | the CV validator is the extension check with `.pdf` as the only valid extension; stated by `Validators.ValidateExtensionIff` |
| `Validators.ValidateExtensionIff` | hacker/validators.py:12-19 | the CV validator accepts a name iff it ends in `.pdf` in any letter case, after a last path component that is not made only of dots |
| `Validators.AcceptedIsPdfName` | hacker/validators.py:12-19 | every name the CV validator accepts has that PDF shape |
| `Validators.PdfNameIsAccepted` | hacker/validators.py:12-19 | every name of that PDF shape is accepted |
| `Validators.ValidateExtensionAccepts` | hacker/validators.py:12-19 | `CV.PDF` and `cv.pdf` are accepted |
| `Validators.ValidateExtensionRejectsDoubleExtension` | hacker/validators.py:12-19 | `cv.pdf.exe` is rejected: only the last extension counts |
| `Validators.ValidateExtensionRejectsNoExtension` | hacker/validators.py:12-19 | `cv`, a name without an extension, is rejected |
| `Validators.ValidateExtensionRejectsDotFile` | hacker/validators.py:12-19 | the dot-file `.pdf` has no extension and is rejected |
| `Validators.RunCvValidatorAsWritten` | hacker/validators.py:12 | as written, the field's one-argument call of the two-argument `__call__` raises `TypeError` for every upload with a file; an empty field skips it |
| `Validators.RunCvValidator` | hacker/validators.py:12-16 | as intended, the field's call checks the uploaded file's name |
| `Validators.CvUploadRaises` | hacker/validators.py:12 | as written, every upload that carries a file raises, whatever its name |
| `Validators.CvPdfUploadRaises` | hacker/validators.py:12-19 | `cv.pdf` raises as written and is accepted as intended |
| `Validators.RunCvValidatorIff` | hacker/validators.py:12-19 | as intended, the call never raises; it accepts exactly an empty field or a PDF name, and otherwise rejects with the PDF message |
| `Decorators.LoginRequired` | registry/decorators.py:9 | `login_required`: an anonymous caller is redirected to login with the requested path; a signed-in one reaches the view |
| `Decorators.RequireHacker` | registry/decorators.py:6-23 | `require_hacker(view)`; its answers are stated by `Decorators.RequireHackerDecides` |
| `Decorators.RequireUnsetComponent` | registry/decorators.py:26-43 | `require_unset_component(component, alternative)(view)`; its answers are stated by `Decorators.RequireUnsetComponentDecides` |
| `Decorators.RequireSetupCompleted` | registry/decorators.py:46-63 | `require_setup_completed(alternative)(view)`; its answers are stated by `Decorators.RequireSetupCompletedDecides` |
| `Decorators.ProfileOf` | registry/decorators.py:12-18 | a request has a profile iff its user is signed in and has a hacker |
| `Decorators.HackerDecision` | registry/decorators.py:6-23 | `require_hacker` sends anonymous callers to login, refuses signed-in callers without a hacker and runs the view iff a hacker exists; it never takes an alternative |
| `Decorators.UnsetComponentDecision` | registry/decorators.py:26-43 | `require_unset_component` runs the alternative iff a hacker exists and has the component, and the view iff a hacker exists and lacks it; otherwise it decides like `require_hacker` |
| `Decorators.SetupCompletedDecision` | registry/decorators.py:46-63 | `require_setup_completed` runs the view iff a hacker exists and has every component, and takes the alternative iff a hacker exists and lacks some component; otherwise it decides like `require_hacker` |
| `Decorators.RequireHackerDecides` | registry/decorators.py:6-23 | the composed `require_hacker(view)` answers every request as its decision says |
| `Decorators.RequireUnsetComponentDecides` | registry/decorators.py:26-43 | the composed `require_unset_component(component, alternative)(view)` answers every request as its decision says |
| `Decorators.RequireSetupCompletedDecides` | registry/decorators.py:46-63 | the composed `require_setup_completed(alternative)(view)` answers every request as its decision says |
| `Decorators.NoProfileIsDenied` | registry/decorators.py:6-63 | without a hacker, both component decorators refuse a signed-in caller and redirect an anonymous one to login, whatever the view and alternative |
| `Decorators.SetupCompletedIffFinalState` | registry/decorators.py:46-63 | `require_setup_completed` lets a hacker through iff the profile is in the final setup state |
| `Decorators.SetComponentGoesToAlternative` | registry/decorators.py:26-43 | a hacker who already has the component always gets the alternative |
| `Forms.Age` | registry/forms.py:68-72 | the age is the difference of the years, less one before this year's birthday; stated by `Forms.AgeAtLeastIff` |
| `Forms.AgeAtLeastIff` | registry/forms.py:69-72 | the computed age is at least n iff the n-th birthday is on or before today |
| `Forms.AgeOnBirthday` | registry/forms.py:70 | on the n-th birthday the age is n. On the date with one day less, `Date(y, m, d - 1)`, it is n-1; for a birthday on the 1st this is day 0 of the month, since the model's dates are not calendar-checked |
| `Forms.ConsentCheck` | registry/forms.py:50-66 | the consent checks pass iff the JacobsHack terms, the MLH code of conduct and the MLH contest terms are all truthy; otherwise the first failing one is refused |
| `Forms.HackerCleanAsWritten` | registry/forms.py:46-77 | the hacker form's `clean` as written, None where it raises; related to the corrected check by `Forms.HackerCleanAgreesWhereDefined` |
| `Forms.HackerClean` | registry/forms.py:46-77 | the hacker form's `clean` as intended; stated by `Forms.HackerCleanPassedIff` and `Forms.HackerCleanOrder` |
| `Forms.MissingDobRaises` | registry/forms.py:68-70 | with all three consents given and no date of birth, the hacker form's `clean` crashes |
| `Forms.HackerCleanAgreesWhereDefined` | registry/forms.py:46-77 | the corrected check gives the same outcome as the code wherever the code does not crash, and the code crashes iff the consents pass and there is no date of birth |
| `Forms.HackerCleanPassedIff` | registry/forms.py:46-77 | with a date of birth, the hacker form passes iff all three consents are truthy and the age is at least the minimum |
| `Forms.HackerCleanOrder` | registry/forms.py:50-75 | each consent, and then the age, is refused exactly when it fails and every earlier check passed, in the order of the source |
| `Forms.HackerCleanReadsOnly` | registry/forms.py:46-77 | the hacker form's outcome depends only on the three consents and the date of birth |
| `Forms.RegistrationClean` | registry/forms.py:104-125 | the registration form's `clean`: passwords, then username, then the hacker checks; stated by `Forms.RegistrationPassedIff` and `Forms.RegistrationOrder` |
| `Forms.RegistrationCleanAgreesWhereDefined` | registry/forms.py:104-125 | the registration checks as written raise exactly when the passwords match, the username is free, the consents pass and no date of birth was cleaned; otherwise they agree with the corrected checks |
| `Forms.PasswordCheckedFirst` | registry/forms.py:108-115 | differing passwords are refused first, whatever else the data holds |
| `Forms.RegistrationOrder` | registry/forms.py:104-125 | the username is refused only for matching passwords, and the hacker checks run only for a free username |
| `Forms.RegistrationPassedIff` | registry/forms.py:104-125 | registration passes iff the passwords match, the username is free, all consents are given and, when a date of birth was cleaned, the hacker is old enough |
| `Forms.AppendError` | registry/forms.py:52-73 | `add_error` appends the message to that field's list; every other field keeps its errors |
| `Forms.ErrorsAfterEmptyIff` | registry/forms.py:46-125 | a form is valid after full cleaning iff field cleaning found no error, `clean` passed and no stored hacker has the cleaned email |
| `Forms.EmailTakenReported` | hacker/models.py:42 | a taken address is reported under `email` with the framework's uniqueness message when `clean` passed, even if other fields failed; a refused `clean` never adds an `email` error |
| `Forms.RegistrationForm.constructor` | registry/forms.py:80-102 | a bound form starts with its field errors and its cleaned data |
| `Forms.RegistrationForm.AddError` | registry/forms.py:52-73 | `add_error` appends the message to that field's errors and removes the field from the cleaned data |
| `Forms.RegistrationForm.CleanHacker` | registry/forms.py:46-77 | the hacker form's `clean` refuses at most one check: it records that check's message under that check's field and drops the field; a pass changes nothing |
| `Forms.RegistrationForm.Clean` | registry/forms.py:104-125 | the registration form's `clean` runs the password and username checks, then the hacker checks, with the same effect on errors and cleaned data |
| `Forms.RegistrationForm.ValidateUnique` | hacker/models.py:42 | the uniqueness check of `email` adds "Hacker with this Email already exists." under `email` and drops it from the cleaned data iff the field has no error yet and a stored hacker has the address; otherwise nothing changes |
| `Forms.RegistrationForm.FullClean` | registry/forms.py:104-125 | `is_valid`: `clean` runs even when fields have errors. A refusal also records "Please correct the error below." under the non-field key. Only a passing `clean` is followed by the uniqueness check of `email`. |
| `Forms.CoerceGoing` | registry/forms.py:141-145 | the RSVP choice coerces to true iff the posted value is `True` |
| `Forms.CleanGoing` | registry/forms.py:141-145 | only the two choice values `True` and `False` are accepted |
| `Forms.GoingRoundTrip` | registry/forms.py:141-145 | posting the string of a choice gives back that choice |
| `SetupViews.NewHacker` | registry/views/setup.py:33-36 | a new profile has no component set |
| `SetupViews.RegisterSignedInChangesNothing` | registry/views/setup.py:15-17 | a signed-in caller is sent to the front page and nothing is changed |
| `SetupViews.RegisterResult` | registry/views/setup.py:12-55 | the new store, response and signed-in user of `register`, with the corrected form checks; stated by `SetupViews.RegisterCreatesAccountAndProfile` |
| `SetupViews.RegisterCreatesAccountAndProfile` | registry/views/setup.py:12-55 | registration redirects to setup iff an anonymous POST passes field cleaning and `clean` and its email is not stored yet. It then creates an account under a free username, with a profile in the first setup state, and signs that user in. Any other outcome changes nothing. |
| `SetupViews.RegisterKeepsEmailsDistinct` | hacker/models.py:42 | a registration never gives two profiles the same address |
| `SetupViews.RegisterResultAsWritten` | registry/views/setup.py:19-24 | `register` as written: a server error, with nothing saved, where the form's checks raise; otherwise the corrected outcome |
| `SetupViews.RegisterAsWrittenRaises` | registry/forms.py:68-70 | an anonymous POST with the consents given, matching passwords, a free username and a date of birth that failed to clean is a server error as written and shows the form as corrected |
| `SetupViews.RegisterAgreesWhereDefined` | registry/views/setup.py:12-55 | the view as written and the corrected view agree wherever the form's checks do not raise |
| `SetupViews.Register` | registry/views/setup.py:12-55 | the view changes the database, responds and signs in exactly as the registration outcome says |
| `SetupViews.SetupPage` | registry/views/setup.py:62-71 | the body of `setup`: the finished page or the first unset component's step; stated by `SetupViews.SetupRoutesByState` |
| `SetupViews.SetupAsWritten` | registry/views/setup.py:58-71 | `setup` guarded by `login_required` only; stated by `SetupViews.SetupWithoutProfile` |
| `SetupViews.Setup` | registry/views/setup.py:58-71 | `setup` guarded by `require_hacker`; stated by `SetupViews.SetupRoutesByState` and `SetupViews.SetupAgreesWithProfile` |
| `SetupViews.SetupWithoutProfile` | registry/views/setup.py:58-62 | as written, a signed-in user without a hacker makes `setup` fail; guarded by `require_hacker` they are refused instead |
| `SetupViews.SetupAgreesWithProfile` | registry/views/setup.py:58-71 | for anonymous callers and callers with a hacker, the corrected view answers as the code does |
| `SetupViews.SetupRoutesByState` | registry/views/setup.py:62-71 | a hacker in the final setup state gets the finished page; any other hacker is sent to the step of the component their state stands at |
| `SetupViews.StepsMatchRegistry` | registry/views/setup.py:121-135 | there is one step view per registered component, in registry order, and only the CV step takes files |
| `SetupViews.FilesFor` | registry/views/setup.py:84-88 | a step passes files to its form iff it takes files and the request has some |
| `SetupViews.StepResult` | registry/views/setup.py:74-119 | the new store and response of a step view; stated by `SetupViews.StepIsGated`, `SetupViews.StepOnlyGrows` and `SetupViews.StepSetsComponent` |
| `SetupViews.StepIsGated` | registry/views/setup.py:77 | unless the component is unset, a step answers as its decorator does and changes nothing |
| `SetupViews.StepOnlyGrows` | registry/views/setup.py:74-119 | a step never adds or removes an account or profile, and no profile loses a component |
| `SetupViews.StepSetsComponent` | registry/views/setup.py:74-119 | a step redirects to setup iff its component was unset and the POSTed form is valid. It then sets exactly that component, and the setup state advances iff the component was the first unset one. Any other outcome changes nothing. |
| `SetupViews.StepIgnoresFiles` | registry/views/setup.py:84-88 | a step that takes no files answers the same whatever files are uploaded |
| `SetupViews.SetupStep` | registry/views/setup.py:74-119 | the step view changes the database and responds exactly as the step outcome says |
| `CvViews.IsAllowed` | registry/views/cv.py:8-14 | a superuser, or the user whose username is asked for; stated by `CvViews.SuperuserAllowed` and `CvViews.OthersOnlyOwn` |
| `CvViews.CvAccessFor` | registry/views/cv.py:17-25 | refused, not found or served; stated by `CvViews.ServeIff` and `CvViews.DeniedWithoutLookup` |
| `CvViews.SuperuserAllowed` | registry/views/cv.py:8-12 | a superuser may fetch any CV |
| `CvViews.OthersOnlyOwn` | registry/views/cv.py:8-14 | any other signed-in user may fetch a CV iff it is their own |
| `CvViews.CvRecord` | registry/views/cv.py:20 | the CV record is found iff the user has a hacker with a CV component |
| `CvViews.DeniedWithoutLookup` | registry/views/cv.py:17-25 | a refused request is refused whatever is stored |
| `CvViews.ServeIff` | registry/views/cv.py:17-25 | a file is served iff the caller is allowed and the record exists and holds a file; an allowed caller otherwise gets not found |
| `CvViews.ResponseBuilder.constructor` | registry/views/cv.py:29-37 | a new response carries its body and the given content type, or the HTML default |
| `CvViews.ResponseBuilder.SetHeader` | registry/views/cv.py:30-32 | setting a header changes that header only |
| `CvViews.CvProd` | registry/views/cv.py:27-33 | the production response has an empty body and exactly three headers: a PDF content type, an attachment named `<username>.pdf`, and a redirect to the file's internal URL |
| `CvViews.CvDebug` | registry/views/cv.py:35-39 | the debug response carries the file's bytes, with a PDF content type and an attachment named `<username>.pdf` |
| `CvViews.SelectServer` | registry/views/cv.py:43 | the debug response is chosen iff the debug setting is on |
| `CvViews.Cv` | registry/views/cv.py:17-43 | anonymous callers go to login, refused callers get forbidden and missing CVs not found. A served CV is a PDF attachment: in debug mode the file's bytes, in production an empty body with the internal redirect. |
| `Actions.GetDirectProp` | hacker/actions.py:10-34 | `get_direct_prop`; stated by `Actions.EmptyPathIsObject` and `Actions.DisplayOnlyAtLastSegment` |
| `Actions.Walk` | hacker/actions.py:32-34 | a chain of plain attribute reads that stops at the first exception, the reference that `Actions.DisplayOnlyAtLastSegment` compares `get_direct_prop` with |
| `Actions.GetModelProp` | hacker/actions.py:37-49 | `get_model_prop`; stated by `Actions.GetModelPropFallback` |
| `Actions.HasName` | hacker/actions.py:97 | `hasattr(value, "name")`: an attribute error reads as false, and any other exception of the lookup escapes |
| `Actions.LastSegment` | hacker/actions.py:18-30 | the last path segment returns the field's display value when its getter succeeds, and otherwise the attribute itself |
| `Actions.GetAttr` | hacker/actions.py:30-34 | a successful attribute read returns a stored attribute of an object |
| `Actions.EmptyPathIsObject` | hacker/actions.py:13-15 | an empty path returns the object itself |
| `Actions.DisplayOnlyAtLastSegment` | hacker/actions.py:10-34 | a path is walked through plain attributes, and the display getter is consulted only at its last segment |
| `Actions.GetModelPropFallback` | hacker/actions.py:37-49 | a direct property is returned as is. On an attribute error, the admin method of that name runs, or the default is used when there is none or it fails with an attribute or missing-object error. The only errors that escape are neither kind. |
| `Actions.RelatedMissingTriesAdmin` | hacker/actions.py:37-49 | a missing related record counts as an attribute error, so it reaches the admin method rather than the default |
| `Actions.ToExcel` | hacker/actions.py:89-106 | a known cell value is returned unchanged. An object without a readable name becomes its text, and one whose name lookup raises anything but an attribute error fails with that exception. A list becomes a string or fails. |
| `Actions.ToExcelList` | hacker/actions.py:101-102 | a list fails with the first exception of an element, becomes the converted strings joined by `, ` when all are strings, and fails with `TypeError` otherwise |
| `Actions.ConvertAll` | hacker/actions.py:102 | when every element converts, the results line up with the elements one for one |
| `Actions.ToExcelStringList` | hacker/actions.py:101-102 | a list of strings becomes those strings joined by `, ` |
| `Actions.ConvertAllKnown` | hacker/actions.py:101-102 | every string in a list converts to itself |
| `Actions.ToExcelListWithNumber` | hacker/actions.py:101-102 | a list holding a number fails, since `join` accepts only strings |
| `Actions.ToExcelNamed` | hacker/actions.py:97-98 | an object with a readable `name` converts as its name does |
| `Actions.ToExcelIdempotent` | hacker/actions.py:89-106 | converting a converted value again gives the same cell |
| `Actions.ExportedFields` | hacker/actions.py:61-65 | the exported columns are the given fields, or all the model's fields when none are given |
| `Actions.ExportBase` | hacker/actions.py:69-70 | the export's file name and sheet title is the model label with every `.` replaced |
| `Actions.ExportFilenameExtension` | hacker/actions.py:69-70 | the exported file's extension is `.csv` or `.xlsx` as appended, for any model label without a slash |
| `Actions.RowSink.Append` | hacker/actions.py:77-81 | writing a row appends it after the rows written so far |
| `Actions.HeaderRow` | hacker/actions.py:76-77 | the header row holds the field names, in order |
| `Actions.ValuesOf` | hacker/actions.py:80 | a row's values line up with the requested fields |
| `Actions.MakeCells` | hacker/actions.py:143-149 | each stored value becomes its own spreadsheet cell, in order |
| `Actions.ExportRows` | hacker/actions.py:52-149 | an export fails iff a requested column is not a field. Otherwise it writes the header row iff asked, then one row per object with the values of the exported fields in order, under the content type and file name of its format; only the XLSX export has a sheet title. |
| `Fields.Kwargs.constructor` | hacker/fields.py:41-45 | a keyword dictionary starts with the given entries |
| `Fields.Kwargs.Set` | hacker/fields.py:42-44 | setting a keyword changes that entry only |
| `Fields.Kwargs.Delete` | hacker/fields.py:47-52 | deleting a keyword removes that entry only, and reports whether it was there |
| `Fields.ShirtSizeWellFormed` | hacker/fields.py:26-45 | the shirt-size choices have distinct codes, the default M among them, each at most 4 characters |
| `Fields.DegreeWellFormed` | hacker/fields.py:91-112 | the degree choices have distinct codes, the default `bsc` among them, each at most 3 characters |
| `Fields.YearWellFormed` | hacker/fields.py:122-145 | the graduation-year choices have distinct codes, 2018 among them, and no maximum length is forced |
| `Fields.UniWellFormed` | hacker/fields.py:154-168 | the university choices have distinct codes, OTHER among them, each at most 25 characters |
| `Fields.ForcedKeysByField` | hacker/fields.py:41-175 | shirt size, degree and university force `max_length`, `choices` and `default`; the graduation year forces only `choices` and `default` |
| `Fields.InitKwargs` | hacker/fields.py:41-45 | a choice field's constructor overrides exactly its forced keywords and keeps every other keyword the caller passed |
| `Fields.Init` | hacker/fields.py:41-45 | the constructor's keyword dictionary becomes exactly that |
| `Fields.Deconstruct` | hacker/fields.py:47-52 | `deconstruct` succeeds iff every forced keyword is present, and then returns the keywords without the forced ones |
| `Fields.DeconstructRoundTrip` | hacker/fields.py:41-175 | deconstructing a constructed field and constructing it again gives the same keywords |
| `Fields.FuzzyDeconstruct` | hacker/fields.py:85-89 | the fuzzy field's `deconstruct` adds its data list when it has one, and keeps every other keyword |
| `Fields.FormfieldKwargs` | hacker/fields.py:55-58 | the default widget is used only when the caller passes none; every keyword the caller passed is kept |
| `Fields.FuzzyFormfieldWidget` | hacker/fields.py:81-84 | the fuzzy field's default widget is the datalist widget over its data and name |
| `Fields.Options` | hacker/fields.py:71-72 | one `<option value="...">` per item, in order; stated by `Fields.OptionCount` and `Fields.ListTextWidget.Render` |
| `Fields.CountCharAppend` | hacker/fields.py:70-73 | counting a character is additive over concatenation |
| `Fields.OptionCount` | hacker/fields.py:71-72 | the options of a list whose items have no `<` contain exactly one `<` per item |
| `Fields.ListTextWidget.constructor` | hacker/fields.py:62-66 | the widget keeps the given attributes and sets `list` to `list__<name>` |
| `Fields.ListTextWidget.Render` | hacker/fields.py:68-75 | rendering appends to the text input a datalist with id `list__<name>` and one option per item, in order |
| `Text.Join` | hacker/models.py:32-40 | `sep.join(parts)`; stated by `Text.JoinCons`, `Text.JoinSplit` and `Text.SplitJoin` |
| `Text.Split` | hacker/actions.py:41 | `s.split(sep)`, which always gives at least one part; stated by `Text.JoinSplit` and `Text.SplitJoin` |
| `Text.Lower` | hacker/validators.py:14 | `s.lower()`: the same length, each character lower-cased |
| `Text.JoinSplit` | hacker/actions.py:41 | splitting on a separator and joining again gives back the original string |
| `Text.SplitJoin` | hacker/models.py:32-40 | joining parts without the separator character and splitting again gives back the parts |
| `Text.DecimalRoundTrip` | registry/forms.py:74 | the decimal string of a number reads back as that number |
| `PathExt.SplitExt` | hacker/models.py:156 | `splitext` splits a path into root and extension that concatenate back to it; the extension is empty or a dot followed by no other dot or slash |
| `PathExt.ExtensionOfAppend` | hacker/models.py:156 | appending an extension to a base whose last component is not all dots gives back that base and extension |
| `PathExt.ExtensionKeepsCase` | hacker/validators.py:13 | the extension of `CV.PDF` is `.PDF`: splitting keeps the letter case |
| `PathExt.ExtensionIsLast` | hacker/validators.py:13 | the extension of `cv.pdf.exe` is `.exe`: only the last extension is split off |
| `PathExt.ExtensionOfPlainName` | hacker/validators.py:13 | `cv` has no extension |
| `PathExt.ExtensionOfDotFile` | hacker/validators.py:13 | the dot-files `.pdf` and `docs/.pdf` have no extension |
| `PathExt.ExtensionIgnoresDirectories` | hacker/models.py:156 | a dot in a directory name, as in `dir.d/cv`, is not an extension |

## Left out

- The database and the ORM are not modelled: queries, saves and related-object descriptors become maps in a `Store` value and in the `Database` class.
- Password hashing and password validators are not modelled: the account map stores the raw password.
- Signing in through `login` and the session are not modelled: the view returns the signed-in user instead.
- Template rendering is not modelled: a page is its template name, context and form errors, and the unbound form of a GET is not modelled.
- Per-field form cleaning (required fields, `DateField` parsing, slug checks) is not modelled: its errors and cleaned data are inputs to the model.
- `form.save(commit=False)` is not modelled: the record it builds is an input (`built`, or the `bind` function of a step). `SetupViews.BuiltFrom` states the one fact used about it, that it copies the cleaned email.
- Of the model validation that `_post_clean` runs (`instance.full_clean`), only the uniqueness of `email` is modelled. The other model-field checks repeat the form fields' own checks, whose errors are inputs.
- Forms.EmailTaken: the address is compared exactly; a database collation that ignores letter case is not modelled.
- Forms.RegistrationClean: follows the corrected hacker checks of the first finding. Where the source raises on a missing date of birth, it passes; the raising version is `Forms.RegistrationCleanAsWritten`.
- Forms.RegistrationPassedIff: is stated about the corrected checks, so it does not cover the case where the source raises (first finding).
- Forms.RegistrationForm.CleanHacker: follows the corrected hacker checks; where the source raises on a missing date of birth, it passes (first finding).
- Forms.RegistrationForm.Clean: runs the corrected hacker checks, so it has no raising case (first finding).
- Forms.RegistrationForm.FullClean: runs the corrected checks, so it has no raising case (first finding).
- SetupViews.RegisterResult: the corrected view. Where the source fails with a server error on a missing date of birth, it shows the form; the source's behaviour is `SetupViews.RegisterResultAsWritten`.
- SetupViews.Register: implements the corrected view, `SetupViews.RegisterResult`, not the raising one (first finding).
- SetupViews.RegisterCreatesAccountAndProfile: is stated about the corrected view; the raising case of the source is covered by `SetupViews.RegisterAsWrittenRaises`.
- `default_alternative` comes from `registry/views/registry.py`, which is not part of this model; it is a `Handler` parameter.
- Reading a stored file (`cv.cv.read()`) is not modelled: the file's bytes come from a `read` parameter.
- The settings `MIN_HACKER_AGE`, `INTERNAL_PREFIX` and `DEBUG` and today's date are parameters.
- Concurrency is not modelled: the username check and the account creation in `register` form one step, so two concurrent registrations of one name cannot race.
- `registry/views/edit.py`, `registry/views/auth.py` and `hacker/admin.py` are outside this model, and so are the migrations and hooks.
- `PhoneField` and `CountryField` are not modelled because they only delegate to third-party fields; of `PhoneField.formfield`, only the keyword merge is kept, as `Fields.FormfieldKwargs`.
- Fields.Deconstruct: Django's base `deconstruct` also omits keywords equal to their defaults; the model takes the parent's keywords as given.
- Actions.ExportRows: CSV quoting, UTF-8 encoding, the header font and the column widths are not modelled; the rows written are.
- Actions.ExportRows: `values_list` with a related lookup (`a__b`) is not modelled; only the model's own fields are columns, and any other name fails the query.
- Actions.ToExcel: scalars and lists have no attributes, so a `name` attribute is looked up only on model objects; `str(value)` of an object is its given text.
- Actions.MakeCells: `makeCell`'s exception fallback to `str(prop)` never fires, because a value read by `values_list` is already a known cell type.
- Actions.ExportRows: the XLSX content type `application/application/vnd...` is kept as the source writes it.
- Text.Lower: only ASCII letters are lower-cased, and `Validators.Repr` escapes only quotes, backslashes, newline, carriage return and tab.
- Validators.CheckExtension: checks the file name alone, as intended. As written, the two-argument `__call__` cannot be called as a field validator (third finding); `Validators.RunCvValidatorAsWritten` models that call.
- CvViews.CvProd: requires that the record holds a file, the only way the view calls it; the source would write `None` into the header otherwise.

## Findings

| source | as written | input that shows it | evidently intended | confidence | as-written member | corrected member |
|---|---|---|---|---|---|---|
| registry/forms.py:68-70 | after the three consent checks, `dob.year` is read with no check that `dob` was cleaned | a POST with all three consents ticked and the date of birth missing or malformed: `cleaned_data.get('dob')` is `None`, and `clean` raises `AttributeError` (an error page instead of the form) | stop the age check when the field has already failed, leaving its field error to be shown | not executed | `Forms.HackerCleanAsWritten` (shown by `Forms.MissingDobRaises`), in the view `SetupViews.RegisterResultAsWritten` (shown by `SetupViews.RegisterAsWrittenRaises`) | `Forms.HackerClean` (related by `Forms.HackerCleanAgreesWhereDefined`, specified by `Forms.HackerCleanPassedIff`), in the view `SetupViews.RegisterResult` (related by `SetupViews.RegisterAgreesWhereDefined`) |
| registry/views/setup.py:58-62 | `setup` is guarded by `login_required` only and then reads `request.user.hacker` | a signed-in account without a hacker profile, such as a superuser made from the shell: the missing related object raises and the request fails | `require_hacker`, as the other setup views use, answering forbidden | not executed | `SetupViews.SetupAsWritten` (shown by `SetupViews.SetupWithoutProfile`) | `SetupViews.Setup` (specified by `SetupViews.SetupRoutesByState`, agreeing by `SetupViews.SetupAgreesWithProfile`) |
| hacker/validators.py:12 | `FileExtensionValidator.__call__(self, instance, filename)` takes two arguments, and the CV field lists the validator in `validators` (hacker/models.py:163-169) | any CV upload that carries a file, such as `cv.pdf`: model validation calls the validator with the one file value, and the call raises `TypeError` before the extension is checked | `__call__(self, value)`, checking `value.name` | not executed | `Validators.RunCvValidatorAsWritten` (shown by `Validators.CvUploadRaises` and `Validators.CvPdfUploadRaises`) | `Validators.RunCvValidator` (specified by `Validators.RunCvValidatorIff`) |
