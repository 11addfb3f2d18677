/**
 * The profile-completion wizard: registration, the routing page that sends a
 * hacker to the first unset component, and the four generated step views,
 * each gated on its component being unset.
 *
 * Each view is a method on the database, proved against a function that
 * gives the new store and the response; the lemmas are about those
 * functions.
 */
module SetupViews {

  import opened Wrappers
  import opened Http
  import opened HackerModels
  import opened Decorators
  import Forms

  const SetupTemplate := "setup/setup.html"
  const FinishedTemplate := "setup/finished.html"

  function BoolString(b: bool): string
  {
    if b then "True" else "False"
  }

  // ---------------------------------------------------------------------------
  // register
  // ---------------------------------------------------------------------------

  const RegisterContext: map<string, string> :=
    map["title" := "Register", "subtitle" := "Enter your General Information",
        "next_text" := "Start JacobsHack! Application", "with_files" := BoolString(false)]

  /**
   * What field cleaning guarantees: a form without field errors has a string
   * for each of its required string fields.
   */
  predicate CredentialsCleaned(fieldErrors: Errors, cleaned: Forms.CleanedData)
  {
    fieldErrors == map[] ==>
      && Forms.Username in cleaned && cleaned[Forms.Username].Str?
      && Forms.Password1 in cleaned && cleaned[Forms.Password1].Str?
      && Forms.Email in cleaned && cleaned[Forms.Email].Str?
  }

  /** `form.save(commit=False)` copies the cleaned address into the instance it builds. */
  predicate BuiltFrom(cleaned: Forms.CleanedData, built: Hacker)
  {
    Forms.Email in cleaned && cleaned[Forms.Email].Str? ==> built.email == cleaned[Forms.Email].s
  }

  /** A freshly saved hacker has no component records yet. */
  function NewHacker(built: Hacker): (h: Hacker)
    ensures Completed(h) == {}
  {
    built.(sections := map[])
  }

  /**
   * The new store, the response and the signed-in user after `register`.
   * `fieldErrors` and `cleaned` are the form's field cleaning of the POST
   * data; `built` is the hacker that `form.save(commit=False)` builds.
   */
  function RegisterResult(s: Store, r: Request, fieldErrors: Errors, cleaned: Forms.CleanedData, built: Hacker,
                          today: Forms.Date, minAge: nat): (Store, Response, User)
    requires CredentialsCleaned(fieldErrors, cleaned)
  {
    if r.user.IsAuthenticated() then (s, Redirect("/"), r.user)
    else if r.verb == Post then
      var o := Forms.RegistrationClean(cleaned, s.users.Keys, today, minAge);
      var errors := Forms.ErrorsAfter(fieldErrors, o, minAge, cleaned, Emails(s));
      if errors == map[] then
        Forms.ErrorsAfterEmptyIff(fieldErrors, o, minAge, cleaned, Emails(s));
        var u := cleaned[Forms.Username].s;
        (Store(s.users[u := cleaned[Forms.Password1].s], s.hackers[u := NewHacker(built)]),
         RedirectToView("setup"), SignedIn(u, false))
      else (s, Page(SetupTemplate, RegisterContext, errors), r.user)
    else (s, Page(SetupTemplate, RegisterContext, map[]), r.user)
  }

  /**
   * `register` as written: its form's `clean` raises where the hacker checks
   * read a missing date of birth, and the request fails before anything is
   * saved; everywhere else it is `RegisterResult`.
   */
  function RegisterResultAsWritten(s: Store, r: Request, fieldErrors: Errors, cleaned: Forms.CleanedData, built: Hacker,
                                   today: Forms.Date, minAge: nat): (Store, Response, User)
    requires CredentialsCleaned(fieldErrors, cleaned)
  {
    if !r.user.IsAuthenticated() && r.verb == Post && Forms.RegistrationCleanAsWritten(cleaned, s.users.Keys, today, minAge).None?
    then (s, ServerError, r.user)
    else RegisterResult(s, r, fieldErrors, cleaned, built, today, minAge)
  }

  /**
   * An anonymous POST with the consents given, matching passwords, a free
   * username and a date of birth that failed to clean ends in a server
   * error; the corrected view shows the form with its errors instead.
   */
  lemma RegisterAsWrittenRaises(s: Store, r: Request, fieldErrors: Errors, cleaned: Forms.CleanedData, built: Hacker,
                                today: Forms.Date, minAge: nat)
    requires CredentialsCleaned(fieldErrors, cleaned)
    requires !r.user.IsAuthenticated() && r.verb == Post
    requires Forms.Get(cleaned, Forms.Password1) == Forms.Get(cleaned, Forms.Password2) && !Forms.UsernameTaken(cleaned, s.users.Keys)
    requires Forms.ConsentCheck(cleaned).Passed? && Forms.Dob !in cleaned && Forms.Dob in fieldErrors
    ensures RegisterResultAsWritten(s, r, fieldErrors, cleaned, built, today, minAge) == (s, ServerError, r.user)
    ensures RegisterResult(s, r, fieldErrors, cleaned, built, today, minAge).1.Page?
  {
    Forms.RegistrationCleanAgreesWhereDefined(cleaned, s.users.Keys, today, minAge);
    var o := Forms.RegistrationClean(cleaned, s.users.Keys, today, minAge);
    Forms.ErrorsAfterEmptyIff(fieldErrors, o, minAge, cleaned, Emails(s));
  }

  /** The two views agree wherever the form's checks as written do not raise. */
  lemma RegisterAgreesWhereDefined(s: Store, r: Request, fieldErrors: Errors, cleaned: Forms.CleanedData, built: Hacker,
                                   today: Forms.Date, minAge: nat)
    requires CredentialsCleaned(fieldErrors, cleaned)
    ensures RegisterResultAsWritten(s, r, fieldErrors, cleaned, built, today, minAge).1 != ServerError ==>
              RegisterResultAsWritten(s, r, fieldErrors, cleaned, built, today, minAge) == RegisterResult(s, r, fieldErrors, cleaned, built, today, minAge)
    ensures r.user.IsAuthenticated() || r.verb != Post || Forms.RegistrationCleanAsWritten(cleaned, s.users.Keys, today, minAge).Some? ==>
              RegisterResultAsWritten(s, r, fieldErrors, cleaned, built, today, minAge) == RegisterResult(s, r, fieldErrors, cleaned, built, today, minAge)
  {
    var o := Forms.RegistrationClean(cleaned, s.users.Keys, today, minAge);
    Forms.ErrorsAfterEmptyIff(fieldErrors, o, minAge, cleaned, Emails(s));
  }

  /** A signed-in caller is sent to the front page and nothing is created. */
  lemma RegisterSignedInChangesNothing(s: Store, r: Request, fieldErrors: Errors, cleaned: Forms.CleanedData, built: Hacker,
                                       today: Forms.Date, minAge: nat)
    requires CredentialsCleaned(fieldErrors, cleaned)
    requires r.user.IsAuthenticated()
    ensures RegisterResult(s, r, fieldErrors, cleaned, built, today, minAge) == (s, Redirect("/"), r.user)
  {
  }

  /**
   * A registration that goes through creates an account under a username
   * that was free, then a profile for it with no component set and an
   * address no other profile has, signs that user in and sends them to the
   * setup page; every other record is kept.
   */
  lemma RegisterCreatesAccountAndProfile(s: Store, r: Request, fieldErrors: Errors, cleaned: Forms.CleanedData, built: Hacker,
                                         today: Forms.Date, minAge: nat)
    requires CredentialsCleaned(fieldErrors, cleaned)
    requires ValidStore(s)
    ensures var (s', resp, user) := RegisterResult(s, r, fieldErrors, cleaned, built, today, minAge);
      && ValidStore(s')
      && (resp == RedirectToView("setup") <==>
            !r.user.IsAuthenticated() && r.verb == Post && fieldErrors == map[]
            && Forms.RegistrationClean(cleaned, s.users.Keys, today, minAge).Passed?
            && cleaned[Forms.Email].s !in Emails(s))
      && (resp == RedirectToView("setup") ==>
            var u := cleaned[Forms.Username].s;
            && u !in s.users && user == SignedIn(u, false)
            && s'.users == s.users[u := cleaned[Forms.Password1].s]
            && s'.hackers == s.hackers[u := NewHacker(built)]
            && SetupState(HackerComponents, Completed(s'.hackers[u])) == 0)
      && (resp != RedirectToView("setup") ==> s' == s && user == r.user)
  {
    var o := Forms.RegistrationClean(cleaned, s.users.Keys, today, minAge);
    Forms.ErrorsAfterEmptyIff(fieldErrors, o, minAge, cleaned, Emails(s));
    if !r.user.IsAuthenticated() && r.verb == Post && fieldErrors == map[] && o.Passed? {
      var u := cleaned[Forms.Username].s;
      assert !Forms.UsernameTaken(cleaned, s.users.Keys);
      assert Forms.Get(cleaned, Forms.Username) == Some(cleaned[Forms.Username]);
      assert u !in s.users;
      assert Completed(NewHacker(built)) == {};
      assert FirstUnset(HackerComponents, {}) == Some(HackerComponents[0]);
    }
  }

  /**
   * A registration never gives two profiles the same address: the new
   * profile's address was not stored before.
   */
  lemma RegisterKeepsEmailsDistinct(s: Store, r: Request, fieldErrors: Errors, cleaned: Forms.CleanedData, built: Hacker,
                                    today: Forms.Date, minAge: nat)
    requires CredentialsCleaned(fieldErrors, cleaned) && BuiltFrom(cleaned, built)
    requires ValidStore(s) && DistinctEmails(s)
    ensures DistinctEmails(RegisterResult(s, r, fieldErrors, cleaned, built, today, minAge).0)
  {
    var (s', resp, user) := RegisterResult(s, r, fieldErrors, cleaned, built, today, minAge);
    RegisterCreatesAccountAndProfile(s, r, fieldErrors, cleaned, built, today, minAge);
    if resp == RedirectToView("setup") {
      var u := cleaned[Forms.Username].s;
      forall v | v in s.hackers ensures s.hackers[v].email != s'.hackers[u].email {
        assert s.hackers[v].email in Emails(s);
      }
    }
  }

  /** `register` on the database. */
  method Register(db: Database, r: Request, fieldErrors: Errors, cleaned: Forms.CleanedData, built: Hacker,
                  today: Forms.Date, minAge: nat) returns (resp: Response, user: User)
    requires CredentialsCleaned(fieldErrors, cleaned)
    modifies db
    ensures (db.Snapshot(), resp, user) == RegisterResult(old(db.Snapshot()), r, fieldErrors, cleaned, built, today, minAge)
  {
    if r.user.IsAuthenticated() {
      return Redirect("/"), r.user;
    }
    if r.verb != Post {
      return Page(SetupTemplate, RegisterContext, map[]), r.user;
    }
    var form := new Forms.RegistrationForm(fieldErrors, cleaned);
    var o := form.FullClean(db.users.Keys, Emails(db.Snapshot()), today, minAge);
    if !form.IsValid() {
      return Page(SetupTemplate, RegisterContext, form.errors), r.user;
    }
    Forms.ErrorsAfterEmptyIff(fieldErrors, o, minAge, cleaned, Emails(db.Snapshot()));
    // the view cleans the form a second time; nothing was saved in between
    var again := form.Clean(db.users.Keys, today, minAge);
    assert again == o;
    var username := form.cleaned[Forms.Username].s;
    var password := form.cleaned[Forms.Password1].s;
    db.CreateUser(username, password);
    db.SaveHacker(username, NewHacker(built));
    return RedirectToView("setup"), SignedIn(username, false);
  }

  // ---------------------------------------------------------------------------
  // setup
  // ---------------------------------------------------------------------------

  /** The body of `setup`: the finished page, or the step of the first unset component. */
  function SetupPage(s: Store, r: Request): Response
  {
    match ProfileOf(s, r.user)
    case None => ServerError
    case Some(h) =>
      match FirstUnset(HackerComponents, Completed(h))
      case None => Page(FinishedTemplate, map["user" := r.user.username], map[])
      case Some(c) => RedirectToView("setup_" + c)
  }

  /** `setup` as written: guarded by `login_required` only. */
  function SetupAsWritten(): Handler
  {
    LoginRequired(SetupPage)
  }

  /** `setup` as intended, with the guard of every other hacker view. */
  function Setup(): Handler
  {
    RequireHacker(SetupPage)
  }

  /** A signed-in account without a profile makes `setup` fail with an unhandled lookup. */
  lemma SetupWithoutProfile(s: Store, r: Request)
    requires r.user.IsAuthenticated() && ProfileOf(s, r.user).None?
    ensures SetupAsWritten()(s, r) == ServerError
    ensures Setup()(s, r) == Forbidden
  {
    assert SetupAsWritten()(s, r) == SetupPage(s, r);
  }

  /** The two agree wherever the source does not fail. */
  lemma SetupAgreesWithProfile(s: Store, r: Request)
    requires !r.user.IsAuthenticated() || ProfileOf(s, r.user).Some?
    ensures SetupAsWritten()(s, r) == Setup()(s, r)
  {
  }

  /**
   * The routing follows the n+1 setup states: the finished page in the last
   * state, otherwise the step of the component the state stands at.
   */
  lemma SetupRoutesByState(s: Store, r: Request)
    requires ProfileOf(s, r.user).Some?
    ensures var k := SetupState(HackerComponents, Completed(ProfileOf(s, r.user).value));
      && (k == |HackerComponents| ==> Setup()(s, r) == Page(FinishedTemplate, map["user" := r.user.username], map[]))
      && (k < |HackerComponents| ==> Setup()(s, r) == RedirectToView("setup_" + HackerComponents[k]))
  {
    SetupStateResolves(HackerComponents, Completed(ProfileOf(s, r.user).value));
    RequireHackerDecides(SetupPage, s, r);
  }

  // ---------------------------------------------------------------------------
  // The generated step views
  // ---------------------------------------------------------------------------

  /** The arguments of `setupViewFactory`. */
  datatype Step = Step(prop: string, title: string, subtitle: string, withFiles: bool)

  const Steps: seq<Step> := [
    Step("academic", "Academic Data", "tell us why you are eligible for jacobsHack!", false),
    Step("application", "jacobsHack! Application", "tell us your reasons for applying", false),
    Step("organizational", "Organizational Details", "some more organizational details we need to work out", false),
    Step("cv", "CV", "upload your CV", true)
  ]

  /** One step per registered component, in registry order, and only the CV step takes files. */
  lemma StepsMatchRegistry()
    ensures |Steps| == |HackerComponents|
    ensures forall i :: 0 <= i < |Steps| ==> Steps[i].prop == HackerComponents[i]
    ensures forall i :: 0 <= i < |Steps| ==> (Steps[i].withFiles <==> Steps[i].prop == CV.relatedName)
  {
  }

  /**
   * A form class bound to POST data and files: the errors `is_valid` finds
   * and the record `save(commit=False)` builds.
   */
  type FormBinding = (map<string, string>, Option<map<string, Upload>>) -> (Errors, Section)

  /** `request.FILES or None` for a step that takes files, None for the others. */
  function FilesFor(step: Step, r: Request): (files: Option<map<string, Upload>>)
    ensures files.Some? <==> step.withFiles && r.files != map[]
  {
    if step.withFiles && r.files != map[] then Some(r.files) else None
  }

  function StepContext(step: Step): map<string, string>
  {
    map["title" := step.title, "subtitle" := step.subtitle, "next_text" := "Continue",
        "with_files" := BoolString(step.withFiles)]
  }

  /** The new store and the response of a step view. */
  function StepResult(s: Store, step: Step, alternative: Handler, bind: FormBinding, r: Request): (Store, Response)
  {
    match UnsetComponentDecision(step.prop, s, r)
    case ToLogin => (s, RedirectToLogin(r.path))
    case Deny => (s, Forbidden)
    case ToAlternative => (s, alternative(s, r))
    case ToView =>
      if r.verb == Post then
        var (errors, record) := bind(r.post, FilesFor(step, r));
        if errors == map[] then
          var h := s.hackers[r.user.username];
          (s.(hackers := s.hackers[r.user.username := h.(sections := h.sections[step.prop := record])]), RedirectToView("setup"))
        else (s, Page(SetupTemplate, StepContext(step), errors))
      else (s, Page(SetupTemplate, StepContext(step), map[]))
  }

  /**
   * The step is gated as the decorator gates it: unless the component is
   * unset, the store is untouched and the response is the guard's, whatever
   * view it wraps.
   */
  lemma StepIsGated(s: Store, step: Step, alternative: Handler, bind: FormBinding, r: Request, view: Handler)
    requires UnsetComponentDecision(step.prop, s, r) != ToView
    ensures StepResult(s, step, alternative, bind, r) == (s, RequireUnsetComponent(step.prop, alternative, view)(s, r))
  {
    RequireUnsetComponentDecides(step.prop, alternative, view, s, r);
  }

  /**
   * A step view only ever adds a component record to the caller's profile:
   * no account or profile appears or disappears, and no profile loses a
   * component.
   */
  lemma StepOnlyGrows(s: Store, step: Step, alternative: Handler, bind: FormBinding, r: Request)
    ensures var s' := StepResult(s, step, alternative, bind, r).0;
      && s'.users == s.users && s'.hackers.Keys == s.hackers.Keys
      && forall u :: u in s.hackers ==> Completed(s.hackers[u]) <= Completed(s'.hackers[u])
  {
  }

  /**
   * A step ends in the redirect to `setup` exactly when its component was
   * unset and the form was valid; then the component is set, and the setup
   * state advances iff it was the first unset one. Any other outcome leaves
   * the store as it was.
   */
  lemma StepSetsComponent(s: Store, step: Step, alternative: Handler, bind: FormBinding, r: Request)
    requires alternative(s, r) != RedirectToView("setup")
    ensures var (s', resp) := StepResult(s, step, alternative, bind, r);
      && (resp == RedirectToView("setup") <==>
            && ProfileOf(s, r.user).Some? && !HasComponent(ProfileOf(s, r.user).value, step.prop)
            && r.verb == Post && bind(r.post, FilesFor(step, r)).0 == map[])
      && (resp == RedirectToView("setup") ==>
            var done := Completed(s.hackers[r.user.username]);
            && HasComponent(s'.hackers[r.user.username], step.prop)
            && Completed(s'.hackers[r.user.username]) == done + {step.prop}
            && (SetupState(HackerComponents, done + {step.prop}) > SetupState(HackerComponents, done) <==>
                  FirstUnset(HackerComponents, done) == Some(step.prop)))
      && (resp != RedirectToView("setup") ==> s' == s)
  {
    var (s', resp) := StepResult(s, step, alternative, bind, r);
    if resp == RedirectToView("setup") {
      var done := Completed(s.hackers[r.user.username]);
      CompletingAdvances(HackerComponents, done, step.prop);
      SetupStateMonotone(HackerComponents, done, done + {step.prop});
    }
  }

  /** A step without uploads never looks at the request's files. */
  lemma StepIgnoresFiles(s: Store, step: Step, alternative: Handler, bind: FormBinding, r: Request, files: map<string, Upload>)
    requires !step.withFiles && UnsetComponentDecision(step.prop, s, r) == ToView
    ensures StepResult(s, step, alternative, bind, r) == StepResult(s, step, alternative, bind, r.(files := files))
  {
    assert ProfileOf(s, r.(files := files).user) == ProfileOf(s, r.user);
  }

  /** A generated step view on the database. */
  method SetupStep(db: Database, step: Step, alternative: Handler, bind: FormBinding, r: Request) returns (resp: Response)
    modifies db
    ensures (db.Snapshot(), resp) == StepResult(old(db.Snapshot()), step, alternative, bind, r)
  {
    var s := db.Snapshot();
    var decision := UnsetComponentDecision(step.prop, s, r);
    if decision == ToLogin {
      return RedirectToLogin(r.path);
    } else if decision == Deny {
      return Forbidden;
    } else if decision == ToAlternative {
      return alternative(s, r);
    }
    if r.verb == Post {
      var files := FilesFor(step, r);
      var (errors, record) := bind(r.post, files);
      if errors == map[] {
        db.SaveSection(r.user.username, step.prop, record);
        return RedirectToView("setup");
      }
      return Page(SetupTemplate, StepContext(step), errors);
    }
    return Page(SetupTemplate, StepContext(step), map[]);
  }
}
