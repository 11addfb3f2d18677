/**
 * The cross-field checks of the registration form: the consent cascade and
 * the minimum-age rule of `HackerForm.clean`, the password and username
 * checks `RegistrationForm.clean` runs before them, and the coercion of the
 * RSVP answer.
 *
 * A form's own field cleaning is not modelled: a form starts from the field
 * errors and the cleaned data it produced. The form object then keeps its
 * error dictionary and cleaned data as fields, which `add_error` updates.
 */
module Forms {

  import opened Wrappers
  import opened Text
  import Http

  // ---------------------------------------------------------------------------
  // Dates and the age formula
  // ---------------------------------------------------------------------------

  datatype Date = Date(year: int, month: int, day: int)

  /** Python's `(a.month, a.day) < (b.month, b.day)`. */
  predicate DayOfYearBefore(a: Date, b: Date)
  {
    a.month < b.month || (a.month == b.month && a.day < b.day)
  }

  /** Lexicographic `a <= b` on (year, month, day). */
  predicate DateLe(a: Date, b: Date)
  {
    a.year < b.year || (a.year == b.year && !DayOfYearBefore(b, a))
  }

  /** `today.year - dob.year - ((today.month, today.day) < (dob.month, dob.day))`. */
  function Age(today: Date, dob: Date): int
  {
    today.year - dob.year - (if DayOfYearBefore(today, dob) then 1 else 0)
  }

  /** Being at least `n` years old is having had one's `n`-th birthday on or before today. */
  lemma AgeAtLeastIff(today: Date, dob: Date, n: int)
    ensures Age(today, dob) >= n <==> DateLe(Date(dob.year + n, dob.month, dob.day), today)
  {
  }

  /** On the `n`-th birthday the age is `n`; on the day before it is `n - 1`. */
  lemma AgeOnBirthday(dob: Date, n: int)
    ensures Age(Date(dob.year + n, dob.month, dob.day), dob) == n
    ensures Age(Date(dob.year + n, dob.month, dob.day - 1), dob) == n - 1
  {
  }

  // ---------------------------------------------------------------------------
  // Cleaned data
  // ---------------------------------------------------------------------------

  /** A cleaned value: a checkbox, a string or a date. */
  datatype Value = Flag(b: bool) | Str(s: string) | Day(d: Date)

  type CleanedData = map<string, Value>

  /** `cleaned_data.get(key)`. */
  function Get(data: CleanedData, key: string): Option<Value>
  {
    if key in data then Some(data[key]) else None
  }

  /** Python truthiness of `cleaned_data.get(key)`. */
  predicate Truthy(v: Option<Value>)
  {
    match v
    case None => false
    case Some(Flag(b)) => b
    case Some(Str(s)) => s != ""
    case Some(Day(_)) => true
  }

  /** The three consent flags, in the order they are checked. */
  const JacobsHackTerms := "jacobsHackTerms"
  const MlhCodeOfConduct := "mlhCodeOfConduct"
  const MlhContestTerms := "mlhContestTerms"
  const Dob := "dob"
  const Password1 := "password1"
  const Password2 := "password2"
  const Username := "username"
  const Email := "email"

  const JacobsHackTermsMessage := "You need to accept the JacobsHack Terms and Conditions to apply to JacobsHack. "
  const MlhCodeOfConductMessage := "You need to accept the MLH Code of Conduct to apply to JacobsHack. "
  const MlhContestTermsMessage := "You need to accept the MLH Contest Terms & Conditions to apply to JacobsHack. "
  const PasswordMessage := "Please make sure that the password you entered is correct. "
  const UsernameTakenMessage := "This username is already taken, please pick another. "
  const CorrectBelowMessage := "Please correct the error below. "
  /** The framework's uniqueness message for the model `Hacker` and its field `email`. */
  const EmailTakenMessage := "Hacker with this Email already exists."

  function MinorMessage(minAge: nat): string
  {
    "We are not allowed to accept applications of minors for JacobsHack. Please apply once you are older than "
    + DecimalString(minAge) + " years of age. "
  }

  /** The checks of the two `clean` methods. */
  datatype Check = PasswordMatch | UsernameFree | JacobsHackConsent | CodeOfConductConsent | ContestTermsConsent | MinimumAge

  /** The field each check files its error under. */
  function FieldOf(c: Check): string
  {
    match c
    case PasswordMatch => Password2
    case UsernameFree => Username
    case JacobsHackConsent => JacobsHackTerms
    case CodeOfConductConsent => MlhCodeOfConduct
    case ContestTermsConsent => MlhContestTerms
    case MinimumAge => Dob
  }

  /** The message of each check's field error. */
  function MessageOf(c: Check, minAge: nat): string
  {
    match c
    case PasswordMatch => PasswordMessage
    case UsernameFree => UsernameTakenMessage
    case JacobsHackConsent => JacobsHackTermsMessage
    case CodeOfConductConsent => MlhCodeOfConductMessage
    case ContestTermsConsent => MlhContestTermsMessage
    case MinimumAge => MinorMessage(minAge)
  }

  /** A `clean` method's end: returning normally, or a failed check's field error followed by a raise. */
  datatype CleanOutcome = Passed | Refused(check: Check)

  // ---------------------------------------------------------------------------
  // HackerForm.clean
  // ---------------------------------------------------------------------------

  /** The consent cascade: the first falsy flag is refused and nothing after it is checked. */
  function ConsentCheck(data: CleanedData): (o: CleanOutcome)
    ensures o.Passed? <==> Truthy(Get(data, JacobsHackTerms)) && Truthy(Get(data, MlhCodeOfConduct)) && Truthy(Get(data, MlhContestTerms))
  {
    if !Truthy(Get(data, JacobsHackTerms)) then Refused(JacobsHackConsent)
    else if !Truthy(Get(data, MlhCodeOfConduct)) then Refused(CodeOfConductConsent)
    else if !Truthy(Get(data, MlhContestTerms)) then Refused(ContestTermsConsent)
    else Passed
  }

  /**
   * `HackerForm.clean` as written. None stands for the exception raised when
   * the date of birth is missing from the cleaned data (its own field failed
   * to clean) and the flags all pass: `None.year` is read.
   */
  function HackerCleanAsWritten(data: CleanedData, today: Date, minAge: nat): Option<CleanOutcome>
  {
    var consent := ConsentCheck(data);
    if consent.Refused? then Some(consent)
    else match Get(data, Dob)
      case Some(Day(dob)) =>
        if Age(today, dob) < minAge then Some(Refused(MinimumAge)) else Some(Passed)
      case _ => None
  }

  /** The consent flags accepted and an empty date-of-birth field is enough to make the check raise. */
  lemma MissingDobRaises(today: Date, minAge: nat)
    ensures HackerCleanAsWritten(map[JacobsHackTerms := Flag(true), MlhCodeOfConduct := Flag(true), MlhContestTerms := Flag(true)],
                                 today, minAge).None?
  {
  }

  /**
   * `HackerForm.clean` as intended: the age check applies when a date of
   * birth was cleaned; when it was not, its own field error already makes
   * the form invalid.
   */
  function HackerClean(data: CleanedData, today: Date, minAge: nat): CleanOutcome
  {
    var consent := ConsentCheck(data);
    if consent.Refused? then consent
    else match Get(data, Dob)
      case Some(Day(dob)) =>
        if Age(today, dob) < minAge then Refused(MinimumAge) else Passed
      case _ => Passed
  }

  /** The corrected check differs from the source only where the source raises. */
  lemma HackerCleanAgreesWhereDefined(data: CleanedData, today: Date, minAge: nat)
    ensures HackerCleanAsWritten(data, today, minAge).Some? ==> HackerCleanAsWritten(data, today, minAge).value == HackerClean(data, today, minAge)
    ensures HackerCleanAsWritten(data, today, minAge).None? <==> ConsentCheck(data).Passed? && !(Get(data, Dob).Some? && Get(data, Dob).value.Day?)
  {
  }

  /** The check passes iff all three flags are set and a cleaned date of birth is old enough. */
  lemma HackerCleanPassedIff(data: CleanedData, today: Date, minAge: nat)
    requires Get(data, Dob).Some? && Get(data, Dob).value.Day?
    ensures HackerClean(data, today, minAge).Passed?
            <==> && Truthy(Get(data, JacobsHackTerms)) && Truthy(Get(data, MlhCodeOfConduct)) && Truthy(Get(data, MlhContestTerms))
                 && DateLe(Date(data[Dob].d.year + minAge, data[Dob].d.month, data[Dob].d.day), today)
  {
    AgeAtLeastIff(today, data[Dob].d, minAge);
  }

  /**
   * The fixed order: each field is refused exactly when every check before it
   * passed and its own fails.
   */
  lemma HackerCleanOrder(data: CleanedData, today: Date, minAge: nat)
    ensures var o := HackerClean(data, today, minAge);
      && (o == Refused(JacobsHackConsent) <==> !Truthy(Get(data, JacobsHackTerms)))
      && (o == Refused(CodeOfConductConsent) <==>
            Truthy(Get(data, JacobsHackTerms)) && !Truthy(Get(data, MlhCodeOfConduct)))
      && (o == Refused(ContestTermsConsent) <==>
            Truthy(Get(data, JacobsHackTerms)) && Truthy(Get(data, MlhCodeOfConduct)) && !Truthy(Get(data, MlhContestTerms)))
      && (o == Refused(MinimumAge) <==>
            ConsentCheck(data).Passed? && Get(data, Dob).Some? && Get(data, Dob).value.Day?
                 && Age(today, data[Dob].d) < minAge)
      && (o.Refused? ==> o.check in {JacobsHackConsent, CodeOfConductConsent, ContestTermsConsent, MinimumAge})
  {
  }

  /**
   * Only the three flags and the date of birth are read: in particular the
   * sharing consent, which is not even a field of the form, is never required.
   */
  lemma HackerCleanReadsOnly(d1: CleanedData, d2: CleanedData, today: Date, minAge: nat)
    requires forall k :: k in {JacobsHackTerms, MlhCodeOfConduct, MlhContestTerms, Dob} ==> Get(d1, k) == Get(d2, k)
    ensures HackerClean(d1, today, minAge) == HackerClean(d2, today, minAge)
  {
    assert Get(d1, JacobsHackTerms) == Get(d2, JacobsHackTerms);
    assert Get(d1, MlhCodeOfConduct) == Get(d2, MlhCodeOfConduct);
    assert Get(d1, MlhContestTerms) == Get(d2, MlhContestTerms);
    assert Get(d1, Dob) == Get(d2, Dob);
  }

  // ---------------------------------------------------------------------------
  // RegistrationForm.clean
  // ---------------------------------------------------------------------------

  /** `User.objects.filter(username=cleaned_data.get("username")).exists()`. */
  predicate UsernameTaken(data: CleanedData, existing: set<string>)
  {
    Get(data, Username).Some? && Get(data, Username).value.Str? && Get(data, Username).value.s in existing
  }

  /** Password match, then a free username, then the hacker checks. */
  function RegistrationClean(data: CleanedData, existing: set<string>, today: Date, minAge: nat): CleanOutcome
  {
    if Get(data, Password1) != Get(data, Password2) then Refused(PasswordMatch)
    else if UsernameTaken(data, existing) then Refused(UsernameFree)
    else HackerClean(data, today, minAge)
  }

  /** `RegistrationForm.clean` as written, over the raising hacker checks; None is the exception. */
  function RegistrationCleanAsWritten(data: CleanedData, existing: set<string>, today: Date, minAge: nat): Option<CleanOutcome>
  {
    if Get(data, Password1) != Get(data, Password2) then Some(Refused(PasswordMatch))
    else if UsernameTaken(data, existing) then Some(Refused(UsernameFree))
    else HackerCleanAsWritten(data, today, minAge)
  }

  /**
   * The registration checks as written raise exactly when the passwords
   * match, the username is free, the consents pass and no date of birth was
   * cleaned; otherwise they agree with the corrected checks.
   */
  lemma RegistrationCleanAgreesWhereDefined(data: CleanedData, existing: set<string>, today: Date, minAge: nat)
    ensures RegistrationCleanAsWritten(data, existing, today, minAge).None?
            <==> && Get(data, Password1) == Get(data, Password2) && !UsernameTaken(data, existing)
                 && ConsentCheck(data).Passed? && !(Get(data, Dob).Some? && Get(data, Dob).value.Day?)
    ensures RegistrationCleanAsWritten(data, existing, today, minAge).Some? ==>
              RegistrationCleanAsWritten(data, existing, today, minAge).value == RegistrationClean(data, existing, today, minAge)
  {
    HackerCleanAgreesWhereDefined(data, today, minAge);
  }

  /** A mismatch is refused on `password2` whatever else the data holds. */
  lemma PasswordCheckedFirst(data: CleanedData, existing: set<string>, today: Date, minAge: nat)
    requires Get(data, Password1) != Get(data, Password2)
    ensures RegistrationClean(data, existing, today, minAge) == Refused(PasswordMatch)
  {
  }

  /**
   * The username is refused only after the passwords matched, and the hacker
   * checks only refuse once both earlier checks passed.
   */
  lemma RegistrationOrder(data: CleanedData, existing: set<string>, today: Date, minAge: nat)
    ensures var o := RegistrationClean(data, existing, today, minAge);
      && (o == Refused(UsernameFree) <==> Get(data, Password1) == Get(data, Password2) && UsernameTaken(data, existing))
      && (o.Refused? && o.check !in {PasswordMatch, UsernameFree} ==>
            Get(data, Password1) == Get(data, Password2) && !UsernameTaken(data, existing) && o == HackerClean(data, today, minAge))
  {
    HackerCleanOrder(data, today, minAge);
  }

  /** The registration checks pass iff every check of the cascade passes. */
  lemma RegistrationPassedIff(data: CleanedData, existing: set<string>, today: Date, minAge: nat)
    ensures RegistrationClean(data, existing, today, minAge).Passed?
            <==> && Get(data, Password1) == Get(data, Password2)
                 && !UsernameTaken(data, existing)
                 && ConsentCheck(data).Passed?
                 && (Get(data, Dob).Some? && Get(data, Dob).value.Day? ==> Age(today, data[Dob].d) >= minAge)
  {
  }

  // ---------------------------------------------------------------------------
  // The form object
  // ---------------------------------------------------------------------------

  /** `form.add_error(field, message)` on an error dictionary. */
  function AppendError(errors: Http.Errors, field: string, message: string): (r: Http.Errors)
    ensures r.Keys == errors.Keys + {field}
    ensures forall k :: k in errors && k != field ==> r[k] == errors[k]
    ensures r[field] == (if field in errors then errors[field] else []) + [message]
  {
    errors[field := (if field in errors then errors[field] else []) + [message]]
  }

  /**
   * The uniqueness check of `_post_clean` on the unique `email` field: it is
   * skipped for a field that already has an error, and otherwise finds the
   * cleaned address among the stored hackers' addresses.
   */
  predicate EmailTaken(errors: Http.Errors, data: CleanedData, emails: set<string>)
  {
    Email !in errors && Get(data, Email).Some? && Get(data, Email).value.Str? && Get(data, Email).value.s in emails
  }

  /**
   * The errors after `full_clean`: `_clean_form` ran a `clean` with the given
   * outcome, then `_post_clean` checked the email's uniqueness, which it does
   * only once the model form's own `clean` was reached, that is, when every
   * check passed. `data` is the cleaned data `clean` started from.
   */
  function ErrorsAfter(errors: Http.Errors, o: CleanOutcome, minAge: nat, data: CleanedData, emails: set<string>): Http.Errors
  {
    match o
    case Passed => if EmailTaken(errors, data, emails) then AppendError(errors, Email, EmailTakenMessage) else errors
    case Refused(c) => AppendError(AppendError(errors, FieldOf(c), MessageOf(c, minAge)), Http.NonFieldErrors, CorrectBelowMessage)
  }

  /**
   * The form is valid afterwards iff the fields cleaned without error, every
   * check passed and the email is not yet taken.
   */
  lemma ErrorsAfterEmptyIff(errors: Http.Errors, o: CleanOutcome, minAge: nat, data: CleanedData, emails: set<string>)
    ensures ErrorsAfter(errors, o, minAge, data, emails) == map[]
            <==> errors == map[] && o.Passed? && !(Get(data, Email).Some? && Get(data, Email).value.Str? && Get(data, Email).value.s in emails)
  {
    if o.Refused? {
      assert Http.NonFieldErrors in ErrorsAfter(errors, o, minAge, data, emails);
    } else if EmailTaken(errors, data, emails) {
      assert Email in ErrorsAfter(errors, o, minAge, data, emails);
    }
  }

  /** A taken address is reported on `email` even when other fields failed, and never on a refused clean. */
  lemma EmailTakenReported(errors: Http.Errors, o: CleanOutcome, minAge: nat, data: CleanedData, emails: set<string>)
    ensures o.Passed? && EmailTaken(errors, data, emails) ==>
              ErrorsAfter(errors, o, minAge, data, emails)[Email] == [EmailTakenMessage]
    ensures o.Refused? && FieldOf(o.check) != Email ==>
              (Email in ErrorsAfter(errors, o, minAge, data, emails) <==> Email in errors)
  {
  }

  /** A bound registration form: its error dictionary and its cleaned data. */
  class RegistrationForm {
    var errors: Http.Errors
    var cleaned: CleanedData

    /** The form after its fields were cleaned. */
    constructor (fieldErrors: Http.Errors, cleanedData: CleanedData)
      ensures errors == fieldErrors && cleaned == cleanedData
    {
      errors := fieldErrors;
      cleaned := cleanedData;
    }

    /** `add_error(field, message)`: records the error and drops the field's cleaned value. */
    method AddError(field: string, message: string)
      modifies this
      ensures errors == AppendError(old(errors), field, message)
      ensures cleaned == old(cleaned) - {field}
    {
      errors := AppendError(errors, field, message);
      cleaned := cleaned - {field};
    }

    /** `HackerForm.clean`, as intended. */
    method CleanHacker(today: Date, minAge: nat) returns (o: CleanOutcome)
      modifies this
      ensures o == HackerClean(old(cleaned), today, minAge)
      ensures o.Passed? ==> errors == old(errors) && cleaned == old(cleaned)
      ensures o.Refused? ==> errors == AppendError(old(errors), FieldOf(o.check), MessageOf(o.check, minAge)) && cleaned == old(cleaned) - {FieldOf(o.check)}
    {
      if !Truthy(Get(cleaned, JacobsHackTerms)) {
        AddError(FieldOf(JacobsHackConsent), MessageOf(JacobsHackConsent, minAge));
        return Refused(JacobsHackConsent);
      }
      if !Truthy(Get(cleaned, MlhCodeOfConduct)) {
        AddError(FieldOf(CodeOfConductConsent), MessageOf(CodeOfConductConsent, minAge));
        return Refused(CodeOfConductConsent);
      }
      if !Truthy(Get(cleaned, MlhContestTerms)) {
        AddError(FieldOf(ContestTermsConsent), MessageOf(ContestTermsConsent, minAge));
        return Refused(ContestTermsConsent);
      }
      var dob := Get(cleaned, Dob);
      if dob.Some? && dob.value.Day? && Age(today, dob.value.d) < minAge {
        AddError(FieldOf(MinimumAge), MessageOf(MinimumAge, minAge));
        return Refused(MinimumAge);
      }
      return Passed;
    }

    /** `RegistrationForm.clean`. */
    method Clean(existing: set<string>, today: Date, minAge: nat) returns (o: CleanOutcome)
      modifies this
      ensures o == RegistrationClean(old(cleaned), existing, today, minAge)
      ensures o.Passed? ==> errors == old(errors) && cleaned == old(cleaned)
      ensures o.Refused? ==> errors == AppendError(old(errors), FieldOf(o.check), MessageOf(o.check, minAge)) && cleaned == old(cleaned) - {FieldOf(o.check)}
    {
      if Get(cleaned, Password1) != Get(cleaned, Password2) {
        AddError(FieldOf(PasswordMatch), MessageOf(PasswordMatch, minAge));
        return Refused(PasswordMatch);
      }
      if UsernameTaken(cleaned, existing) {
        AddError(FieldOf(UsernameFree), MessageOf(UsernameFree, minAge));
        return Refused(UsernameFree);
      }
      o := CleanHacker(today, minAge);
    }

    /** `validate_unique()` of `_post_clean` on the one unique field, `email`. */
    method ValidateUnique(emails: set<string>)
      modifies this
      ensures EmailTaken(old(errors), old(cleaned), emails) ==>
                errors == AppendError(old(errors), Email, EmailTakenMessage) && cleaned == old(cleaned) - {Email}
      ensures !EmailTaken(old(errors), old(cleaned), emails) ==> errors == old(errors) && cleaned == old(cleaned)
    {
      if EmailTaken(errors, cleaned, emails) {
        AddError(Email, EmailTakenMessage);
      }
    }

    /**
     * `_clean_form`, which runs `clean` and files its raised message under the
     * non-field errors, then `_post_clean`, which checks uniqueness only if
     * `clean` reached the model form's own `clean`.
     */
    method FullClean(existing: set<string>, emails: set<string>, today: Date, minAge: nat) returns (o: CleanOutcome)
      modifies this
      ensures o == RegistrationClean(old(cleaned), existing, today, minAge)
      ensures errors == ErrorsAfter(old(errors), o, minAge, old(cleaned), emails)
      ensures o.Passed? ==> cleaned == if EmailTaken(old(errors), old(cleaned), emails) then old(cleaned) - {Email} else old(cleaned)
      ensures o.Refused? ==> cleaned == old(cleaned) - {FieldOf(o.check)}
    {
      o := Clean(existing, today, minAge);
      if o.Refused? {
        errors := AppendError(errors, Http.NonFieldErrors, CorrectBelowMessage);
      } else {
        ValidateUnique(emails);
      }
    }

    /** `is_valid()`: no error at all, from the fields or from `clean`. */
    predicate IsValid()
      reads this
    {
      errors == map[]
    }
  }

  // ---------------------------------------------------------------------------
  // RSVPForm.going
  // ---------------------------------------------------------------------------

  /** `str(b)`. */
  function BoolString(b: bool): string
  {
    if b then "True" else "False"
  }

  /** The `coerce` of the `going` field. */
  function CoerceGoing(x: string): (r: bool)
    ensures r <==> x == "True"
  {
    x == "True"
  }

  /** The field's cleaning: a choice must be `str` of one of the two choices, then it is coerced. */
  function CleanGoing(x: string): (r: Option<bool>)
    ensures r.Some? <==> x == BoolString(true) || x == BoolString(false)
  {
    if x == BoolString(true) || x == BoolString(false) then Some(CoerceGoing(x)) else None
  }

  /** Each rendered choice cleans back to the answer it stands for. */
  lemma GoingRoundTrip(b: bool)
    ensures CleanGoing(BoolString(b)) == Some(b)
  {
  }
}
