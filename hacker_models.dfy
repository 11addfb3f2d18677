/**
 * The hacker profile, its ordered registry of setup components and the
 * resolver that finds the first component a hacker has not filled in yet,
 * together with the naming rules of the CV component.
 *
 * Persistence is a value: each hacker carries the map from component name to
 * its linked record, so the set of completed components is that map's key set.
 */
module HackerModels {

  import opened Wrappers
  import opened Text
  import PathExt

  // ---------------------------------------------------------------------------
  // Component record types and the registry
  // ---------------------------------------------------------------------------

  /** A model class linked one-to-one to a hacker through its `hacker` field. */
  datatype ComponentType = ComponentType(model: string, relatedName: string)

  const AcademicData := ComponentType("AcademicData", "academic")
  const HackathonApplication := ComponentType("HackathonApplication", "application")
  const Organizational := ComponentType("Organizational", "organizational")
  const CV := ComponentType("CV", "cv")
  /** Linked to a hacker like the others, but never registered as a component. */
  const Approval := ComponentType("Approval", "approval")

  /** The registry's key order once every component class has been declared. */
  const HackerComponents: seq<string> := ["academic", "application", "organizational", "cv"]

  predicate NoDuplicates(s: seq<string>)
  {
    forall i, j :: 0 <= i < j < |s| ==> s[i] != s[j]
  }

  /**
   * `Hacker.components`: an insertion-ordered dictionary from component name to
   * record type, kept as its key order plus its entries.
   */
  class ComponentRegistry {
    var names: seq<string>
    var types: map<string, ComponentType>

    ghost predicate Valid()
      reads this
    {
      NoDuplicates(names) && forall c :: c in types <==> c in names
    }

    constructor ()
      ensures Valid() && names == [] && types == map[]
    {
      names := [];
      types := map[];
    }

    /**
     * `register_component`: stores `f` under the related name of its `hacker`
     * field and returns it unchanged. A name already present keeps its place
     * and gets the new value; a new name goes to the end.
     */
    method Register(f: ComponentType) returns (r: ComponentType)
      requires Valid()
      modifies this
      ensures Valid()
      ensures r == f
      ensures (names, types) == Registered(old(names), old(types), f)
    {
      var name := f.relatedName;
      if name !in types {
        names := names + [name];
      }
      types := types[name := f];
      r := f;
    }

    /**
     * `get_first_unset_component`: walks the registry in order and returns
     * the first name whose record the hacker lacks.
     */
    method GetFirstUnsetComponent(h: Hacker) returns (r: Option<string>)
      requires Valid()
      ensures r == FirstUnset(names, Completed(h))
      ensures r.None? <==> forall i :: 0 <= i < |names| ==> HasComponent(h, names[i])
      ensures r.Some? ==> exists i :: 0 <= i < |names| && names[i] == r.value && !HasComponent(h, names[i])
                                      && forall j :: 0 <= j < i ==> HasComponent(h, names[j])
    {
      var k := 0;
      while k < |names|
        invariant 0 <= k <= |names|
        invariant forall j :: 0 <= j < k ==> HasComponent(h, names[j])
        invariant FirstUnset(names, Completed(h)) == FirstUnset(names[k..], Completed(h))
      {
        assert names[k..][1..] == names[k + 1..];
        if !HasComponent(h, names[k]) {
          FirstUnsetSpec(names, Completed(h));
          return Some(names[k]);
        }
        k := k + 1;
      }
      return None;
    }
  }

  /** The registry's key order and entries after registering `f`. */
  function Registered(names: seq<string>, types: map<string, ComponentType>, f: ComponentType)
    : (r: (seq<string>, map<string, ComponentType>))
    ensures |names| <= |r.0| <= |names| + 1 && r.0[..|names|] == names
    ensures r.1.Keys == types.Keys + {f.relatedName} && r.1[f.relatedName] == f
  {
    (if f.relatedName in types then names else names + [f.relatedName], types[f.relatedName := f])
  }

  /** The related names of the linked classes are pairwise different. */
  lemma RelatedNamesDistinct()
    ensures AcademicData.relatedName != HackathonApplication.relatedName
    ensures Organizational.relatedName !in {AcademicData.relatedName, HackathonApplication.relatedName}
    ensures CV.relatedName !in {AcademicData.relatedName, HackathonApplication.relatedName, Organizational.relatedName}
    ensures Approval.relatedName !in {AcademicData.relatedName, HackathonApplication.relatedName, Organizational.relatedName, CV.relatedName}
  {
    assert AcademicData.relatedName[1] != HackathonApplication.relatedName[1];
    assert Approval.relatedName[3] != HackathonApplication.relatedName[3];
  }

  /** Registering the four component classes in declaration order. */
  lemma HackerRegistration()
    ensures var r1 := Registered([], map[], AcademicData);
            var r2 := Registered(r1.0, r1.1, HackathonApplication);
            var r3 := Registered(r2.0, r2.1, Organizational);
            var r4 := Registered(r3.0, r3.1, CV);
            && r4.0 == HackerComponents
            && r4.1 == map["academic" := AcademicData, "application" := HackathonApplication,
                           "organizational" := Organizational, "cv" := CV]
            && Approval.relatedName !in r4.1
  {
    RelatedNamesDistinct();
  }

  /** The registrations made by the declarations of the component classes, in order. */
  method RegisterHackerComponents(reg: ComponentRegistry)
    requires reg.Valid() && reg.names == []
    modifies reg
    ensures reg.Valid()
    ensures reg.names == HackerComponents
    ensures reg.types == map["academic" := AcademicData, "application" := HackathonApplication,
                             "organizational" := Organizational, "cv" := CV]
    ensures Approval.relatedName !in reg.types
  {
    HackerRegistration();
    var _ := reg.Register(AcademicData);
    var _ := reg.Register(HackathonApplication);
    var _ := reg.Register(Organizational);
    var _ := reg.Register(CV);
  }

  // ---------------------------------------------------------------------------
  // The hacker profile and its linked records
  // ---------------------------------------------------------------------------

  /** A stored file: its name (empty when no file is set) and its storage URL, if any. */
  datatype FieldFile = FieldFile(name: string, url: Option<string>)

  /** A component record: form data, or the CV record's file field. */
  datatype Section = FormData(fields: map<string, string>) | CvUpload(cv: FieldFile)

  datatype Hacker = Hacker(
    firstName: string,
    middleName: Option<string>,
    lastName: string,
    email: string,
    jacobsHackTerms: bool,
    mlhCodeOfConduct: bool,
    mlhContestTerms: bool,
    mlhSharingConsent: bool,
    sections: map<string, Section>)

  /** The names of the components whose record exists. */
  function Completed(h: Hacker): set<string>
  {
    h.sections.Keys
  }

  /**
   * `has_component`: the linked record exists. A missing record is the
   * framework's "does not exist" signal, which the source turns into false.
   */
  predicate HasComponent(h: Hacker, c: string)
  {
    c in h.sections
  }

  // ---------------------------------------------------------------------------
  // Resolution of the first unset component and the n+1 setup states
  // ---------------------------------------------------------------------------

  /** The first name of `order` not in `done`, or None when all are done. */
  function FirstUnset(order: seq<string>, done: set<string>): Option<string>
  {
    if order == [] then None
    else if order[0] !in done then Some(order[0])
    else FirstUnset(order[1..], done)
  }

  /**
   * The resolver's answer is the earliest name missing from `done`, every
   * earlier name being done; and it is None iff every name is done.
   */
  lemma {:induction false} FirstUnsetSpec(order: seq<string>, done: set<string>)
    ensures FirstUnset(order, done).None? <==> forall i :: 0 <= i < |order| ==> order[i] in done
    ensures FirstUnset(order, done).Some? ==>
              exists i :: 0 <= i < |order| && order[i] == FirstUnset(order, done).value && order[i] !in done
                          && forall j :: 0 <= j < i ==> order[j] in done
  {
    if order != [] && order[0] in done {
      FirstUnsetSpec(order[1..], done);
      var r := FirstUnset(order[1..], done);
      if r.Some? {
        var i :| 0 <= i < |order[1..]| && order[1..][i] == r.value && order[1..][i] !in done
                 && forall j :: 0 <= j < i ==> order[1..][j] in done;
        assert order[i + 1] == r.value;
      }
      forall i | 0 < i < |order| ensures order[i] == order[1..][i - 1] { }
    }
  }

  /**
   * The setup state of a profile: how many components, counted from the
   * start of the order, are completed without a gap. One of |order| + 1 values.
   */
  function SetupState(order: seq<string>, done: set<string>): (k: nat)
    ensures k <= |order|
  {
    if order == [] || order[0] !in done then 0 else 1 + SetupState(order[1..], done)
  }

  /** The state names exactly the component the resolver returns. */
  lemma {:induction false} SetupStateResolves(order: seq<string>, done: set<string>)
    ensures forall j :: 0 <= j < SetupState(order, done) ==> order[j] in done
    ensures FirstUnset(order, done) ==
              if SetupState(order, done) == |order| then None else Some(order[SetupState(order, done)])
  {
    if order != [] && order[0] in done {
      SetupStateResolves(order[1..], done);
      forall j | 0 < j < SetupState(order, done) ensures order[j] in done {
        assert order[j] == order[1..][j - 1];
      }
    }
  }

  /** Completing more components never lowers the state. */
  lemma {:induction false} SetupStateMonotone(order: seq<string>, done: set<string>, more: set<string>)
    requires done <= more
    ensures SetupState(order, done) <= SetupState(order, more)
  {
    if order != [] && order[0] in done {
      SetupStateMonotone(order[1..], done, more);
    }
  }

  /**
   * Completing the component the resolver returns moves the profile to a
   * later state; completing any other component leaves the state as it is.
   */
  lemma {:induction false} CompletingAdvances(order: seq<string>, done: set<string>, c: string)
    ensures FirstUnset(order, done) == Some(c) ==> SetupState(order, done) < SetupState(order, done + {c})
    ensures FirstUnset(order, done) != Some(c) ==> SetupState(order, done) == SetupState(order, done + {c})
  {
    if order != [] && order[0] in done {
      CompletingAdvances(order[1..], done, c);
    }
  }

  // ---------------------------------------------------------------------------
  // Names
  // ---------------------------------------------------------------------------

  /** The name parts `fullName` joins: the middle name is left out only when None. */
  function NameParts(h: Hacker): seq<string>
  {
    [h.firstName] + (if h.middleName.Some? then [h.middleName.value] else []) + [h.lastName]
  }

  /** `fullName`: the name parts joined by single spaces. */
  function FullName(h: Hacker): string
  {
    Join(" ", NameParts(h))
  }

  /** The two shapes of a full name; an empty middle name still adds its space. */
  lemma FullNameShape(h: Hacker)
    ensures h.middleName.None? ==> FullName(h) == h.firstName + " " + h.lastName
    ensures h.middleName.Some? ==> FullName(h) == h.firstName + " " + h.middleName.value + " " + h.lastName
    ensures h.middleName == Some("") ==> FullName(h) == h.firstName + "  " + h.lastName
  {
    if h.middleName.Some? {
      assert NameParts(h) == [h.firstName, h.middleName.value, h.lastName];
      JoinCons(" ", h.firstName, [h.middleName.value, h.lastName]);
      JoinCons(" ", h.middleName.value, [h.lastName]);
    } else {
      assert NameParts(h) == [h.firstName, h.lastName];
      JoinCons(" ", h.firstName, [h.lastName]);
    }
  }

  /** When no part contains a space, the full name splits back into its parts. */
  lemma FullNameRecoversParts(h: Hacker)
    requires forall i :: 0 <= i < |NameParts(h)| ==> ' ' !in NameParts(h)[i]
    ensures Split(FullName(h), " ") == NameParts(h)
  {
    SplitJoin(NameParts(h), ' ');
  }

  /** `Hacker.__str__`. */
  function Describe(h: Hacker): (r: string)
    ensures |r| == |FullName(h)| + 9
    ensures r[..8] == "Hacker [" && r[|r| - 1] == ']'
    ensures r[8..|r| - 1] == FullName(h)
  {
    "Hacker [" + FullName(h) + "]"
  }

  // ---------------------------------------------------------------------------
  // The CV record
  // ---------------------------------------------------------------------------

  /** `upload_to`: where an uploaded CV is stored. */
  function UploadTo(username: string, filename: string): string
  {
    "cvs/" + username + PathExt.Extension(filename)
  }

  /**
   * An upload with an extension keeps it in its storage path, which sits in
   * `cvs/` under the owner's username, for any username with no slash and
   * with some character other than a dot.
   */
  lemma UploadToKeepsExtension(username: string, filename: string)
    requires PathExt.Extension(filename) != ""
    requires '/' !in username && exists k :: 0 <= k < |username| && username[k] != '.'
    ensures UploadTo(username, filename)[..4] == "cvs/"
    ensures PathExt.SplitExt(UploadTo(username, filename)) == ("cvs/" + username, PathExt.Extension(filename))
  {
    var base := "cvs/" + username;
    var ext := PathExt.Extension(filename);
    assert PathExt.IsExtension(ext);
    forall j | 4 <= j < |base| ensures base[j] != '/' {
      assert base[j] == username[j - 4];
    }
    assert base[3] == '/';
    assert PathExt.RFind(base, '/') == 3;
    var k :| 0 <= k < |username| && username[k] != '.';
    assert base[k + 4] == username[k];
    assert PathExt.LastComponentHasNonDot(base);
    PathExt.ExtensionOfAppend(base, ext);
  }

  /** `CV.has_cv`: the file field is set and the storage gives it a URL. */
  predicate HasCv(cv: FieldFile)
  {
    cv.name != "" && cv.url.Some?
  }

  /** `CV.internal_url`: the internal prefix before the file's URL, defined only with a file. */
  function InternalUrl(internalPrefix: string, cv: FieldFile): (r: Option<string>)
    ensures r.Some? <==> HasCv(cv)
    ensures r.Some? ==> r.value == internalPrefix + cv.url.value
  {
    if HasCv(cv) then Some(internalPrefix + cv.url.value) else None
  }

  /** `CV.filename`: the download name, whatever the stored file is called. */
  function CvFilename(username: string): (r: string)
    ensures |r| == |username| + 4
    ensures r[..|username|] == username && r[|username|..] == ".pdf"
  {
    username + ".pdf"
  }

  /** The download name always has the extension `.pdf`, for the same usernames as above. */
  lemma CvFilenameIsPdf(username: string)
    requires '/' !in username && exists k :: 0 <= k < |username| && username[k] != '.'
    ensures PathExt.Extension(CvFilename(username)) == ".pdf"
  {
    var k :| 0 <= k < |username| && username[k] != '.';
    assert PathExt.RFind(username, '/') == -1;
    assert PathExt.LastComponentHasNonDot(username);
    assert PathExt.IsExtension(".pdf");
    PathExt.ExtensionOfAppend(username, ".pdf");
  }

  // ---------------------------------------------------------------------------
  // The persistence layer
  // ---------------------------------------------------------------------------

  /** The stored accounts (username to password) and hacker profiles (by username). */
  datatype Store = Store(users: map<string, string>, hackers: map<string, Hacker>)

  /** Every profile belongs to an account. */
  predicate ValidStore(s: Store)
  {
    s.hackers.Keys <= s.users.Keys
  }

  /** The addresses of the stored profiles. */
  function Emails(s: Store): set<string>
  {
    set u | u in s.hackers :: s.hackers[u].email
  }

  /** What the unique `email` column promises: no two profiles share an address. */
  predicate DistinctEmails(s: Store)
  {
    forall u, v :: u in s.hackers && v in s.hackers && u != v ==> s.hackers[u].email != s.hackers[v].email
  }

  /** The database that views write to: the same two tables, updated in place. */
  class Database {
    var users: map<string, string>
    var hackers: map<string, Hacker>

    function Snapshot(): Store
      reads this
    {
      Store(users, hackers)
    }

    constructor (s: Store)
      ensures Snapshot() == s
    {
      users := s.users;
      hackers := s.hackers;
    }

    /** `User.objects.create_user(username, None, password)` followed by `save()`. */
    method CreateUser(username: string, password: string)
      modifies this
      ensures users == old(users)[username := password]
      ensures hackers == old(hackers)
    {
      users := users[username := password];
    }

    /** Saving a hacker whose profile is `username`. */
    method SaveHacker(username: string, h: Hacker)
      modifies this
      ensures users == old(users)
      ensures hackers == old(hackers)[username := h]
    {
      hackers := hackers[username := h];
    }

    /** Saving a component record whose `hacker` is the profile of `username`. */
    method SaveSection(username: string, component: string, record: Section)
      requires username in hackers
      modifies this
      ensures users == old(users)
      ensures hackers == old(hackers)[username := old(hackers)[username].(sections := old(hackers)[username].sections[component := record])]
    {
      var h := hackers[username];
      hackers := hackers[username := h.(sections := h.sections[component := record])];
    }
  }
}
