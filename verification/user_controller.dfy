/** backend/controllers/userController.js: registration with a single
    `$or` lookup that names the conflicting field, login by aadhaar and
    password, lookup by aadhaar, a vote that can be recorded only once, and
    the pagination arithmetic of the user listing.

    The controller's field names (`aadhar_number`, `full_name`,
    `phone_number`, `email_id`, `has_voted`) are read as the schema's
    `aadhaar`, `name`, `phone`, `email` and `hasVoted`. Its `publicProfile`,
    `comparePassword` and `markAsVoted` are read as the password-free
    profile, `bcrypt.compare` against the stored hash, and the voted update.
    `fault` is the message of an error the store raises at its first access,
    if it raises one. */
module UserController {
  import opened Wrappers
  import opened Text
  import opened UserSchema
  import opened Registry

  // ---------------------------------------------------------------- register

  datatype UserData = UserData(
    aadhaar: string,
    name: string,
    phone: string,
    email: string,
    password: string,
    faceDetected: FaceField)

  datatype RegisterResult =
    | Conflict(message: string)
    | RegisterDone(message: string, user: Profile)
    | RegisterError(message: string, error: string)

  const RegisteredMessage := "User registered successfully"
  const RegistrationFailed := "Registration failed"

  /** `face_detected || false` */
  function FaceOrFalse(f: FaceField): (r: FaceField)
    ensures Truthy(f) ==> r == f
    ensures !Truthy(f) ==> r == Flag(false)
  {
    if Truthy(f) then f else Flag(false)
  }

  /** The field the conflict message names, from strict comparisons of the
      found record with the submitted values, aadhaar first, then phone, then
      email; empty when none of them is equal. */
  function ConflictField(existing: User, data: UserData): string {
    if existing.aadhaar == data.aadhaar then "Aadhaar number"
    else if existing.phone == data.phone then "Phone number"
    else if existing.email == data.email then "Email address"
    else ""
  }

  function ConflictMessage(field: string): string {
    field + " already registered"
  }

  /** The document the controller builds; the password is hashed once, by
      the pre-save hook, and the registration date takes its default. */
  function ControllerDocument(data: UserData, now: Time): User {
    NewUser(0, data.aadhaar, data.name, data.phone, data.email, Plain(data.password), now,
            CastDescriptor(FaceOrFalse(data.faceDetected)))
  }

  function RegisterUserOutcome(users: seq<User>, data: UserData, now: Time, fault: Option<string>)
    : (RegisterResult, seq<User>)
  {
    if fault.Some? then (RegisterError(RegistrationFailed, fault.value), users)
    else
      match FindOne(users, ByAnyKey(data.aadhaar, data.phone, data.email))
      case Some(i) => (Conflict(ConflictMessage(ConflictField(users[i], data))), users)
      case None =>
        var doc := ControllerDocument(data, now);
        AnyKeyLookupRulesOutClash(users, data, doc);
        match SaveOutcome(users, doc)
        case Saved(u) => (RegisterDone(RegisteredMessage, ProfileOf(u)), users + [u])
        case Invalid(failures) => (RegisterError(RegistrationFailed, ValidationMessage(failures)), users)
  }

  /** When the `$or` lookup finds nothing, the insert violates no unique
      index, so the duplicate-key error cannot reach the catch block. */
  lemma AnyKeyLookupRulesOutClash(users: seq<User>, data: UserData, doc: User)
    requires FindOne(users, ByAnyKey(data.aadhaar, data.phone, data.email)).None?
    requires doc.aadhaar == data.aadhaar && doc.phone == data.phone && doc.email == NormalizeEmail(data.email)
    ensures FirstClash(users, doc).None?
  {
    forall k ensures !Clashes(users, doc, k) {
      forall i | 0 <= i < |users|
        ensures KeyOf(users[i], k) != KeyOf(doc, k)
      {
        assert !Accepts(ByAnyKey(data.aadhaar, data.phone, data.email), users[i]);
      }
    }
  }

  method RegisterUser(db: UserCollection, data: UserData, now: Time, fault: Option<string>)
    returns (result: RegisterResult)
    requires db.Valid()
    modifies db
    ensures db.Valid()
    ensures (result, db.users) == RegisterUserOutcome(old(db.users), data, now, fault)
  {
    if fault.Some? {
      return RegisterError(RegistrationFailed, fault.value);
    }
    var existing := FindOne(db.users, ByAnyKey(data.aadhaar, data.phone, data.email));
    if existing.Some? {
      return Conflict(ConflictMessage(ConflictField(db.users[existing.value], data)));
    }
    var doc := ControllerDocument(data, now);
    AnyKeyLookupRulesOutClash(db.users, data, doc);
    var saved := db.Save(doc);
    match saved
    case Saved(u) =>
      result := RegisterDone(RegisteredMessage, ProfileOf(u));
    case Invalid(failures) =>
      result := RegisterError(RegistrationFailed, ValidationMessage(failures));
  }

  /** A conflict is reported exactly when some record holds the aadhaar, the
      phone or the (normalised) email, and then nothing is saved. */
  lemma ConflictIffTaken(users: seq<User>, data: UserData, now: Time)
    ensures var (result, after) := RegisterUserOutcome(users, data, now, None);
      && (result.Conflict? <==>
            exists j :: 0 <= j < |users| &&
              (users[j].aadhaar == data.aadhaar || users[j].phone == data.phone
               || users[j].email == NormalizeEmail(data.email)))
      && (result.Conflict? ==> after == users)
  {
    var f := ByAnyKey(data.aadhaar, data.phone, data.email);
    var found := FindOne(users, f);
    if found.Some? {
      assert Accepts(f, users[found.value]);
    } else {
      forall j | 0 <= j < |users|
        ensures !(users[j].aadhaar == data.aadhaar || users[j].phone == data.phone
                  || users[j].email == NormalizeEmail(data.email))
      {
        assert !Accepts(f, users[j]);
      }
    }
  }

  /** A conflict reply names the field of the record the `$or` lookup
      found. */
  lemma ConflictReply(users: seq<User>, data: UserData, now: Time)
    requires RegisterUserOutcome(users, data, now, None).0.Conflict?
    ensures var found := FindOne(users, ByAnyKey(data.aadhaar, data.phone, data.email));
      && found.Some? && Accepts(ByAnyKey(data.aadhaar, data.phone, data.email), users[found.value])
      && RegisterUserOutcome(users, data, now, None)
         == (Conflict(ConflictMessage(ConflictField(users[found.value], data))), users)
  {
  }

  /** The field named is the first of aadhaar, phone, email on which the
      found record equals the submitted value. When the submitted email is
      already in normal form some field is always named; when it is not (an
      upper-case letter, surrounding spaces) and the record was found by its
      email alone, the message names no field. */
  lemma ConflictFieldNamed(existing: User, data: UserData)
    requires Accepts(ByAnyKey(data.aadhaar, data.phone, data.email), existing)
    ensures var field := ConflictField(existing, data);
      && (existing.aadhaar == data.aadhaar ==> field == "Aadhaar number")
      && (existing.aadhaar != data.aadhaar && existing.phone == data.phone ==> field == "Phone number")
      && (existing.aadhaar != data.aadhaar && existing.phone != data.phone ==>
            existing.email == NormalizeEmail(data.email)
            && (field == "Email address" <==> data.email == NormalizeEmail(data.email))
            && (field == "" <==> data.email != NormalizeEmail(data.email)))
  {
    if existing.aadhaar != data.aadhaar && existing.phone != data.phone {
      assert existing.email == NormalizeEmail(data.email);
    }
  }

  /** A success means the lookup found nothing and the save went through;
      the saved record is what is appended. */
  lemma RegisterUserSaved(users: seq<User>, data: UserData, now: Time)
    requires RegisterUserOutcome(users, data, now, None).0.RegisterDone?
    ensures FindOne(users, ByAnyKey(data.aadhaar, data.phone, data.email)).None?
    ensures var saved := SaveOutcome(users, ControllerDocument(data, now));
      && saved.Saved?
      && RegisterUserOutcome(users, data, now, None)
         == (RegisterDone(RegisteredMessage, ProfileOf(saved.user)), users + [saved.user])
  {
  }

  /** A registration without conflict appends exactly one record: not yet
      voted, with the password hashed once and the descriptor
      `face_detected`, or `false` when that is falsy, as the array cast
      stores it. No earlier record holds its aadhaar, and the submitted
      password passed the length check before it was hashed. */
  lemma RegisterUserSavesOne(users: seq<User>, data: UserData, now: Time) returns (u: User)
    requires RegisterUserOutcome(users, data, now, None).0.RegisterDone?
    ensures RegisterUserOutcome(users, data, now, None) == (RegisterDone(RegisteredMessage, ProfileOf(u)), users + [u])
    ensures u.id == |users| && u.aadhaar == data.aadhaar && u.phone == data.phone
    ensures u.email == NormalizeEmail(data.email) && u.name == Trim(data.name)
    ensures u.password == Hashed(Plain(data.password))
    ensures !u.hasVoted && u.votingDate == None
    ensures u.faceDescriptor == CastDescriptor(FaceOrFalse(data.faceDetected))
    ensures ValidAadhaar(data.aadhaar) && JsLength(data.password) >= 8
    ensures forall j :: 0 <= j < |users| ==> users[j].aadhaar != data.aadhaar
  {
    RegisterUserSaved(users, data, now);
    var doc := ControllerDocument(data, now);
    u := SaveOutcome(users, doc).user;
    assert PathOk(doc, PasswordPath) && PathOk(doc, AadhaarPath);
    NothingFoundByAnyKey(users, data.aadhaar, data.phone, data.email);
  }

  /** Without a store error, every reply but success leaves the collection
      as it was. */
  lemma RegisterUserFailureWritesNothing(users: seq<User>, data: UserData, now: Time, fault: Option<string>)
    ensures !RegisterUserOutcome(users, data, now, fault).0.RegisterDone? ==>
              RegisterUserOutcome(users, data, now, fault).1 == users
  {
  }

  // ------------------------------------------------------------------- login

  /** The login body; an absent field is `None`. */
  datatype LoginData = LoginData(aadhaar: Option<string>, password: Option<string>)

  datatype LoginResult =
    | LoginRejected(message: string)
    | LoginAccepted(message: string, user: Profile)
    | LoginError(message: string, error: string)

  const MissingCredentials := "Please provide Aadhaar number and password"
  const InvalidCredentials := "Invalid credentials"
  const LoginMessage := "Login successful"

  /** A JavaScript falsy string value: absent or empty. */
  predicate Falsy(v: Option<string>) {
    v.None? || v.value == ""
  }

  function LoginUserOutcome(users: seq<User>, data: LoginData, fault: Option<string>): (r: LoginResult)
    ensures Falsy(data.aadhaar) || Falsy(data.password) ==> r == LoginRejected(MissingCredentials)
    ensures !Falsy(data.aadhaar) && !Falsy(data.password) && fault.Some? ==> r == LoginError("Login failed", fault.value)
    ensures r.LoginAccepted? <==>
              && fault.None? && !Falsy(data.aadhaar) && !Falsy(data.password)
              && var found := FindOne(users, ByAadhaar(data.aadhaar.value));
                 found.Some? && Compare(data.password.value, users[found.value].password)
    ensures r.LoginAccepted? ==> r.user == ProfileOf(users[FindOne(users, ByAadhaar(data.aadhaar.value)).value])
  {
    if Falsy(data.aadhaar) || Falsy(data.password) then LoginRejected(MissingCredentials)
    else if fault.Some? then LoginError("Login failed", fault.value)
    else
      match FindOne(users, ByAadhaar(data.aadhaar.value))
      case None => LoginRejected(InvalidCredentials)
      case Some(i) =>
        if !Compare(data.password.value, users[i].password) then LoginRejected(InvalidCredentials)
        else LoginAccepted(LoginMessage, ProfileOf(users[i]))
  }

  /** An unknown aadhaar and a wrong password get the same reply. */
  lemma UnknownAndWrongPasswordAlike(users: seq<User>, a: string, p: string)
    requires a != "" && p != ""
    ensures var r := LoginUserOutcome(users, LoginData(Some(a), Some(p)), None);
      (forall j :: 0 <= j < |users| ==> users[j].aadhaar != a) ==> r == LoginRejected(InvalidCredentials)
    ensures var r := LoginUserOutcome(users, LoginData(Some(a), Some(p)), None);
      !r.LoginAccepted? ==> r == LoginRejected(InvalidCredentials)
  {
    var found := FindOne(users, ByAadhaar(a));
    if found.Some? {
      assert users[found.value].aadhaar == a;
    }
  }

  /** The controller's registration hashes the password once, so logging in
      with the same aadhaar and password afterwards succeeds and returns the
      new record's profile. */
  lemma RegisterThenLoginAccepted(users: seq<User>, data: UserData, now: Time)
    requires RegisterUserOutcome(users, data, now, None).0.RegisterDone?
    ensures var (result, after) := RegisterUserOutcome(users, data, now, None);
      LoginUserOutcome(after, LoginData(Some(data.aadhaar), Some(data.password)), None)
        == LoginAccepted(LoginMessage, result.user)
  {
    var u := RegisterUserSavesOne(users, data, now);
    LoginAfterAppend(users, u, data.password);
  }

  /** A record appended after records that do not hold its aadhaar, whose
      stored password is the hash of `p`, can be logged into with its aadhaar
      and `p`. */
  lemma LoginAfterAppend(users: seq<User>, u: User, p: string)
    requires u.aadhaar != "" && p != "" && u.password == Hashed(Plain(p))
    requires forall j :: 0 <= j < |users| ==> users[j].aadhaar != u.aadhaar
    ensures LoginUserOutcome(users + [u], LoginData(Some(u.aadhaar), Some(p)), None)
         == LoginAccepted(LoginMessage, ProfileOf(u))
  {
    AppendedFoundByAadhaar(users, u);
  }

  // --------------------------------------------------------------- find user

  datatype FindResult =
    | Found(user: Profile)
    | NotFound(message: string)
    | FindError(message: string, error: string)

  function FindUserOutcome(users: seq<User>, aadhaar: string, fault: Option<string>): (r: FindResult)
    ensures r.Found? ==> exists j :: 0 <= j < |users| && users[j].aadhaar == aadhaar && r.user == ProfileOf(users[j])
    ensures r.NotFound? <==> fault.None? && forall j :: 0 <= j < |users| ==> users[j].aadhaar != aadhaar
    ensures fault.Some? ==> r == FindError("Failed to fetch user", fault.value)
    ensures fault.None? && (exists j :: 0 <= j < |users| && users[j].aadhaar == aadhaar) ==> r.Found?
  {
    if fault.Some? then FindError("Failed to fetch user", fault.value)
    else
      match FindOne(users, ByAadhaar(aadhaar))
      case None => NotFound("User not found")
      case Some(i) => Found(ProfileOf(users[i]))
  }

  // -------------------------------------------------------------------- vote

  datatype MarkResult =
    | MarkRejected(message: string, statusCode: nat)
    | MarkDone(message: string, aadhaar: string, name: string, hasVoted: bool, votingDate: Option<Time>)
    | MarkError(message: string, error: string)

  const AlreadyVoted := "User has already voted"

  function MarkUserAsVotedOutcome(users: seq<User>, aadhaar: string, now: Time, fault: Option<string>)
    : (MarkResult, seq<User>)
  {
    if fault.Some? then (MarkError("Failed to record vote", fault.value), users)
    else
      match FindOne(users, ByAadhaar(aadhaar))
      case None => (MarkRejected("User not found", 404), users)
      case Some(i) =>
        if users[i].hasVoted then (MarkRejected(AlreadyVoted, 400), users)
        else
          var v := MarkVoted(users[i], now);
          (MarkDone("Vote recorded successfully", v.aadhaar, v.name, v.hasVoted, v.votingDate), users[i := v])
  }

  method MarkUserAsVoted(db: UserCollection, aadhaar: string, now: Time, fault: Option<string>)
    returns (result: MarkResult)
    requires db.Valid()
    modifies db
    ensures db.Valid()
    ensures (result, db.users) == MarkUserAsVotedOutcome(old(db.users), aadhaar, now, fault)
  {
    if fault.Some? {
      return MarkError("Failed to record vote", fault.value);
    }
    var found := FindOne(db.users, ByAadhaar(aadhaar));
    if found.None? {
      return MarkRejected("User not found", 404);
    }
    var i := found.value;
    if db.users[i].hasVoted {
      return MarkRejected(AlreadyVoted, 400);
    }
    var v := MarkVoted(db.users[i], now);
    MarkVotedKeepsKeys(db.users[i], now);
    db.Replace(i, v);
    result := MarkDone("Vote recorded successfully", v.aadhaar, v.name, v.hasVoted, v.votingDate);
  }

  /** A voter who has already voted is refused with 400 and nothing changes;
      only a first vote succeeds. */
  lemma SecondVoteRefused(users: seq<User>, i: nat, now: Time)
    requires i < |users| && Unique(users, AadhaarKey) && users[i].hasVoted
    ensures MarkUserAsVotedOutcome(users, users[i].aadhaar, now, None) == (MarkRejected(AlreadyVoted, 400), users)
  {
    AadhaarLookupFindsRecord(users, i);
  }

  /** A successful call marks the voter, so any later call for the same
      aadhaar is refused: at most one call per voter succeeds. */
  lemma AtMostOneVoteSucceeds(users: seq<User>, aadhaar: string, t1: Time, t2: Time, fault: Option<string>)
    requires MarkUserAsVotedOutcome(users, aadhaar, t1, None).0.MarkDone?
    ensures var after := MarkUserAsVotedOutcome(users, aadhaar, t1, None).1;
      !MarkUserAsVotedOutcome(after, aadhaar, t2, fault).0.MarkDone?
  {
    var i := FindOne(users, ByAadhaar(aadhaar)).value;
    FindOneAfterReplace(users, ByAadhaar(aadhaar), i, MarkVoted(users[i], t1));
  }

  /** A successful call finds the voter not yet voted, updates that one
      record, setting its flag and stamping its voting date, and reports the
      flag and the date. */
  lemma MarkUpdatesOnlyTarget(users: seq<User>, aadhaar: string, now: Time) returns (i: nat)
    requires MarkUserAsVotedOutcome(users, aadhaar, now, None).0.MarkDone?
    ensures FindOne(users, ByAadhaar(aadhaar)) == Some(i) && i < |users|
    ensures users[i].aadhaar == aadhaar && !users[i].hasVoted
    ensures MarkUserAsVotedOutcome(users, aadhaar, now, None)
         == (MarkDone("Vote recorded successfully", aadhaar, users[i].name, true, Some(now)),
             users[i := MarkVoted(users[i], now)])
  {
    i := FindOne(users, ByAadhaar(aadhaar)).value;
  }

  // ------------------------------------------------------------- pagination

  /** The listing options; an absent option is `None` and takes its
      default. */
  datatype PageOptions = PageOptions(page: Option<int>, limit: Option<int>, sortBy: Option<string>,
                                     sortOrder: Option<string>)

  function PageNumber(o: PageOptions): int { o.page.GetOr(1) }
  function PageLimit(o: PageOptions): int { o.limit.GetOr(10) }
  function SortField(o: PageOptions): string { o.sortBy.GetOr("createdAt") }

  /** `sortOrder === 'desc' ? -1 : 1` with `'desc'` as the default. */
  function SortDirection(o: PageOptions): (d: int)
    ensures d == -1 || d == 1
    ensures d == -1 <==> o.sortOrder.None? || o.sortOrder.value == "desc"
  {
    if o.sortOrder.GetOr("desc") == "desc" then -1 else 1
  }

  /** `(page - 1) * limit` */
  function Skip(page: int, limit: int): int {
    (page - 1) * limit
  }

  /** The value of `Math.ceil(total / limit)`. */
  datatype PageCount = Pages(n: int) | Infinite | NotANumber

  function TotalPages(total: nat, limit: int): (r: PageCount)
    ensures limit > 0 ==> r.Pages? && r.n >= 0 && (r.n - 1) * limit < total <= r.n * limit
    ensures limit < 0 ==> r.Pages? && r.n <= 0
    ensures limit == 0 ==> (r == NotANumber <==> total == 0) && (r == Infinite <==> total > 0)
  {
    if limit > 0 then
      var n := (total + limit - 1) / limit;
      CeilDivBounds(total, limit);
      Pages(n)
    else if limit < 0 then Pages(-(total / -limit))
    else if total == 0 then NotANumber
    else Infinite
  }

  lemma CeilDivBounds(total: nat, limit: int)
    requires limit > 0
    ensures var n := (total + limit - 1) / limit;
      n >= 0 && (n - 1) * limit < total <= n * limit
  {
    var a := total + limit - 1;
    var n := a / limit;
    var r := a % limit;
    assert a == n * limit + r && 0 <= r < limit;
    assert (n - 1) * limit == n * limit - limit;
  }

  /** The defaults: the first page of ten, newest first. */
  lemma PaginationDefaults()
    ensures var o := PageOptions(None, None, None, None);
      && PageNumber(o) == 1 && PageLimit(o) == 10 && SortField(o) == "createdAt" && SortDirection(o) == -1
      && Skip(PageNumber(o), PageLimit(o)) == 0
  {
  }

  /** With a positive limit, page `p` starts right after the records of the
      pages before it, and every record position `k` lies on page
      `k / limit + 1`, which is at most the page count. */
  lemma PageOfPosition(total: nat, limit: int, k: nat)
    requires limit > 0 && k < total
    ensures var p := k / limit + 1;
      && Skip(p, limit) <= k < Skip(p, limit) + limit
      && TotalPages(total, limit).Pages? && 1 <= p <= TotalPages(total, limit).n
  {
    var p := k / limit + 1;
    assert k == (k / limit) * limit + k % limit;
    assert Skip(p, limit) == (k / limit) * limit;
  }

  /** The users of one page: `skip` records dropped, then at most `limit`
      kept; a limit of 0 keeps all of them, a negative one keeps `-limit`. */
  function PageWindow<T>(ordered: seq<T>, skip: nat, limit: int): (r: seq<T>)
    ensures limit == 0 ==> r == if skip <= |ordered| then ordered[skip..] else []
    ensures limit != 0 ==> |r| <= if limit > 0 then limit else -limit
    ensures limit != 0 ==>
              var n := if limit > 0 then limit else -limit;
              var avail := if skip <= |ordered| then |ordered| - skip else 0;
              |r| == if avail <= n then avail else n
    ensures forall j :: 0 <= j < |r| ==> skip + j < |ordered| && r[j] == ordered[skip + j]
  {
    var rest := if skip <= |ordered| then ordered[skip..] else [];
    var n := if limit > 0 then limit else -limit;
    if limit == 0 || |rest| <= n then rest else rest[..n]
  }

  datatype ListResult =
    | Listed(currentPage: int, totalPages: PageCount, totalUsers: nat, usersPerPage: int, users: seq<Profile>)
    | ListError(message: string, error: string)

  /** The listing. `ordered` is the collection, without passwords, in the
      order the store sorts it by `SortField` and `SortDirection`; a negative
      skip is refused by the store. */
  function GetAllUsersOutcome(ordered: seq<Profile>, o: PageOptions, fault: Option<string>): (r: ListResult)
    ensures r.Listed? ==> && r.currentPage == PageNumber(o) && r.usersPerPage == PageLimit(o)
                          && r.totalUsers == |ordered|
                          && r.totalPages == TotalPages(|ordered|, PageLimit(o))
                          && Skip(PageNumber(o), PageLimit(o)) >= 0
                          && r.users == PageWindow(ordered, Skip(PageNumber(o), PageLimit(o)), PageLimit(o))
    ensures r.ListError? ==> r.message == "Failed to fetch users"
    ensures fault.Some? ==> r == ListError("Failed to fetch users", fault.value)
    ensures fault.None? && Skip(PageNumber(o), PageLimit(o)) >= 0 ==> r.Listed?
  {
    var skip := Skip(PageNumber(o), PageLimit(o));
    if fault.Some? then ListError("Failed to fetch users", fault.value)
    else if skip < 0 then ListError("Failed to fetch users", "skip value must be non-negative")
    else
      Listed(PageNumber(o), TotalPages(|ordered|, PageLimit(o)), |ordered|, PageLimit(o),
             PageWindow(ordered, skip, PageLimit(o)))
  }
}
