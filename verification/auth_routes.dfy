/** `POST /register` and `POST /login` of backend/routes/auth.js.

    Registration is an ordered chain that stops at the first failing check:
    the aadhaar must be on the voter list, then no record may hold the
    aadhaar, the email or the phone, and only then is the record saved. Its
    password is hashed by the route and then again by the schema's pre-save
    hook. Login looks the record up by aadhaar or email, checks the password
    and reports the face comparison as a flag. */
module AuthRoutes {
  import opened Wrappers
  import opened Text
  import opened UserSchema
  import opened Registry
  import opened FaceMatch

  /** The body of `POST /register`. */
  datatype RegisterRequest = RegisterRequest(
    aadhaar: string,
    name: string,
    phone: string,
    email: string,
    password: string,
    faceDescriptor: seq<real>)

  /** The replies of `POST /register`: an error with its status, or the 201
      reply, which carries the message, the new `_id` and the stored name and
      nothing else. */
  datatype RegisterReply =
    | RegisterFailed(status: nat, error: string)
    | Registered(message: string, userId: ObjectId, name: string)

  const NotOnVoterList := "Aadhaar is not in voter list."
  const AadhaarTaken := "Aadhaar already registered."
  const EmailTaken := "Email already registered."
  const PhoneTaken := "Phone number already registered."
  const RegisteredMessage := "User registered successfully in confirmed_voters collection!"

  /** The 400 reply for a store error with code 11000 on key `k`. */
  function DuplicateKeyReply(k: Key): (r: RegisterReply)
    ensures r.RegisterFailed? && r.status == 400
    ensures KeyName(k) <= r.error
  {
    RegisterFailed(400, KeyName(k) + " already exists. Please use a different " + KeyName(k) + ".")
  }

  /** The document the route builds: the route's own hash of the password,
      `hasVoted: false`, the submitted descriptor and the current time. */
  function RegisterDocument(req: RegisterRequest, now: Time): User {
    NewUser(0, req.aadhaar, req.name, req.phone, req.email, Hashed(Plain(req.password)), now,
            req.faceDescriptor)
  }

  /** The reply of `POST /register` and the collection afterwards. `fault` is
      the message of an error thrown by the voter lookup, a user lookup, the
      hash or the save; whichever step throws, the reply is the same 500 with
      that message and nothing is written. A failed save other than a
      duplicate key (a ValidationError) is a 500 carrying the error's
      message. */
  function RegisterOutcome(users: seq<User>, voters: set<string>, req: RegisterRequest, now: Time,
                           fault: Option<string>)
    : (RegisterReply, seq<User>)
  {
    if fault.Some? then (RegisterFailed(500, fault.value), users)
    else if req.aadhaar !in voters then (RegisterFailed(400, NotOnVoterList), users)
    else if FindOne(users, ByAadhaar(req.aadhaar)).Some? then (RegisterFailed(400, AadhaarTaken), users)
    else if FindOne(users, ByEmail(req.email)).Some? then (RegisterFailed(400, EmailTaken), users)
    else if FindOne(users, ByPhone(req.phone)).Some? then (RegisterFailed(400, PhoneTaken), users)
    else
      match SaveOutcome(users, RegisterDocument(req, now))
      case Saved(u) => (Registered(RegisteredMessage, u.id, u.name), users + [u])
      case DuplicateKey(k) => (DuplicateKeyReply(k), users)
      case Invalid(failures) => (RegisterFailed(500, ValidationMessage(failures)), users)
  }

  /** The handler, step by step, against the collection. */
  method Register(db: UserCollection, voters: set<string>, req: RegisterRequest, now: Time,
                  fault: Option<string>)
    returns (reply: RegisterReply)
    requires db.Valid()
    modifies db
    ensures db.Valid()
    ensures (reply, db.users) == RegisterOutcome(old(db.users), voters, req, now, fault)
  {
    if fault.Some? {
      return RegisterFailed(500, fault.value);
    }
    if req.aadhaar !in voters {
      return RegisterFailed(400, NotOnVoterList);
    }
    if FindOne(db.users, ByAadhaar(req.aadhaar)).Some? {
      return RegisterFailed(400, AadhaarTaken);
    }
    if FindOne(db.users, ByEmail(req.email)).Some? {
      return RegisterFailed(400, EmailTaken);
    }
    if FindOne(db.users, ByPhone(req.phone)).Some? {
      return RegisterFailed(400, PhoneTaken);
    }
    var saved := db.Save(RegisterDocument(req, now));
    match saved
    case Saved(u) =>
      reply := Registered(RegisteredMessage, u.id, u.name);
    case DuplicateKey(k) =>
      reply := DuplicateKeyReply(k);
    case Invalid(failures) =>
      reply := RegisterFailed(500, ValidationMessage(failures));
  }

  /** Every reply but 201 leaves the collection as it was. */
  lemma RegisterFailureWritesNothing(users: seq<User>, voters: set<string>, req: RegisterRequest, now: Time,
                                     fault: Option<string>)
    ensures fault.Some? ==> RegisterOutcome(users, voters, req, now, fault) == (RegisterFailed(500, fault.value), users)
    ensures !RegisterOutcome(users, voters, req, now, fault).0.Registered? ==>
              RegisterOutcome(users, voters, req, now, fault).1 == users
  {
    if && fault.None? && req.aadhaar in voters && FindOne(users, ByAadhaar(req.aadhaar)).None?
       && FindOne(users, ByEmail(req.email)).None? && FindOne(users, ByPhone(req.phone)).None?
    {
      var saved := SaveOutcome(users, RegisterDocument(req, now));
      assert saved.Saved? <==> RegisterOutcome(users, voters, req, now, fault).0.Registered?;
    }
  }

  /** A 201 reply means no store error, every check passed and the save
      succeeded, and the saved record is what is appended. */
  lemma RegisteredMeansChecksPassed(users: seq<User>, voters: set<string>, req: RegisterRequest, now: Time,
                                    fault: Option<string>)
    requires RegisterOutcome(users, voters, req, now, fault).0.Registered?
    ensures fault.None?
    ensures req.aadhaar in voters
    ensures FindOne(users, ByAadhaar(req.aadhaar)).None?
    ensures FindOne(users, ByEmail(req.email)).None?
    ensures FindOne(users, ByPhone(req.phone)).None?
    ensures var saved := SaveOutcome(users, RegisterDocument(req, now));
      && saved.Saved?
      && RegisterOutcome(users, voters, req, now, fault)
         == (Registered(RegisteredMessage, saved.user.id, saved.user.name), users + [saved.user])
  {
    if && fault.None? && req.aadhaar in voters && FindOne(users, ByAadhaar(req.aadhaar)).None?
       && FindOne(users, ByEmail(req.email)).None? && FindOne(users, ByPhone(req.phone)).None?
    {
      var saved := SaveOutcome(users, RegisterDocument(req, now));
      assert saved.Saved? <==> RegisterOutcome(users, voters, req, now, fault).0.Registered?;
    }
  }

  /** The record a 201 reply appends: the submitted aadhaar and phone, the
      normalised email, the trimmed name, the next `_id` and the password
      hashed twice, once by the route and once by the pre-save hook. */
  lemma RegisteredRecord(users: seq<User>, voters: set<string>, req: RegisterRequest, now: Time)
    returns (u: User)
    requires RegisterOutcome(users, voters, req, now, None).0.Registered?
    ensures RegisterOutcome(users, voters, req, now, None) == (Registered(RegisteredMessage, |users|, u.name), users + [u])
    ensures u.id == |users| && u.aadhaar == req.aadhaar && u.phone == req.phone
    ensures u.email == NormalizeEmail(req.email) && u.name == Trim(req.name)
    ensures u.password == Hashed(Hashed(Plain(req.password)))
    ensures !u.hasVoted && u.votingDate == None && u.faceDescriptor == req.faceDescriptor
    ensures Stored(u)
  {
    RegisteredMeansChecksPassed(users, voters, req, now, None);
    u := SaveOutcome(users, RegisterDocument(req, now)).user;
  }

  /** A 201 reply means the aadhaar was on the voter list and no record held
      the aadhaar, the email or the phone. */
  lemma RegisterSuccessRecord(users: seq<User>, voters: set<string>, req: RegisterRequest, now: Time)
    requires RegisterOutcome(users, voters, req, now, None).0.Registered?
    ensures req.aadhaar in voters
    ensures forall j :: 0 <= j < |users| ==>
              users[j].aadhaar != req.aadhaar && users[j].email != NormalizeEmail(req.email)
              && users[j].phone != req.phone
  {
    RegisteredMeansChecksPassed(users, voters, req, now, None);
    NothingFoundNoHolder(users, req.aadhaar, req.phone, req.email);
  }

  /** The record `/register` writes is not yet voted, has no voting date and
      keeps the submitted descriptor. */
  lemma RegisterDocumentDefaults(req: RegisterRequest, now: Time)
    ensures var doc := RegisterDocument(req, now);
      && !doc.hasVoted && doc.votingDate == None
      && doc.faceDescriptor == req.faceDescriptor
      && doc.aadhaar == req.aadhaar && doc.email == NormalizeEmail(req.email) && doc.phone == req.phone
  {
  }

  /** The eligibility check comes first: an aadhaar missing from the voter
      list is refused with its own message whatever the collection holds. */
  lemma IneligibleRefusedFirst(users: seq<User>, voters: set<string>, req: RegisterRequest, now: Time)
    requires req.aadhaar !in voters
    ensures RegisterOutcome(users, voters, req, now, None) == (RegisterFailed(400, NotOnVoterList), users)
  {
  }

  /** The duplicate checks run in the order aadhaar, email, phone, and the
      first field already registered decides the message. */
  lemma DuplicateOrder(users: seq<User>, voters: set<string>, req: RegisterRequest, now: Time, i: nat)
    requires req.aadhaar in voters && i < |users|
    ensures users[i].aadhaar == req.aadhaar ==>
              RegisterOutcome(users, voters, req, now, None) == (RegisterFailed(400, AadhaarTaken), users)
    ensures users[i].email == NormalizeEmail(req.email) && FindOne(users, ByAadhaar(req.aadhaar)).None? ==>
              RegisterOutcome(users, voters, req, now, None) == (RegisterFailed(400, EmailTaken), users)
    ensures users[i].phone == req.phone && FindOne(users, ByAadhaar(req.aadhaar)).None?
              && FindOne(users, ByEmail(req.email)).None? ==>
              RegisterOutcome(users, voters, req, now, None) == (RegisterFailed(400, PhoneTaken), users)
  {
    assert users[i].aadhaar == req.aadhaar ==> Accepts(ByAadhaar(req.aadhaar), users[i]);
    assert users[i].email == NormalizeEmail(req.email) ==> Accepts(ByEmail(req.email), users[i]);
    assert users[i].phone == req.phone ==> Accepts(ByPhone(req.phone), users[i]);
  }

  /** With requests handled one at a time, the duplicate-key branch (code
      11000) of `/register` is never taken. */
  lemma NoDuplicateKeyReply(users: seq<User>, voters: set<string>, req: RegisterRequest, now: Time)
    ensures forall k :: RegisterOutcome(users, voters, req, now, None).0 != DuplicateKeyReply(k)
  {
    if && req.aadhaar in voters && FindOne(users, ByAadhaar(req.aadhaar)).None?
       && FindOne(users, ByEmail(req.email)).None? && FindOne(users, ByPhone(req.phone)).None?
    {
      var doc := RegisterDocument(req, now);
      assert LooksUp(ByEmail(req.email), doc, EmailKey);
      LookupsRuleOutClash(users, doc, req.email);
    }
  }

  /** The route's validation sees the 60-character hash, never the submitted
      password, so the schema's minimum length of 8 never rejects a short
      password on this route. */
  lemma ShortPasswordNotRejected(req: RegisterRequest, now: Time)
    requires JsLength(req.password) < 8
    ensures PathOk(RegisterDocument(req, now), PasswordPath)
  {
  }

  /** The user view of a successful login: no password and no descriptor.
      `matched` is the reply's `match` field. */
  datatype LoginUser = LoginUser(
    id: ObjectId,
    aadhaar: string,
    name: string,
    email: string,
    hasVoted: bool,
    phone: string,
    matched: bool)

  datatype LoginReply =
    | LoginFailed(status: nat, error: string)
    | LoggedIn(message: string, user: LoginUser)

  const InvalidCredentials := "Invalid credentials"
  const LoginMessage := "Login successful"

  /** `loginDescriptor` as the body carries it: an array, or absent (the
      page of VoterAuth.jsx sends no descriptor) or `null`. */
  datatype SubmittedDescriptor = Sent(values: seq<real>) | Undefined | Null

  /** The message of the TypeError `b[i]` throws on an absent or `null`
      second vector, as Node.js words it. */
  function UnreadableDescriptor(d: SubmittedDescriptor): string {
    "Cannot read properties of " + (if d.Null? then "null" else "undefined") + " (reading '0')"
  }

  /** The `match` flag once the password is right: the face comparison of a
      sent descriptor; without one, only an empty stored descriptor is
      compared, by a loop that never runs, so the distance is 0. */
  function FaceMatched(stored: seq<real>, d: SubmittedDescriptor): (m: bool)
    requires d.Sent? || stored == []
    ensures d.Sent? ==> m == IsMatch(Euclid(stored, d.values))
    ensures !d.Sent? ==> m
  {
    match d
    case Sent(values) => IsMatch(Euclid(stored, values))
    case _ => IsMatch(Euclid([], []))
  }

  /** The `$or` lookup finds a record and the password matches its hash. */
  predicate Authenticated(users: seq<User>, userId: string, password: string) {
    var found := FindOne(users, ByAadhaarOrEmail(userId));
    found.Some? && Compare(password, users[found.value].password)
  }

  /** The record the `$or` lookup finds. */
  function Found(users: seq<User>, userId: string): User
    requires FindOne(users, ByAadhaarOrEmail(userId)).Some?
  {
    users[FindOne(users, ByAadhaarOrEmail(userId)).value]
  }

  /** The reply of `POST /login` (a read only). `fault` is the message of an
      error thrown by the lookup or by `bcrypt.compare`. An unknown
      identifier and a wrong password give the same 401; with the right
      password the reply is 200 with the face comparison as the `match`
      flag, except that a missing descriptor makes `euclidean` throw, a 500,
      whenever the stored descriptor is non-empty. */
  function LoginOutcome(users: seq<User>, userId: string, password: string, descriptor: SubmittedDescriptor,
                        fault: Option<string>)
    : (r: LoginReply)
    ensures fault.Some? ==> r == LoginFailed(500, fault.value)
    ensures fault.None? ==> (r == LoginFailed(401, InvalidCredentials) <==> !Authenticated(users, userId, password))
    ensures fault.None? ==>
              (r.LoggedIn? <==>
                 Authenticated(users, userId, password)
                 && (descriptor.Sent? || Found(users, userId).faceDescriptor == []))
    ensures fault.None? ==>
              (r == LoginFailed(500, UnreadableDescriptor(descriptor)) <==>
                 Authenticated(users, userId, password)
                 && !descriptor.Sent? && Found(users, userId).faceDescriptor != [])
    ensures r.LoggedIn? ==>
              var u := Found(users, userId);
              && (u.aadhaar == userId || u.email == NormalizeEmail(userId))
              && r.message == LoginMessage
              && (descriptor.Sent? || u.faceDescriptor == [])
              && r.user == LoginUser(u.id, u.aadhaar, u.name, u.email, u.hasVoted, u.phone,
                                     FaceMatched(u.faceDescriptor, descriptor))
  {
    if fault.Some? then LoginFailed(500, fault.value)
    else if !Authenticated(users, userId, password) then LoginFailed(401, InvalidCredentials)
    else
      var u := Found(users, userId);
      if !descriptor.Sent? && u.faceDescriptor != [] then LoginFailed(500, UnreadableDescriptor(descriptor))
      else
        LoggedIn(LoginMessage, LoginUser(u.id, u.aadhaar, u.name, u.email, u.hasVoted, u.phone,
                                         FaceMatched(u.faceDescriptor, descriptor)))
  }

  /** A face mismatch is not an error: with the right password, any sent
      descriptor gives 200, and only `matched` depends on it. */
  lemma MismatchIsNotAnError(users: seq<User>, userId: string, password: string, d1: seq<real>, d2: seq<real>)
    requires LoginOutcome(users, userId, password, Sent(d1), None).LoggedIn?
    ensures LoginOutcome(users, userId, password, Sent(d2), None).LoggedIn?
    ensures LoginOutcome(users, userId, password, Sent(d1), None).user.(matched := false)
         == LoginOutcome(users, userId, password, Sent(d2), None).user.(matched := false)
  {
  }

  /** A login without a descriptor, as the page of VoterAuth.jsx sends it,
      fails with 500 for every record that has a stored descriptor, even with
      the right password; the same login with a sent descriptor gives 200. */
  lemma MissingDescriptorFails(users: seq<User>, userId: string, password: string, d: seq<real>)
    requires LoginOutcome(users, userId, password, Sent(d), None).LoggedIn?
    requires Found(users, userId).faceDescriptor != []
    ensures LoginOutcome(users, userId, password, Undefined, None)
         == LoginFailed(500, UnreadableDescriptor(Undefined))
  {
  }

  /** A digit string is its own normal email form. */
  lemma DigitsNormalizeToThemselves(s: string)
    requires AllDigits(s)
    ensures NormalizeEmail(s) == s
  {
    assert ToLower(s) == s;
    assert Trimmed(s);
  }

  /** A stored email is never a valid aadhaar, before or after the email
      setters are applied to the aadhaar. */
  lemma StoredEmailIsNotAadhaar(email: string, a: string)
    requires ValidEmail(email) && ValidAadhaar(a)
    ensures email != a && email != NormalizeEmail(a)
  {
    DigitsNormalizeToThemselves(a);
    AadhaarIsNeverEmail(a);
  }

  /** Looking a record up by its own aadhaar through the `$or` of `/login`
      finds that record: no other record holds the aadhaar and no stored
      email equals it. */
  lemma LoginByAadhaarFindsRecord(users: seq<User>, i: nat)
    requires i < |users| && Unique(users, AadhaarKey) && ValidAadhaar(users[i].aadhaar)
    requires forall j :: 0 <= j < |users| ==> ValidEmail(users[j].email)
    ensures FindOne(users, ByAadhaarOrEmail(users[i].aadhaar)) == Some(i)
  {
    var a := users[i].aadhaar;
    forall j | 0 <= j < |users|
      ensures users[j].email != NormalizeEmail(a)
    {
      StoredEmailIsNotAadhaar(users[j].email, a);
    }
    OwnAadhaarFound(users, i);
  }

  /** A record whose password was hashed twice, appended after records that
      hold neither its aadhaar nor an email equal to it, cannot be logged into
      with its aadhaar and the original password. */
  lemma DoubleHashRefused(users: seq<User>, u: User, password: string, descriptor: SubmittedDescriptor)
    requires ValidAadhaar(u.aadhaar) && u.password == Hashed(Hashed(Plain(password)))
    requires forall j :: 0 <= j < |users| ==> users[j].aadhaar != u.aadhaar && ValidEmail(users[j].email)
    ensures LoginOutcome(users + [u], u.aadhaar, password, descriptor, None) == LoginFailed(401, InvalidCredentials)
  {
    var after := users + [u];
    var a := u.aadhaar;
    forall j | 0 <= j < |users|
      ensures !Accepts(ByAadhaarOrEmail(a), after[j])
    {
      assert after[j] == users[j];
      StoredEmailIsNotAadhaar(users[j].email, a);
    }
    assert Accepts(ByAadhaarOrEmail(a), after[|users|]);
    assert FindOne(after, ByAadhaarOrEmail(a)) == Some(|users|);
  }

  /** The password is hashed by the route and again by the pre-save hook, so
      logging in right after registering, with the same aadhaar and
      password, is refused. */
  lemma RegisterThenLoginRefused(users: seq<User>, voters: set<string>, req: RegisterRequest, now: Time,
                                 descriptor: SubmittedDescriptor)
    requires forall j :: 0 <= j < |users| ==> ValidEmail(users[j].email)
    requires RegisterOutcome(users, voters, req, now, None).0.Registered?
    ensures LoginOutcome(RegisterOutcome(users, voters, req, now, None).1, req.aadhaar, req.password, descriptor, None)
         == LoginFailed(401, InvalidCredentials)
  {
    RegisterSuccessRecord(users, voters, req, now);
    var u := RegisteredRecord(users, voters, req, now);
    DoubleHashRefused(users, u, req.password, descriptor);
  }
}
