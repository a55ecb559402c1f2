/** The voter record of the `confirmed_voters` collection
    (backend/models/user.js): its fields, the setters that normalise them,
    the defaults, and the validators a new record must pass before it is
    stored. */
module UserSchema {
  import opened Wrappers
  import opened Text

  /** Store-assigned `_id`; the model numbers records by insertion. */
  type ObjectId = nat

  /** A `Date`, as milliseconds; the clock is a parameter of every handler. */
  type Time = int

  /** A password as the store sees it. `bcrypt.hash` is modelled as the
      constructor `Hashed` and `bcrypt.compare(p, h)` as "`h` is the hash of
      `p`": a hash is opaque and only ever matches the text it was made from. */
  datatype Secret = Plain(text: string) | Hashed(of: Secret)

  /** `bcrypt.compare(password, stored)`. */
  predicate Compare(password: string, stored: Secret) {
    stored == Hashed(Plain(password))
  }

  /** A bcrypt hash is a 60-character string. */
  const HashLength := 60

  function SecretLength(s: Secret): nat {
    match s
    case Plain(t) => JsLength(t)
    case Hashed(_) => HashLength
  }

  /** A value handed to the `faceDescriptor` path: an array of numbers, or
      the flag value one registration variant passes (`face_detected ||
      false`). */
  datatype FaceField = Descriptor(values: seq<real>) | Flag(on: bool)

  /** JavaScript truthiness of the value (an array is always truthy). */
  predicate Truthy(f: FaceField) {
    f.Descriptor? || f.on
  }

  /** The cast to `[Number]`: an array is kept; a single value is wrapped
      in an array and cast to a number (`false` is 0, `true` is 1). */
  function CastDescriptor(f: FaceField): (r: seq<real>)
    ensures f.Descriptor? ==> r == f.values
    ensures f.Flag? ==> |r| == 1 && (r[0] == 1.0 <==> f.on) && (r[0] == 0.0 <==> !f.on)
  {
    match f
    case Descriptor(values) => values
    case Flag(on) => [if on then 1.0 else 0.0]
  }

  datatype User = User(
    id: ObjectId,
    aadhaar: string,
    name: string,
    phone: string,
    email: string,
    password: Secret,
    hasVoted: bool,
    userType: string,
    isActive: bool,
    registrationDate: Time,
    votingDate: Option<Time>,
    faceDescriptor: seq<real>,
    createdAt: Time,
    updatedAt: Time)

  /** A record as a query with the `-password` projection returns it, which
      is also how the model reads the `publicProfile` view: every field but
      the password. */
  datatype Profile = Profile(
    id: ObjectId,
    aadhaar: string,
    name: string,
    phone: string,
    email: string,
    hasVoted: bool,
    userType: string,
    isActive: bool,
    registrationDate: Time,
    votingDate: Option<Time>,
    faceDescriptor: seq<real>,
    createdAt: Time,
    updatedAt: Time)

  function ProfileOf(u: User): (p: Profile)
    ensures p.id == u.id && p.aadhaar == u.aadhaar && p.name == u.name && p.phone == u.phone
    ensures p.email == u.email && p.hasVoted == u.hasVoted && p.votingDate == u.votingDate
    ensures p.createdAt == u.createdAt && p.updatedAt == u.updatedAt
  {
    Profile(u.id, u.aadhaar, u.name, u.phone, u.email, u.hasVoted, u.userType, u.isActive,
            u.registrationDate, u.votingDate, u.faceDescriptor, u.createdAt, u.updatedAt)
  }

  /** The projection keeps everything but the password: two records differing
      at most in their password have the same profile, and records with the
      same profile differ at most in their password. */
  lemma ProfileHidesOnlyPassword(u: User, w: User)
    ensures ProfileOf(u) == ProfileOf(w) <==> u.(password := w.password) == w
  {
    if ProfileOf(u) == ProfileOf(w) {
      assert ProfileOf(u).userType == ProfileOf(w).userType;
      assert ProfileOf(u).isActive == ProfileOf(w).isActive;
      assert ProfileOf(u).registrationDate == ProfileOf(w).registrationDate;
      assert ProfileOf(u).faceDescriptor == ProfileOf(w).faceDescriptor;
      assert ProfileOf(u).createdAt == ProfileOf(w).createdAt;
      assert ProfileOf(u).updatedAt == ProfileOf(w).updatedAt;
    }
  }

  /** `aadhaar` validator `/^\d{12}$/`. */
  predicate ValidAadhaar(v: string) {
    |v| == 12 && AllDigits(v)
  }

  /** `phone` validator `/^[6-9]\d{9}$/`. */
  predicate ValidPhone(v: string) {
    |v| == 10 && '6' <= v[0] <= '9' && AllDigits(v)
  }

  /** `[^\s@]` */
  predicate EmailChar(c: char) {
    !IsSpace(c) && c != '@'
  }

  /** `email` validator `/^[^\s@]+@[^\s@]+\.[^\s@]+$/`: one `@` that is not
      the first character, no white space, and a `.` after the `@` with at
      least one character on each side of it. */
  predicate ValidEmail(v: string) {
    exists at ::
      && 0 < at < |v| && v[at] == '@'
      && (forall k :: 0 <= k < |v| && k != at ==> EmailChar(v[k]))
      && exists dot :: at + 1 < dot < |v| - 1 && v[dot] == '.'
  }

  /** The `name` setter (`trim: true`) and its length bounds. */
  predicate ValidName(stored: string) {
    2 <= JsLength(stored) <= 100
  }

  /** `minlength: 8` on the `password` path. */
  predicate ValidPassword(s: Secret) {
    SecretLength(s) >= 8
  }

  /** The `email` setters (`lowercase: true`, then `trim: true`): the stored
      form has no upper-case letter and no white space at either end. */
  function NormalizeEmail(v: string): (r: string)
    ensures Trimmed(r)
    ensures forall i :: 0 <= i < |r| ==> !IsUpper(r[i])
  {
    var lower := ToLower(v);
    assert forall c :: c in lower ==> !IsUpper(c);
    Trim(lower)
  }

  /** A record is valid when every validated path accepts it. */
  predicate SchemaValid(u: User) {
    && ValidAadhaar(u.aadhaar)
    && ValidName(u.name)
    && ValidPhone(u.phone)
    && ValidEmail(u.email)
    && ValidPassword(u.password)
  }

  /** The schema paths that carry validators, in declaration order. */
  datatype Path = AadhaarPath | NamePath | PhonePath | EmailPath | PasswordPath

  function PathName(p: Path): string {
    match p
    case AadhaarPath => "aadhaar"
    case NamePath => "name"
    case PhonePath => "phone"
    case EmailPath => "email"
    case PasswordPath => "password"
  }

  /** Path `p` accepts record `u`. */
  predicate PathOk(u: User, p: Path) {
    match p
    case AadhaarPath => ValidAadhaar(u.aadhaar)
    case NamePath => ValidName(u.name)
    case PhonePath => ValidPhone(u.phone)
    case EmailPath => ValidEmail(u.email)
    case PasswordPath => ValidPassword(u.password)
  }

  /** The message of the first validator of path `p` that rejects `u`: the
      `required` validator first (an empty string is missing), then the
      others in declaration order. */
  function PathError(u: User, p: Path): (r: Option<string>)
    ensures r.None? <==> PathOk(u, p)
  {
    match p
    case AadhaarPath => AadhaarError(u.aadhaar)
    case NamePath => NameError(u.name)
    case PhonePath => PhoneError(u.phone)
    case EmailPath => EmailError(u.email)
    case PasswordPath => PasswordError(u.password)
  }

  function AadhaarError(v: string): (r: Option<string>)
    ensures r.None? <==> ValidAadhaar(v)
  {
    if v == "" then Some("Aadhaar number is required")
    else if !ValidAadhaar(v) then Some("Aadhaar number must be exactly 12 digits")
    else None
  }

  function NameError(v: string): (r: Option<string>)
    ensures r.None? <==> ValidName(v)
  {
    if v == "" then Some("Full name is required")
    else if JsLength(v) < 2 then Some("Name must be at least 2 characters long")
    else if JsLength(v) > 100 then Some("Name cannot exceed 100 characters")
    else None
  }

  function PhoneError(v: string): (r: Option<string>)
    ensures r.None? <==> ValidPhone(v)
  {
    if v == "" then Some("Phone number is required")
    else if !ValidPhone(v) then Some("Phone number must be a valid 10-digit Indian mobile number starting with 6-9")
    else None
  }

  function EmailError(v: string): (r: Option<string>)
    ensures r.None? <==> ValidEmail(v)
  {
    if v == "" then Some("Email is required")
    else if !ValidEmail(v) then Some("Please enter a valid email address")
    else None
  }

  function PasswordError(s: Secret): (r: Option<string>)
    ensures r.None? <==> ValidPassword(s)
  {
    if SecretLength(s) == 0 then Some("Password is required")
    else if !ValidPassword(s) then Some("Password must be at least 8 characters long")
    else None
  }

  datatype PathFailure = PathFailure(path: Path, message: string)

  const SchemaPaths: seq<Path> := [AadhaarPath, NamePath, PhonePath, EmailPath, PasswordPath]

  /** The failures of the paths `ps`, in order. */
  function FailuresOver(u: User, ps: seq<Path>): (r: seq<PathFailure>)
    ensures r == [] <==> forall p :: p in ps ==> PathOk(u, p)
    ensures forall i :: 0 <= i < |r| ==> r[i].path in ps && PathError(u, r[i].path) == Some(r[i].message)
  {
    if ps == [] then []
    else
      var rest := FailuresOver(u, ps[1..]);
      match PathError(u, ps[0])
      case Some(m) => [PathFailure(ps[0], m)] + rest
      case None => rest
  }

  /** The failures `doc.validate()` collects, in schema order. The record is
      stored exactly when there are none. */
  function ValidationErrors(u: User): (r: seq<PathFailure>)
    ensures r == [] <==> SchemaValid(u)
    ensures forall i :: 0 <= i < |r| ==> PathError(u, r[i].path) == Some(r[i].message)
  {
    SchemaPathsCover(u);
    FailuresOver(u, SchemaPaths)
  }

  lemma SchemaPathsCover(u: User)
    ensures SchemaValid(u) <==> forall p :: p in SchemaPaths ==> PathOk(u, p)
  {
    if forall p :: p in SchemaPaths ==> PathOk(u, p) {
      assert PathOk(u, SchemaPaths[0]) && PathOk(u, SchemaPaths[1]) && PathOk(u, SchemaPaths[2]);
      assert PathOk(u, SchemaPaths[3]) && PathOk(u, SchemaPaths[4]);
    }
  }

  function JoinFailures(fs: seq<PathFailure>): string {
    if fs == [] then ""
    else if |fs| == 1 then PathName(fs[0].path) + ": " + fs[0].message
    else PathName(fs[0].path) + ": " + fs[0].message + ", " + JoinFailures(fs[1..])
  }

  /** The `message` of the ValidationError that `save()` rejects with. */
  function ValidationMessage(fs: seq<PathFailure>): string {
    "User validation failed: " + JoinFailures(fs)
  }

  /** `new User({...})` as it is saved: the setters run on `name` and
      `email`; `hasVoted`, `userType`, `isActive` and `votingDate` take their
      defaults; and the `timestamps` option stamps `createdAt` and
      `updatedAt`. A handler reads the clock once, so the registration date
      and both timestamps are the same instant. */
  function NewUser(id: ObjectId, aadhaar: string, name: string, phone: string, email: string,
                   password: Secret, registrationDate: Time, face: seq<real>): (u: User)
    ensures !u.hasVoted && u.votingDate == None
    ensures u.userType == "voter" && u.isActive
    ensures u.name == Trim(name) && u.email == NormalizeEmail(email)
    ensures u.id == id && u.aadhaar == aadhaar && u.phone == phone && u.password == password
    ensures u.registrationDate == registrationDate && u.faceDescriptor == face
    ensures u.createdAt == registrationDate && u.updatedAt == registrationDate
  {
    User(id, aadhaar, Trim(name), phone, NormalizeEmail(email), password,
         false, "voter", true, registrationDate, None, face, registrationDate, registrationDate)
  }

  /** The lowercase/trim normalisation is idempotent, so a stored email
      normalises to itself and queries cast through the same setters find
      it. */
  lemma NormalizeEmailIdempotent(v: string)
    ensures NormalizeEmail(NormalizeEmail(v)) == NormalizeEmail(v)
  {
    var n := NormalizeEmail(v);
    assert ToLower(n) == n;
  }

  /** A valid aadhaar is never a valid email (it has no `@`), so a login
      identifier matches records through at most one of the two fields. */
  lemma AadhaarIsNeverEmail(v: string)
    requires ValidAadhaar(v)
    ensures !ValidEmail(v)
  {
  }

  /** Every string of the regular expression's shape is accepted. */
  lemma {:induction false} EmailOfParts(local: string, host: string, tld: string)
    requires local != [] && host != [] && tld != []
    requires forall c :: c in local + host + tld ==> EmailChar(c)
    ensures ValidEmail(local + "@" + host + "." + tld)
  {
    var v := local + "@" + host + "." + tld;
    var at := |local|;
    var dot := |local| + 1 + |host|;
    assert v[at] == '@' && v[dot] == '.';
    forall k | 0 <= k < |v| && k != at
      ensures EmailChar(v[k])
    {
      if k < at {
        assert v[k] == local[k] && local[k] in local + host + tld;
      } else if k < dot {
        assert v[k] == host[k - at - 1] && host[k - at - 1] in local + host + tld;
      } else if k > dot {
        assert v[k] == tld[k - dot - 1] && tld[k - dot - 1] in local + host + tld;
      }
    }
  }

  /** Every accepted string has the regular expression's shape. */
  lemma EmailParts(v: string) returns (local: string, host: string, tld: string)
    requires ValidEmail(v)
    ensures v == local + "@" + host + "." + tld
    ensures local != [] && host != [] && tld != []
    ensures forall c :: c in local + host + tld ==> EmailChar(c)
  {
    var at :| 0 < at < |v| && v[at] == '@'
      && (forall k :: 0 <= k < |v| && k != at ==> EmailChar(v[k]))
      && exists dot :: at + 1 < dot < |v| - 1 && v[dot] == '.';
    var dot :| at + 1 < dot < |v| - 1 && v[dot] == '.';
    local, host, tld := v[..at], v[at + 1..dot], v[dot + 1..];
    assert v == local + "@" + host + "." + tld;
    forall c | c in local ensures EmailChar(c) {
      var k :| 0 <= k < |local| && local[k] == c;
      assert c == v[k];
    }
    forall c | c in host ensures EmailChar(c) {
      var k :| 0 <= k < |host| && host[k] == c;
      assert c == v[at + 1 + k];
    }
    forall c | c in tld ensures EmailChar(c) {
      var k :| 0 <= k < |tld| && tld[k] == c;
      assert c == v[dot + 1 + k];
    }
  }
}
