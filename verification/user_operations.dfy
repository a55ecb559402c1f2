/** backend/userOperations.js: thin wrappers over the store. Registration
    saves the submitted document and turns a duplicate-key error into
    "<field> already exists"; the voted update sets the flag with no check
    for an earlier vote; lookups and the listing turn a store error into
    `null` and `[]`.

    The module's field names (`aadhar_number`, `has_voted`) are read as the
    schema's `aadhaar` and `hasVoted`. `fault` is the message of an error the
    store raises, if it raises one. */
module UserOperations {
  import opened Wrappers
  import opened Text
  import opened UserSchema
  import opened Registry

  /** The submitted user data, passed to `new User(...)` as it is. */
  datatype UserData = UserData(
    aadhaar: string,
    name: string,
    phone: string,
    email: string,
    password: string,
    faceDescriptor: seq<real>)

  datatype RegisterResult =
    | RegisterOk(user: User)
    | RegisterFailed(error: string)

  /** The document built from the data; the registration date takes its
      default and the password is hashed by the pre-save hook only. */
  function Document(data: UserData, now: Time): User {
    NewUser(0, data.aadhaar, data.name, data.phone, data.email, Plain(data.password), now, data.faceDescriptor)
  }

  /** The message for a duplicate-key error on key `k`. */
  function DuplicateMessage(k: Key): (m: string)
    ensures KeyName(k) <= m
  {
    KeyName(k) + " already exists"
  }

  /** The three messages, spelled out. */
  lemma DuplicateMessages()
    ensures DuplicateMessage(AadhaarKey) == "aadhaar already exists"
    ensures DuplicateMessage(PhoneKey) == "phone already exists"
    ensures DuplicateMessage(EmailKey) == "email already exists"
  {
  }

  /** `save()` validates the document in memory before it reaches the
      store, so a store error can only answer a document that passed
      validation; an invalid one gets its validation message whatever the
      store would have done. */
  function RegisterOutcome(users: seq<User>, data: UserData, now: Time, fault: Option<string>)
    : (RegisterResult, seq<User>)
  {
    if fault.Some? && SchemaValid(Document(data, now)) then (RegisterFailed(fault.value), users)
    else SaveReply(users, Document(data, now))
  }

  /** Validation comes before the store: an invalid document is refused with
      the validation message under any store condition, a valid one meets
      the store error if there is one, and nothing is written unless the
      save succeeds. */
  lemma ValidationBeforeFault(users: seq<User>, data: UserData, now: Time, fault: Option<string>)
    ensures var doc := Document(data, now);
      var (result, after) := RegisterOutcome(users, data, now, fault);
      && (!SchemaValid(doc) ==> result == RegisterFailed(ValidationMessage(ValidationErrors(doc))) && after == users)
      && (SchemaValid(doc) && fault.Some? ==> result == RegisterFailed(fault.value) && after == users)
      && (result.RegisterOk? <==> fault.None? && SchemaValid(doc) && forall k :: !Clashes(users, doc, k))
  {
    SaveReplyOutcomes(users, Document(data, now));
  }

  /** `save()` and the mapping of its outcome: the saved record, the
      duplicate-key message, or the error's own message. */
  function SaveReply(users: seq<User>, doc: User): (RegisterResult, seq<User>) {
    match SaveOutcome(users, doc)
    case Saved(u) => (RegisterOk(u), users + [u])
    case DuplicateKey(k) => (RegisterFailed(DuplicateMessage(k)), users)
    case Invalid(failures) => (RegisterFailed(ValidationMessage(failures)), users)
  }

  method RegisterUser(db: UserCollection, data: UserData, now: Time, fault: Option<string>)
    returns (result: RegisterResult)
    requires db.Valid()
    modifies db
    ensures db.Valid()
    ensures (result, db.users) == RegisterOutcome(old(db.users), data, now, fault)
  {
    var doc := Document(data, now);
    if fault.Some? && SchemaValid(doc) {
      return RegisterFailed(fault.value);
    }
    var saved := db.Save(doc);
    match saved
    case Saved(u) =>
      result := RegisterOk(u);
    case DuplicateKey(k) =>
      result := RegisterFailed(DuplicateMessage(k));
    case Invalid(failures) =>
      result := RegisterFailed(ValidationMessage(failures));
  }

  /** A valid document with a duplicate aadhaar, phone or email is reported
      as "<first key field> already exists", in the schema's key order, and
      nothing is written. */
  lemma DuplicateReported(users: seq<User>, doc: User)
    requires SchemaValid(doc)
    ensures var (result, after) := SaveReply(users, doc);
      && (Clashes(users, doc, AadhaarKey) ==>
            result == RegisterFailed(DuplicateMessage(AadhaarKey)) && after == users)
      && (!Clashes(users, doc, AadhaarKey) && Clashes(users, doc, PhoneKey) ==>
            result == RegisterFailed(DuplicateMessage(PhoneKey)) && after == users)
      && (!Clashes(users, doc, AadhaarKey) && !Clashes(users, doc, PhoneKey) && Clashes(users, doc, EmailKey) ==>
            result == RegisterFailed(DuplicateMessage(EmailKey)) && after == users)
  {
    var r := SaveOutcome(users, doc);
    if r.DuplicateKey? {
      assert SaveReply(users, doc) == (RegisterFailed(DuplicateMessage(r.key)), users);
    }
  }

  /** A rejected document is reported with the validation error's message
      and nothing is written; a valid document without a clash is appended
      with the next `_id` and its password hashed by the hook. */
  lemma SaveReplyOutcomes(users: seq<User>, doc: User)
    ensures var (result, after) := SaveReply(users, doc);
      && (!SchemaValid(doc) ==> result == RegisterFailed(ValidationMessage(ValidationErrors(doc))) && after == users)
      && (result.RegisterOk? <==> SchemaValid(doc) && forall k :: !Clashes(users, doc, k))
      && (result.RegisterOk? ==>
            && after == users + [result.user]
            && result.user == doc.(id := |users|, password := Hashed(doc.password)))
  {
  }

  /** The document keeps the submitted values, normalises the name and the
      email, and holds the password as submitted until the hook hashes it. */
  lemma DocumentFields(data: UserData, now: Time)
    ensures var doc := Document(data, now);
      && doc.aadhaar == data.aadhaar && doc.phone == data.phone && doc.password == Plain(data.password)
      && doc.email == NormalizeEmail(data.email) && doc.name == Trim(data.name)
      && !doc.hasVoted && doc.votingDate == None && doc.faceDescriptor == data.faceDescriptor
  {
  }

  /** `findOne` by aadhaar: the first record holding it, or `null` when none
      does or the store raises an error. */
  function FindUserByAadhar(users: seq<User>, aadhaar: string, fault: Option<string>): (r: Option<User>)
    ensures r.Some? ==> fault.None? && exists j :: 0 <= j < |users| && users[j] == r.value && r.value.aadhaar == aadhaar
    ensures r.None? <==> fault.Some? || forall j :: 0 <= j < |users| ==> users[j].aadhaar != aadhaar
  {
    if fault.Some? then None
    else
      match FindOne(users, ByAadhaar(aadhaar))
      case None => None
      case Some(i) => Some(users[i])
  }

  /** `findOneAndUpdate` setting the flag, with `updatedAt` refreshed to
      `now` by the `timestamps` option, returning the updated record, or
      `null` when no record holds the aadhaar or the store raises an
      error. */
  function MarkOutcome(users: seq<User>, aadhaar: string, now: Time, fault: Option<string>): (Option<User>, seq<User>) {
    if fault.Some? then (None, users)
    else
      match FindOne(users, ByAadhaar(aadhaar))
      case None => (None, users)
      case Some(i) =>
        var v := users[i].(hasVoted := true, updatedAt := now);
        (Some(v), users[i := v])
  }

  method MarkUserAsVoted(db: UserCollection, aadhaar: string, now: Time, fault: Option<string>) returns (user: Option<User>)
    requires db.Valid()
    modifies db
    ensures db.Valid()
    ensures (user, db.users) == MarkOutcome(old(db.users), aadhaar, now, fault)
  {
    if fault.Some? {
      return None;
    }
    var found := FindOne(db.users, ByAadhaar(aadhaar));
    if found.None? {
      return None;
    }
    var i := found.value;
    var v := db.users[i].(hasVoted := true, updatedAt := now);
    assert forall k :: KeyOf(v, k) == KeyOf(db.users[i], k) by {
      forall k ensures KeyOf(v, k) == KeyOf(db.users[i], k) {
        FlagKeepsKey(db.users[i], now, k);
      }
    }
    db.Replace(i, v);
    user := Some(v);
  }

  lemma FlagKeepsKey(u: User, now: Time, k: Key)
    ensures KeyOf(u.(hasVoted := true, updatedAt := now), k) == KeyOf(u, k)
  {
    match k
    case AadhaarKey =>
    case PhoneKey =>
    case EmailKey =>
  }

  /** The update returns `null` exactly when no record holds the aadhaar, and
      then nothing changes; otherwise it sets the flag and `updatedAt` of the
      first record holding it and nothing else, returning that record. */
  lemma MarkChangesOnlyFlag(users: seq<User>, aadhaar: string, now: Time)
    ensures var (user, after) := MarkOutcome(users, aadhaar, now, None);
      && |after| == |users|
      && (user.None? <==> forall j :: 0 <= j < |users| ==> users[j].aadhaar != aadhaar)
      && (user.None? ==> after == users)
      && (user.Some? ==>
            var i := FindOne(users, ByAadhaar(aadhaar)).value;
            && after == users[i := user.value]
            && user.value == users[i].(hasVoted := true, updatedAt := now)
            && user.value.aadhaar == aadhaar && user.value.hasVoted
            && user.value.votingDate == users[i].votingDate)
  {
    var found := FindOne(users, ByAadhaar(aadhaar));
    if found.Some? {
      assert users[found.value].aadhaar == aadhaar;
    }
  }

  /** With no check for an earlier vote, marking twice is marking once at
      the later time, and marking twice at the same time changes nothing
      more. */
  lemma MarkIdempotent(users: seq<User>, aadhaar: string, t1: Time, t2: Time)
    ensures var after := MarkOutcome(users, aadhaar, t1, None).1;
      MarkOutcome(after, aadhaar, t2, None).1 == MarkOutcome(users, aadhaar, t2, None).1
  {
    var found := FindOne(users, ByAadhaar(aadhaar));
    if found.Some? {
      var i := found.value;
      var v := users[i].(hasVoted := true, updatedAt := t1);
      FindOneAfterReplace(users, ByAadhaar(aadhaar), i, v);
      assert users[i := v][i := v.(hasVoted := true, updatedAt := t2)] == users[i := users[i].(hasVoted := true, updatedAt := t2)];
    }
  }

  /** `find({}, '-password')`: every record, in natural order, without its
      password; `[]` when the store raises an error. */
  function GetAllUsers(users: seq<User>, fault: Option<string>): (r: seq<Profile>)
    ensures fault.None? ==> |r| == |users| && forall j :: 0 <= j < |users| ==> r[j] == ProfileOf(users[j])
    ensures fault.Some? ==> r == []
  {
    if fault.Some? then [] else Profiles(users)
  }

  function Profiles(users: seq<User>): (r: seq<Profile>)
    ensures |r| == |users| && forall j :: 0 <= j < |users| ==> r[j] == ProfileOf(users[j])
  {
    if users == [] then [] else [ProfileOf(users[0])] + Profiles(users[1..])
  }
}
