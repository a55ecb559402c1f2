/** The `confirmed_voters` collection as the request handlers use it: records
    in insertion order, `findOne` with the filters the handlers build,
    `save()` with validation, the pre-save password hash and the unique
    indexes on aadhaar, phone and email, and in-place updates of one record.
    The invariant `Consistent` is what backend/models/user.js guarantees of
    every stored record. */
module Registry {
  import opened Wrappers
  import opened Text
  import opened UserSchema

  /** The query filters the handlers pass to `findOne`. A value compared with
      `email` is cast through the schema's lowercase/trim setters first; the
      other paths have no setters. */
  datatype Filter =
    | ByAadhaar(aadhaar: string)
    | ByPhone(phone: string)
    | ByEmail(email: string)
      /** `{ $or: [{ aadhaar: id }, { email: id }] }` */
    | ByAadhaarOrEmail(id: string)
      /** `{ $or: [{ aadhaar }, { phone }, { email }] }` */
    | ByAnyKey(aadhaar: string, phone: string, email: string)

  predicate Accepts(f: Filter, u: User) {
    match f
    case ByAadhaar(a) => u.aadhaar == a
    case ByPhone(p) => u.phone == p
    case ByEmail(e) => u.email == NormalizeEmail(e)
    case ByAadhaarOrEmail(id) => u.aadhaar == id || u.email == NormalizeEmail(id)
    case ByAnyKey(a, p, e) => u.aadhaar == a || u.phone == p || u.email == NormalizeEmail(e)
  }

  /** `findOne(filter)`: the position of the first record, in natural order,
      that the filter accepts, or `None` when no record does. */
  function FindOne(users: seq<User>, f: Filter): (r: Option<nat>)
    ensures r.Some? ==> r.value < |users| && Accepts(f, users[r.value])
    ensures r.Some? ==> forall j :: 0 <= j < r.value ==> !Accepts(f, users[j])
    ensures r.None? <==> forall j :: 0 <= j < |users| ==> !Accepts(f, users[j])
  {
    if users == [] then None
    else if Accepts(f, users[0]) then Some(0)
    else
      var rest := users[1..];
      assert forall j :: 1 <= j < |users| ==> users[j] == rest[j - 1];
      match FindOne(rest, f)
      case None => None
      case Some(k) => Some(k + 1)
  }

  /** The unique indexes, in the order the schema declares them. */
  datatype Key = AadhaarKey | PhoneKey | EmailKey

  function KeyOf(u: User, k: Key): string {
    match k
    case AadhaarKey => u.aadhaar
    case PhoneKey => u.phone
    case EmailKey => u.email
  }

  /** The key's path name, as `Object.keys(error.keyPattern)[0]` gives it. */
  function KeyName(k: Key): string {
    match k
    case AadhaarKey => "aadhaar"
    case PhoneKey => "phone"
    case EmailKey => "email"
  }

  /** Some stored record already holds `u`'s value of key `k`. */
  predicate Clashes(users: seq<User>, u: User, k: Key) {
    exists i :: 0 <= i < |users| && KeyOf(users[i], k) == KeyOf(u, k)
  }

  /** The unique index an insert of `u` violates, the first in declaration
      order. */
  function FirstClash(users: seq<User>, u: User): (r: Option<Key>)
    ensures r.None? <==> forall k :: !Clashes(users, u, k)
    ensures r == Some(AadhaarKey) <==> Clashes(users, u, AadhaarKey)
    ensures r == Some(PhoneKey) <==> !Clashes(users, u, AadhaarKey) && Clashes(users, u, PhoneKey)
    ensures r == Some(EmailKey) <==>
              !Clashes(users, u, AadhaarKey) && !Clashes(users, u, PhoneKey) && Clashes(users, u, EmailKey)
  {
    if Clashes(users, u, AadhaarKey) then Some(AadhaarKey)
    else if Clashes(users, u, PhoneKey) then Some(PhoneKey)
    else if Clashes(users, u, EmailKey) then Some(EmailKey)
    else
      NoClashOnAnyKey(users, u);
      None
  }

  lemma NoClashOnAnyKey(users: seq<User>, u: User)
    requires !Clashes(users, u, AadhaarKey) && !Clashes(users, u, PhoneKey) && !Clashes(users, u, EmailKey)
    ensures forall k :: !Clashes(users, u, k)
  {
    forall k ensures !Clashes(users, u, k) {
      match k
      case AadhaarKey =>
      case PhoneKey =>
      case EmailKey =>
    }
  }

  /** The lookup that tests the value the unique index on `k` compares for
      document `doc`: the aadhaar and phone as given, the email cast through
      the setters. */
  predicate LooksUp(f: Filter, doc: User, k: Key) {
    match k
    case AadhaarKey => f == ByAadhaar(doc.aadhaar)
    case PhoneKey => f == ByPhone(doc.phone)
    case EmailKey => f.ByEmail? && doc.email == NormalizeEmail(f.email)
  }

  /** A lookup that finds nothing rules out a clash on the index it mirrors. */
  lemma LookupCoversIndex(users: seq<User>, f: Filter, doc: User, k: Key)
    requires LooksUp(f, doc, k) && FindOne(users, f).None?
    ensures !Clashes(users, doc, k)
  {
    forall i | 0 <= i < |users|
      ensures KeyOf(users[i], k) != KeyOf(doc, k)
    {
      assert !Accepts(f, users[i]);
    }
  }

  /** The three lookups `/register` makes before saving, all finding
      nothing, rule out every unique-index violation of the insert. */
  lemma LookupsRuleOutClash(users: seq<User>, doc: User, email: string)
    requires FindOne(users, ByAadhaar(doc.aadhaar)).None?
    requires FindOne(users, ByPhone(doc.phone)).None?
    requires LooksUp(ByEmail(email), doc, EmailKey) && FindOne(users, ByEmail(email)).None?
    ensures FirstClash(users, doc).None?
  {
    LookupCoversIndex(users, ByAadhaar(doc.aadhaar), doc, AadhaarKey);
    LookupCoversIndex(users, ByPhone(doc.phone), doc, PhoneKey);
    LookupCoversIndex(users, ByEmail(email), doc, EmailKey);
    NoClashOnAnyKey(users, doc);
  }

  /** Lookups by aadhaar, phone and email that find nothing mean no record
      holds any of the three values. */
  lemma NothingFoundNoHolder(users: seq<User>, aadhaar: string, phone: string, email: string)
    requires FindOne(users, ByAadhaar(aadhaar)).None? && FindOne(users, ByPhone(phone)).None?
    requires FindOne(users, ByEmail(email)).None?
    ensures forall j :: 0 <= j < |users| ==>
              users[j].aadhaar != aadhaar && users[j].email != NormalizeEmail(email) && users[j].phone != phone
  {
    forall j | 0 <= j < |users|
      ensures users[j].aadhaar != aadhaar && users[j].email != NormalizeEmail(email) && users[j].phone != phone
    {
      assert !Accepts(ByAadhaar(aadhaar), users[j]);
      assert !Accepts(ByEmail(email), users[j]);
      assert !Accepts(ByPhone(phone), users[j]);
    }
  }

  /** A stored record: accepted by every validator, and with no voting date
      unless it is marked as voted. */
  predicate Stored(u: User) {
    SchemaValid(u) && (u.votingDate.Some? ==> u.hasVoted)
  }

  /** The collection invariant: every record passed validation, `_id`s are the insertion positions, and no two
      records share an aadhaar, a phone or an email. */
  predicate Consistent(users: seq<User>) {
    && (forall i :: 0 <= i < |users| ==> users[i].id == i)
    && (forall i :: 0 <= i < |users| ==> Stored(users[i]))
    && forall k :: Unique(users, k)
  }

  /** No two records share a value of key `k`. */
  predicate Unique(users: seq<User>, k: Key) {
    forall i, j :: 0 <= i < j < |users| ==> KeyOf(users[i], k) != KeyOf(users[j], k)
  }

  /** The outcome of `doc.save()` on a new document. */
  datatype SaveResult =
    | Saved(user: User)
    | Invalid(failures: seq<PathFailure>)
    | DuplicateKey(key: Key)

  /** `doc.save()`: validation first (a ValidationError names every failing
      path), then the pre-save hook hashes the password, then the insert,
      which the first violated unique index rejects with code 11000. The
      stored record gets the next `_id`. */
  function SaveOutcome(users: seq<User>, doc: User): (r: SaveResult)
    ensures r.Invalid? <==> !SchemaValid(doc)
    ensures r.Invalid? ==> r.failures != [] && r.failures == ValidationErrors(doc)
    ensures r.DuplicateKey? <==> SchemaValid(doc) && exists k :: Clashes(users, doc, k)
    ensures r.DuplicateKey? ==> FirstClash(users, doc) == Some(r.key)
    ensures r.Saved? ==> r.user == doc.(id := |users|, password := Hashed(doc.password))
  {
    var failures := ValidationErrors(doc);
    if failures != [] then Invalid(failures)
    else
      match FirstClash(users, doc)
      case Some(k) => DuplicateKey(k)
      case None => Saved(doc.(id := |users|, password := Hashed(doc.password)))
  }

  /** Appending a record whose key `k` no stored record holds keeps `k`
      unique. */
  lemma UniqueAppend(users: seq<User>, u: User, k: Key)
    requires Unique(users, k) && !Clashes(users, u, k)
    ensures Unique(users + [u], k)
  {
    var after := users + [u];
    forall i, j | 0 <= i < j < |after|
      ensures KeyOf(after[i], k) != KeyOf(after[j], k)
    {
      assert after[i] == users[i];
      if j < |users| {
        assert after[j] == users[j];
      }
    }
  }

  /** Replacing a record by one with the same value of key `k` keeps `k`
      unique. */
  lemma UniqueReplace(users: seq<User>, i: nat, v: User, k: Key)
    requires Unique(users, k) && i < |users| && KeyOf(v, k) == KeyOf(users[i], k)
    ensures Unique(users[i := v], k)
  {
    var after := users[i := v];
    forall a, b | 0 <= a < b < |after|
      ensures KeyOf(after[a], k) != KeyOf(after[b], k)
    {
      assert KeyOf(after[a], k) == KeyOf(users[a], k);
      assert KeyOf(after[b], k) == KeyOf(users[b], k);
    }
  }

  /** A successful save keeps the collection consistent. */
  lemma SavePreservesConsistent(users: seq<User>, doc: User)
    requires Consistent(users) && (doc.votingDate.Some? ==> doc.hasVoted)
    ensures SaveOutcome(users, doc).Saved? ==> Consistent(users + [SaveOutcome(users, doc).user])
  {
    var r := SaveOutcome(users, doc);
    if r.Saved? {
      forall k ensures Unique(users + [r.user], k) {
        assert KeyOf(r.user, k) == KeyOf(doc, k);
        UniqueAppend(users, r.user, k);
      }
    }
  }

  /** Replacing one record by another with the same `_id` and keys, that is
      still stored in normal form, keeps the collection consistent. */
  lemma UpdatePreservesConsistent(users: seq<User>, i: nat, v: User)
    requires Consistent(users) && i < |users|
    requires v.id == users[i].id && Stored(v)
    requires forall k :: KeyOf(v, k) == KeyOf(users[i], k)
    ensures Consistent(users[i := v])
  {
    var after := users[i := v];
    forall a | 0 <= a < |after|
      ensures after[a].id == a && Stored(after[a])
    {
      if a != i {
        assert after[a] == users[a];
      } else {
        assert after[a] == v && users[i].id == i;
      }
    }
    forall k ensures Unique(after, k) {
      UniqueReplace(users, i, v, k);
    }
  }

  /** In a consistent collection a record is the only one with its aadhaar,
      so looking its aadhaar up finds exactly it. */
  lemma AadhaarLookupFindsRecord(users: seq<User>, i: nat)
    requires Unique(users, AadhaarKey) && i < |users|
    ensures FindOne(users, ByAadhaar(users[i].aadhaar)) == Some(i)
  {
    var r := FindOne(users, ByAadhaar(users[i].aadhaar));
    assert Accepts(ByAadhaar(users[i].aadhaar), users[i]);
  }

  /** Two lists whose first records the filter judges alike and whose tails
      give the same lookup give the same lookup. */
  lemma FindOneCongruence(a: seq<User>, b: seq<User>, f: Filter)
    requires a != [] && b != [] && (Accepts(f, a[0]) <==> Accepts(f, b[0]))
    requires FindOne(a[1..], f) == FindOne(b[1..], f)
    ensures FindOne(a, f) == FindOne(b, f)
  {
  }

  /** Replacing a record by one the filter judges the same way does not
      change what `findOne` finds. */
  lemma {:induction false} FindOneAfterReplace(users: seq<User>, f: Filter, i: nat, v: User)
    requires i < |users| && (Accepts(f, v) <==> Accepts(f, users[i]))
    ensures FindOne(users[i := v], f) == FindOne(users, f)
  {
    var after := users[i := v];
    if i > 0 {
      assert after[0] == users[0];
      assert after[1..] == users[1..][i - 1 := v];
      FindOneAfterReplace(users[1..], f, i - 1, v);
    } else {
      assert after[1..] == users[1..];
    }
    FindOneCongruence(after, users, f);
  }

  /** Looking a record up by its own aadhaar through the aadhaar-or-email
      `$or` finds it, when no other record holds the aadhaar and no stored
      email equals the aadhaar cast through the email setters. */
  lemma OwnAadhaarFound(users: seq<User>, i: nat)
    requires i < |users| && Unique(users, AadhaarKey)
    requires forall j :: 0 <= j < |users| ==> users[j].email != NormalizeEmail(users[i].aadhaar)
    ensures FindOne(users, ByAadhaarOrEmail(users[i].aadhaar)) == Some(i)
  {
    var a := users[i].aadhaar;
    assert Accepts(ByAadhaarOrEmail(a), users[i]);
    forall j | 0 <= j < i
      ensures !Accepts(ByAadhaarOrEmail(a), users[j])
    {
      assert users[j].aadhaar != a && users[j].email != NormalizeEmail(a);
    }
    FindOneAt(users, ByAadhaarOrEmail(a), i);
  }

  /** `findOne` returns the first accepted record. */
  lemma {:induction false} FindOneAt(users: seq<User>, f: Filter, i: nat)
    requires i < |users| && Accepts(f, users[i])
    requires forall j :: 0 <= j < i ==> !Accepts(f, users[j])
    ensures FindOne(users, f) == Some(i)
  {
    if i > 0 {
      assert !Accepts(f, users[0]);
      forall j | 0 <= j < i - 1 ensures !Accepts(f, users[1..][j]) {
        assert users[1..][j] == users[j + 1];
      }
      FindOneAt(users[1..], f, i - 1);
    }
  }

  /** A `$or` lookup over the three keys that finds nothing means no record
      holds any of the three values. */
  lemma NothingFoundByAnyKey(users: seq<User>, aadhaar: string, phone: string, email: string)
    requires FindOne(users, ByAnyKey(aadhaar, phone, email)).None?
    ensures forall j :: 0 <= j < |users| ==>
              users[j].aadhaar != aadhaar && users[j].email != NormalizeEmail(email) && users[j].phone != phone
  {
    forall j | 0 <= j < |users|
      ensures users[j].aadhaar != aadhaar && users[j].email != NormalizeEmail(email) && users[j].phone != phone
    {
      assert !Accepts(ByAnyKey(aadhaar, phone, email), users[j]);
    }
  }

  /** A record appended after records that do not hold its aadhaar is what
      a lookup by that aadhaar finds. */
  lemma AppendedFoundByAadhaar(users: seq<User>, u: User)
    requires forall j :: 0 <= j < |users| ==> users[j].aadhaar != u.aadhaar
    ensures FindOne(users + [u], ByAadhaar(u.aadhaar)) == Some(|users|)
  {
    var after := users + [u];
    forall j | 0 <= j < |users|
      ensures !Accepts(ByAadhaar(u.aadhaar), after[j])
    {
      assert after[j] == users[j];
    }
    assert Accepts(ByAadhaar(u.aadhaar), after[|users|]);
  }

  /** The voted update: the flag set, the voting date stamped, and
      `updatedAt` refreshed by the `timestamps` option; nothing else
      changed. */
  function MarkVoted(u: User, now: Time): (v: User)
    ensures v.hasVoted && v.votingDate == Some(now) && v.updatedAt == now
  {
    u.(hasVoted := true, votingDate := Some(now), updatedAt := now)
  }

  /** The voted update keeps the `_id` and every key, and a stored record
      stays stored. */
  lemma MarkVotedKeepsKeys(u: User, now: Time)
    ensures MarkVoted(u, now).(hasVoted := u.hasVoted, votingDate := u.votingDate, updatedAt := u.updatedAt) == u
    ensures MarkVoted(u, now).id == u.id && MarkVoted(u, now).createdAt == u.createdAt
    ensures forall k :: KeyOf(MarkVoted(u, now), k) == KeyOf(u, k)
    ensures Stored(u) ==> Stored(MarkVoted(u, now))
  {
    forall k ensures KeyOf(MarkVoted(u, now), k) == KeyOf(u, k) {
      match k
      case AadhaarKey =>
      case PhoneKey =>
      case EmailKey =>
    }
  }

  /** The collection, updated in place by the handlers. */
  class UserCollection {
    var users: seq<User>

    ghost predicate Valid()
      reads this
    {
      Consistent(users)
    }

    constructor ()
      ensures Valid() && users == []
    {
      users := [];
    }

    /** `doc.save()` on a new document. */
    method Save(doc: User) returns (r: SaveResult)
      requires Valid() && (doc.votingDate.Some? ==> doc.hasVoted)
      modifies this
      ensures Valid()
      ensures r == SaveOutcome(old(users), doc)
      ensures users == if r.Saved? then old(users) + [r.user] else old(users)
    {
      r := SaveOutcome(users, doc);
      SavePreservesConsistent(users, doc);
      if r.Saved? {
        users := users + [r.user];
      }
    }

    /** Writes an updated version of the record at position `i`; the updates
        the handlers issue never touch `_id` or a unique key. */
    method Replace(i: nat, v: User)
      requires Valid() && i < |users|
      requires v.id == users[i].id && Stored(v)
      requires forall k :: KeyOf(v, k) == KeyOf(users[i], k)
      modifies this
      ensures Valid() && users == old(users)[i := v]
    {
      UpdatePreservesConsistent(users, i, v);
      users := users[i := v];
    }
  }
}
