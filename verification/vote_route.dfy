/** `PATCH /` of backend/routes/vote.js: the record with the submitted
    aadhaar is marked as voted, with the current time as its voting date,
    and nothing else changes. There is no check for an earlier vote and no
    candidate's count is touched. */
module VoteRoute {
  import opened Wrappers
  import opened UserSchema
  import opened Registry

  /** The replies: 404 with `error`, 500 with the store error's `message`, or
      200 with the updated record's `_id`, name, flag and voting date. */
  datatype VoteReply =
    | VoteNotFound(error: string)
    | VoteFailed(message: string)
    | VoteRecorded(message: string, id: ObjectId, name: string, hasVoted: bool, votingDate: Option<Time>)

  const UserNotFound := "User not found"
  const VoteRecordedMessage := "Vote recorded successfully"

  function Status(r: VoteReply): nat {
    match r
    case VoteNotFound(_) => 404
    case VoteFailed(_) => 500
    case VoteRecorded(_, _, _, _, _) => 200
  }

  /** The reply and the collection afterwards. `fault` is the message of an
      error the store raises, if it raises one. */
  function VoteOutcome(users: seq<User>, aadhaar: string, now: Time, fault: Option<string>): (VoteReply, seq<User>) {
    if fault.Some? then (VoteFailed(fault.value), users)
    else
      match FindOne(users, ByAadhaar(aadhaar))
      case None => (VoteNotFound(UserNotFound), users)
      case Some(i) =>
        var v := MarkVoted(users[i], now);
        (VoteRecorded(VoteRecordedMessage, v.id, v.name, v.hasVoted, v.votingDate), users[i := v])
  }

  /** The handler against the collection. */
  method CastVote(db: UserCollection, aadhaar: string, now: Time, fault: Option<string>) returns (reply: VoteReply)
    requires db.Valid()
    modifies db
    ensures db.Valid()
    ensures (reply, db.users) == VoteOutcome(old(db.users), aadhaar, now, fault)
  {
    if fault.Some? {
      return VoteFailed(fault.value);
    }
    var found := FindOne(db.users, ByAadhaar(aadhaar));
    if found.None? {
      return VoteNotFound(UserNotFound);
    }
    var i := found.value;
    var v := MarkVoted(db.users[i], now);
    MarkVotedKeepsKeys(db.users[i], now);
    db.Replace(i, v);
    reply := VoteRecorded(VoteRecordedMessage, v.id, v.name, v.hasVoted, v.votingDate);
  }

  /** An aadhaar that no record holds gets 404 and changes nothing; any
      other aadhaar, without a store error, gets 200. */
  lemma UnknownAadhaarNotFound(users: seq<User>, aadhaar: string, now: Time)
    ensures var (reply, after) := VoteOutcome(users, aadhaar, now, None);
      && (reply.VoteNotFound? <==> forall j :: 0 <= j < |users| ==> users[j].aadhaar != aadhaar)
      && (reply.VoteNotFound? ==> reply.error == UserNotFound && after == users)
      && (!reply.VoteNotFound? ==> Status(reply) == 200)
  {
    var found := FindOne(users, ByAadhaar(aadhaar));
    if found.Some? {
      assert users[found.value].aadhaar == aadhaar;
    }
  }

  /** A store error writes nothing. */
  lemma FaultWritesNothing(users: seq<User>, aadhaar: string, now: Time, m: string)
    ensures VoteOutcome(users, aadhaar, now, Some(m)) == (VoteFailed(m), users)
  {
  }

  /** On success exactly the record holding the aadhaar is updated: its flag
      is set, and its voting date and `updatedAt` are the current time;
      every other field of it, and every other record, stays as it was. The
      reply reports the updated record. */
  lemma VoteUpdatesOnlyTarget(users: seq<User>, i: nat, now: Time)
    requires i < |users| && Unique(users, AadhaarKey)
    ensures var (reply, after) := VoteOutcome(users, users[i].aadhaar, now, None);
      && |after| == |users|
      && after[i] == users[i].(hasVoted := true, votingDate := Some(now), updatedAt := now)
      && (forall j :: 0 <= j < |users| && j != i ==> after[j] == users[j])
      && reply == VoteRecorded(VoteRecordedMessage, users[i].id, users[i].name, true, Some(now))
  {
    AadhaarLookupFindsRecord(users, i);
  }

  /** A second vote with the same aadhaar succeeds again: the flag stays set
      and the voting date becomes the later time. */
  lemma RepeatVoteOverwritesDate(users: seq<User>, aadhaar: string, t1: Time, t2: Time)
    requires VoteOutcome(users, aadhaar, t1, None).0.VoteRecorded?
    ensures var after1 := VoteOutcome(users, aadhaar, t1, None).1;
      var (reply2, after2) := VoteOutcome(after1, aadhaar, t2, None);
      && reply2.VoteRecorded? && reply2.hasVoted && reply2.votingDate == Some(t2)
      && after2 == users[FindOne(users, ByAadhaar(aadhaar)).value := MarkVoted(users[FindOne(users, ByAadhaar(aadhaar)).value], t2)]
  {
    var i := FindOne(users, ByAadhaar(aadhaar)).value;
    var v := MarkVoted(users[i], t1);
    FindOneAfterReplace(users, ByAadhaar(aadhaar), i, v);
    assert users[i := v][i := MarkVoted(v, t2)] == users[i := MarkVoted(users[i], t2)];
  }

  /** No record is ever marked as not voted. */
  lemma VoteNeverUnvotes(users: seq<User>, aadhaar: string, now: Time, fault: Option<string>)
    ensures var after := VoteOutcome(users, aadhaar, now, fault).1;
      |after| == |users| && forall j :: 0 <= j < |users| && users[j].hasVoted ==> after[j].hasVoted
  {
  }

  /** The update keeps the collection invariant. */
  lemma VotePreservesConsistent(users: seq<User>, aadhaar: string, now: Time, fault: Option<string>)
    requires Consistent(users)
    ensures Consistent(VoteOutcome(users, aadhaar, now, fault).1)
  {
    if fault.None? && FindOne(users, ByAadhaar(aadhaar)).Some? {
      var i := FindOne(users, ByAadhaar(aadhaar)).value;
      MarkVotedKeepsKeys(users[i], now);
      UpdatePreservesConsistent(users, i, MarkVoted(users[i], now));
    }
  }
}
