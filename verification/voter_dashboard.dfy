/** The ballot of frontend/src/VoterDashboard.jsx: the votes recorded on the
    page, one candidate id per position, the rule that enables the vote
    buttons, the two dialogs and the expanded candidate cards. The server's
    reply to a confirmed vote is a parameter; the toast a handler shows is
    its result. */
module VoterDashboard {
  import opened Wrappers

  /** The candidate fields the ballot logic reads. */
  datatype BallotCandidate = BallotCandidate(id: string, name: string, position: string, party: string)

  /** The four candidates built into the page. */
  const MockCandidates: seq<BallotCandidate> := [
    BallotCandidate("candidate-1", "Sarah Johnson", "President", "Progressive Alliance"),
    BallotCandidate("candidate-2", "Michael Chen", "President", "Unity Party"),
    BallotCandidate("candidate-3", "David Rodriguez", "President", "Democratic Coalition"),
    BallotCandidate("candidate-4", "David Tho", "President", "Democratic Coalition")
  ]

  const TermsMessage := "Please accept the terms and conditions to proceed"
  const VoteFailedMessage := "Failed to cast vote"

  /** `candidates.find(c => c.id === id)`: the first candidate with the id. */
  function Find(cs: seq<BallotCandidate>, id: string): (r: Option<BallotCandidate>)
    ensures r.None? <==> forall i :: 0 <= i < |cs| ==> cs[i].id != id
    ensures r.Some? ==> r.value in cs && r.value.id == id
    ensures r.Some? ==> exists i :: 0 <= i < |cs| && cs[i] == r.value && forall j :: 0 <= j < i ==> cs[j].id != id
  {
    if cs == [] then None
    else if cs[0].id == id then Some(cs[0])
    else
      var r := Find(cs[1..], id);
      if r.Some? then
        var i :| 0 <= i < |cs[1..]| && cs[1..][i] == r.value && forall j :: 0 <= j < i ==> cs[1..][j].id != id;
        assert cs[i + 1] == r.value && forall j :: 0 <= j < i + 1 ==> cs[j].id != id;
        r
      else r
  }

  /** `hasVotedForPosition` */
  predicate HasVotedFor(votes: map<string, string>, position: string) {
    position in votes
  }

  /** The `disabled` attribute of a candidate's vote button: the position
      already holds a vote for someone else. */
  predicate ButtonDisabled(votes: map<string, string>, c: BallotCandidate) {
    HasVotedFor(votes, c.position) && votes[c.position] != c.id
  }

  /** The text of a candidate's vote button. */
  function ButtonLabel(votes: map<string, string>, c: BallotCandidate): (text: string)
    ensures text == "Voted" <==> c.position in votes && votes[c.position] == c.id
    ensures text == "Voted" || text == "Vote"
  {
    if c.position in votes && votes[c.position] == c.id then "Voted" else "Vote"
  }

  /** Every recorded vote names a candidate standing for that position. */
  predicate VotesValid(cs: seq<BallotCandidate>, votes: map<string, string>) {
    forall p :: p in votes ==> exists c :: c in cs && c.position == p && c.id == votes[p]
  }

  /** `expandedCards[id]` read as a flag: an id never toggled is collapsed. */
  function Expanded(cards: map<string, bool>, id: string): bool {
    id in cards && cards[id]
  }

  /** The buttons of a position: before its vote every button is enabled and
      reads "Vote"; after a vote for `chosen`, the chosen candidate's button
      reads "Voted" and stays enabled, and every other candidate of the
      position is disabled. Positions are independent. */
  lemma ButtonRule(votes: map<string, string>, chosen: BallotCandidate, c: BallotCandidate)
    ensures !HasVotedFor(votes, c.position) ==> !ButtonDisabled(votes, c) && ButtonLabel(votes, c) == "Vote"
    ensures var after := votes[chosen.position := chosen.id];
      && !ButtonDisabled(after, chosen) && ButtonLabel(after, chosen) == "Voted"
      && (c.position == chosen.position && c.id != chosen.id ==> ButtonDisabled(after, c) && ButtonLabel(after, c) == "Vote")
      && (c.position != chosen.position ==> ButtonDisabled(after, c) == ButtonDisabled(votes, c) && ButtonLabel(after, c) == ButtonLabel(votes, c))
  {
  }

  /** Recording the vote of a candidate whose button is enabled never
      replaces an earlier vote with a different one: it either fills an empty
      position or records the same choice again. */
  lemma EnabledVoteIsFinal(votes: map<string, string>, c: BallotCandidate)
    requires !ButtonDisabled(votes, c)
    ensures HasVotedFor(votes, c.position) ==> votes[c.position := c.id] == votes
    ensures forall p :: p in votes ==> p in votes[c.position := c.id] && votes[c.position := c.id][p] == votes[p]
  {
  }

  /** Recording a vote for a known candidate keeps every vote valid. */
  lemma RecordKeepsVotesValid(cs: seq<BallotCandidate>, votes: map<string, string>, c: BallotCandidate)
    requires VotesValid(cs, votes) && c in cs
    ensures VotesValid(cs, votes[c.position := c.id])
  {
    var after := votes[c.position := c.id];
    forall p | p in after ensures exists d :: d in cs && d.position == p && d.id == after[p] {
      if p == c.position {
        assert c in cs && c.position == p && c.id == after[p];
      } else {
        var d :| d in cs && d.position == p && d.id == votes[p];
        assert d.id == after[p];
      }
    }
  }

  /** The reply to the vote request, as the page reads it. */
  datatype VoteReply =
    | VoteReply(status: int, error: Option<string>)
    | VoteRequestFailed

  /** The toast shown after the request: success for a 200, else the
      server's error or the fallback. */
  function VoteToast(c: BallotCandidate, reply: VoteReply): (t: string)
    ensures reply.VoteReply? && reply.status == 200 ==> t == "Vote cast successfully for " + c.name + "!"
    ensures reply.VoteRequestFailed? ==> t == VoteFailedMessage
    ensures reply.VoteReply? && reply.status != 200 ==> t != ""
  {
    match reply
    case VoteReply(status, error) =>
      if status == 200 then "Vote cast successfully for " + c.name + "!"
      else if error.Some? && error.value != "" then error.value
      else VoteFailedMessage
    case VoteRequestFailed => VoteFailedMessage
  }

  class Ballot {
    const candidates: seq<BallotCandidate>
    var showRulesModal: bool
    var showVotingConfirmation: bool
    var selectedCandidate: Option<BallotCandidate>
    var votes: map<string, string>
    var expandedCards: map<string, bool>
    var termsAccepted: bool

    /** The selected candidate is one of the page's, and so is every
        recorded vote. */
    predicate Valid()
      reads this
    {
      && (selectedCandidate.Some? ==> selectedCandidate.value in candidates)
      && VotesValid(candidates, votes)
    }

    /** The page as it opens: the built-in candidates, the rules dialog
        shown, nothing chosen, no vote recorded, the terms not accepted. */
    constructor ()
      ensures Valid()
      ensures candidates == MockCandidates && showRulesModal && !showVotingConfirmation
      ensures selectedCandidate == None && votes == map[] && expandedCards == map[] && !termsAccepted
    {
      candidates := MockCandidates;
      showRulesModal := true;
      showVotingConfirmation := false;
      selectedCandidate := None;
      votes := map[];
      expandedCards := map[];
      termsAccepted := false;
    }

    /** `handleVote`: a known id is selected and the confirmation dialog
        opened; an unknown id changes nothing. */
    method HandleVote(id: string)
      requires Valid()
      modifies this
      ensures Valid()
      ensures Find(candidates, id).Some? ==>
        selectedCandidate == Find(candidates, id) && showVotingConfirmation
      ensures Find(candidates, id).None? ==>
        selectedCandidate == old(selectedCandidate) && showVotingConfirmation == old(showVotingConfirmation)
      ensures votes == old(votes) && expandedCards == old(expandedCards)
      ensures showRulesModal == old(showRulesModal) && termsAccepted == old(termsAccepted)
    {
      var candidate := Find(candidates, id);
      if candidate.Some? {
        selectedCandidate := candidate;
        showVotingConfirmation := true;
      }
    }

    /** `confirmVote`: with a selection, its position records its id and the
        dialog closes before the request is sent, whatever the reply; a 200
        also clears the selection. The toast shown is returned. Without a
        selection nothing happens. */
    method ConfirmVote(reply: VoteReply) returns (toast: Option<string>)
      requires Valid()
      modifies this
      ensures Valid()
      ensures old(selectedCandidate).None? ==>
        && toast == None && selectedCandidate == None
        && votes == old(votes) && showVotingConfirmation == old(showVotingConfirmation)
      ensures old(selectedCandidate).Some? ==>
        var c := old(selectedCandidate).value;
        && votes == old(votes)[c.position := c.id]
        && !showVotingConfirmation
        && toast == Some(VoteToast(c, reply))
        && (selectedCandidate == None <==> reply.VoteReply? && reply.status == 200)
        && (selectedCandidate != None ==> selectedCandidate == old(selectedCandidate))
      ensures expandedCards == old(expandedCards)
      ensures showRulesModal == old(showRulesModal) && termsAccepted == old(termsAccepted)
    {
      toast := None;
      if selectedCandidate.Some? {
        var c := selectedCandidate.value;
        RecordKeepsVotesValid(candidates, votes, c);
        votes := votes[c.position := c.id];
        showVotingConfirmation := false;
        toast := Some(VoteToast(c, reply));
        if reply.VoteReply? && reply.status == 200 {
          selectedCandidate := None;
        }
      }
    }

    /** `closeVotingConfirmation`: the dialog closes and the selection is
        dropped. */
    method CloseVotingConfirmation()
      requires Valid()
      modifies this`showVotingConfirmation, this`selectedCandidate
      ensures Valid()
      ensures !showVotingConfirmation && selectedCandidate == None
    {
      showVotingConfirmation := false;
      selectedCandidate := None;
    }

    /** `handleTermsChange` */
    method ChangeTerms(checked: bool)
      modifies this`termsAccepted
      ensures termsAccepted == checked
    {
      termsAccepted := checked;
    }

    /** `closeRulesModal`: the rules dialog closes only once the terms are
        accepted; otherwise it stays open and the warning is returned. */
    method CloseRulesModal() returns (toast: Option<string>)
      modifies this`showRulesModal
      ensures termsAccepted ==> !showRulesModal && toast == None
      ensures !termsAccepted ==> showRulesModal == old(showRulesModal) && toast == Some(TermsMessage)
    {
      if !termsAccepted {
        return Some(TermsMessage);
      }
      showRulesModal := false;
      toast := None;
    }

    /** `toggleExpand`: the card's flag flips and every other card keeps
        its own. */
    method ToggleExpand(id: string)
      modifies this`expandedCards
      ensures expandedCards == old(expandedCards)[id := !Expanded(old(expandedCards), id)]
      ensures Expanded(expandedCards, id) == !Expanded(old(expandedCards), id)
      ensures forall other :: other != id ==> Expanded(expandedCards, other) == Expanded(old(expandedCards), other)
    {
      expandedCards := expandedCards[id := !Expanded(expandedCards, id)];
    }
  }

  /** Toggling a card twice shows every card as it was. */
  lemma ToggleTwice(cards: map<string, bool>, id: string)
    ensures var once := cards[id := !Expanded(cards, id)];
      var twice := once[id := !Expanded(once, id)];
      forall other :: Expanded(twice, other) == Expanded(cards, other)
  {
  }

  /** All built-in candidates stand for one position, so once any of them
      is voted for, the button of every other one is disabled. */
  lemma MockBallotHasOneChoice(votes: map<string, string>, i: nat, j: nat)
    requires i < |MockCandidates| && j < |MockCandidates| && i != j
    ensures ButtonDisabled(votes[MockCandidates[i].position := MockCandidates[i].id], MockCandidates[j])
  {
    var a := MockCandidates[i];
    var b := MockCandidates[j];
    assert a.position == b.position;
    assert a.id[10] != b.id[10];
  }

  /** Two recorded votes for one position keep only the later. */
  lemma LaterVoteWins(votes: map<string, string>, a: BallotCandidate, b: BallotCandidate)
    requires a.position == b.position
    ensures votes[a.position := a.id][b.position := b.id] == votes[b.position := b.id]
  {
  }
}
