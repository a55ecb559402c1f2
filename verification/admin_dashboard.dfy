/** The candidate logic of frontend/src/AdminDashboard.jsx: the candidate
    form and its validation, the analytics and the top-three ranking derived
    from the list, and the selection with the bulk status update. The CSV
    import and export are in module CandidateCsv. */
module AdminDashboard {
  import opened Wrappers
  import opened Text

  /** A candidate as the dashboard lists it. `age`, `email` and `phone` may
      be missing on records from the server; `id` is the key used by the
      selection. */
  datatype Candidate = Candidate(
    id: string,
    name: string,
    age: Option<string>,
    party: string,
    position: string,
    email: Option<string>,
    phone: Option<string>,
    image: string,
    description: string,
    status: string,
    votes: int)

  // ---------------------------------------------------------------- form

  /** The text inputs of the candidate form. */
  datatype CandidateForm = CandidateForm(
    name: string,
    age: string,
    party: string,
    position: string,
    image: string,
    description: string,
    email: string,
    phone: string,
    status: string)

  /** `emptyForm`: every text empty and the status "active". */
  const EmptyCandidateForm := CandidateForm("", "", "", "", "", "", "", "", "active")

  datatype FormField =
    | NameInput | AgeInput | PartyInput | PositionInput | ImageInput
    | DescriptionInput | EmailInput | PhoneInput | StatusInput

  function FormGet(f: CandidateForm, k: FormField): string {
    match k
    case NameInput => f.name
    case AgeInput => f.age
    case PartyInput => f.party
    case PositionInput => f.position
    case ImageInput => f.image
    case DescriptionInput => f.description
    case EmailInput => f.email
    case PhoneInput => f.phone
    case StatusInput => f.status
  }

  function FormSet(f: CandidateForm, k: FormField, v: string): (r: CandidateForm)
    ensures FormGet(r, k) == v
    ensures forall j :: j != k ==> FormGet(r, j) == FormGet(f, j)
  {
    match k
    case NameInput => f.(name := v)
    case AgeInput => f.(age := v)
    case PartyInput => f.(party := v)
    case PositionInput => f.(position := v)
    case ImageInput => f.(image := v)
    case DescriptionInput => f.(description := v)
    case EmailInput => f.(email := v)
    case PhoneInput => f.(phone := v)
    case StatusInput => f.(status := v)
  }

  /** `handleFormChange`: the previous form is kept when the input already
      holds the value, otherwise the input is set. */
  function FormChange(prev: CandidateForm, k: FormField, v: string): CandidateForm {
    if FormGet(prev, k) == v then prev else FormSet(prev, k, v)
  }

  /** Keeping the previous form is never visible: the result is always the
      form with that input set, and no other input changes. */
  lemma FormChangeSetsInput(prev: CandidateForm, k: FormField, v: string)
    ensures FormChange(prev, k, v) == FormSet(prev, k, v)
    ensures FormGet(FormChange(prev, k, v), k) == v
    ensures forall j :: j != k ==> FormGet(FormChange(prev, k, v), j) == FormGet(prev, j)
  {
    if FormGet(prev, k) == v {
      var r := FormSet(prev, k, v);
      assert forall j :: FormGet(r, j) == FormGet(prev, j);
      match k
      case NameInput =>
      case AgeInput =>
      case PartyInput =>
      case PositionInput =>
      case ImageInput =>
      case DescriptionInput =>
      case EmailInput =>
      case PhoneInput =>
      case StatusInput =>
    }
  }

  const RequiredMessage := "Please fill all required fields: Name, Image URL, Position, Party, and Description."

  /** The five required inputs, each non-empty once trimmed. */
  predicate RequiredFilled(f: CandidateForm) {
    Trim(f.name) != "" && Trim(f.image) != "" && Trim(f.position) != ""
    && Trim(f.party) != "" && Trim(f.description) != ""
  }

  /** `validateForm`: the verdict and the validation message it leaves. */
  function ValidateForm(f: CandidateForm): (r: (bool, string))
    ensures r.0 <==> RequiredFilled(f)
    ensures r.0 <==> r.1 == ""
    ensures !r.0 ==> r.1 == RequiredMessage
  {
    if !RequiredFilled(f) then (false, RequiredMessage) else (true, "")
  }

  /** A form whose name is only white space is refused. */
  lemma BlankFormRefused(f: CandidateForm)
    requires forall i :: 0 <= i < |f.name| ==> IsSpace(f.name[i])
    ensures ValidateForm(f) == (false, RequiredMessage)
  {
    BlankTrimsToEmpty(f.name);
  }

  /** The form as it is reset is refused until it is filled in. */
  lemma EmptyFormRefused()
    ensures ValidateForm(EmptyCandidateForm) == (false, RequiredMessage)
  {
    BlankFormRefused(EmptyCandidateForm);
  }

  lemma BlankTrimsToEmpty(s: string)
    requires forall i :: 0 <= i < |s| ==> IsSpace(s[i])
    ensures Trim(s) == ""
  {
    BlankTrimStart(s);
  }

  lemma {:induction false} BlankTrimStart(s: string)
    requires forall i :: 0 <= i < |s| ==> IsSpace(s[i])
    ensures TrimStart(s) == ""
  {
    if s != [] {
      BlankTrimStart(s[1..]);
    }
  }

  // ----------------------------------------------------------- analytics

  /** The summed `votes` of the list. */
  function TotalVotes(cs: seq<Candidate>): int {
    if cs == [] then 0 else TotalVotes(cs[..|cs| - 1]) + cs[|cs| - 1].votes
  }

  /** The number of candidates whose status is `s`. */
  function CountStatus(cs: seq<Candidate>, s: string): (n: nat)
    ensures n <= |cs|
  {
    if cs == [] then 0
    else CountStatus(cs[..|cs| - 1], s) + (if cs[|cs| - 1].status == s then 1 else 0)
  }

  /** `Math.round(a / b)` for `b > 0`, in exact arithmetic: the nearest
      integer, halves rounded up. */
  function RoundDiv(a: int, b: int): (r: int)
    requires b > 0
    ensures 2 * b * r <= 2 * a + b < 2 * b * r + 2 * b
  {
    (2 * a + b) / (2 * b)
  }

  datatype Analytics = Analytics(
    totalVotes: int,
    activeCandidates: nat,
    activeCandidatesChange: int,
    inactiveCandidates: nat,
    suspendedCandidates: nat,
    uniquePositions: nat,
    uniqueParties: nat,
    activeSessions: int,
    activeSessionsStatus: string,
    averageVotesPerCandidate: int)

  function Positions(cs: seq<Candidate>): set<string> {
    set c | c in cs :: c.position
  }

  function Parties(cs: seq<Candidate>): set<string> {
    set c | c in cs :: c.party
  }

  /** `analyticsData`, without the vote change against an estimated previous
      total. */
  function AnalyticsOf(cs: seq<Candidate>): Analytics {
    var total := TotalVotes(cs);
    var active := CountStatus(cs, "active");
    Analytics(
      total,
      active,
      active - (if active - 1 > 0 then active - 1 else 0),
      CountStatus(cs, "inactive"),
      CountStatus(cs, "suspended"),
      |Positions(cs)|,
      |Parties(cs)|,
      if active > 0 then 1 else 0,
      if active > 0 then "Live" else "Inactive",
      if |cs| > 0 then RoundDiv(total, |cs|) else 0)
  }

  /** The three status counts never exceed the list; there is one live
      session exactly when some candidate is active, and the change in active
      candidates is 1 or 0 accordingly; the average is the total over the
      count rounded to the nearest integer. */
  lemma AnalyticsFacts(cs: seq<Candidate>)
    ensures var a := AnalyticsOf(cs);
      && a.activeCandidates + a.inactiveCandidates + a.suspendedCandidates <= |cs|
      && (a.activeSessions == 1 <==> exists c :: c in cs && c.status == "active")
      && (a.activeSessions == 0 <==> a.activeSessionsStatus == "Inactive")
      && a.activeCandidatesChange == a.activeSessions
      && (|cs| > 0 ==> 2 * |cs| * a.averageVotesPerCandidate <= 2 * a.totalVotes + |cs| < 2 * |cs| * a.averageVotesPerCandidate + 2 * |cs|)
      && a.uniquePositions <= |cs| && a.uniqueParties <= |cs|
  {
    StatusCountsBound(cs);
    ActiveCountPositive(cs);
    ProjectionBound(cs, true);
    ProjectionBound(cs, false);
  }

  lemma {:induction false} StatusCountsBound(cs: seq<Candidate>)
    ensures CountStatus(cs, "active") + CountStatus(cs, "inactive") + CountStatus(cs, "suspended") <= |cs|
  {
    if cs != [] {
      StatusCountsBound(cs[..|cs| - 1]);
    }
  }

  lemma {:induction false} ActiveCountPositive(cs: seq<Candidate>)
    ensures CountStatus(cs, "active") > 0 <==> exists c :: c in cs && c.status == "active"
  {
    if cs != [] {
      var init := cs[..|cs| - 1];
      ActiveCountPositive(init);
      assert cs == init + [cs[|cs| - 1]];
      if exists c :: c in init && c.status == "active" {
        var c :| c in init && c.status == "active";
        assert c in cs;
      }
    }
  }

  /** At most one position (or party) per candidate. */
  lemma {:induction false} ProjectionBound(cs: seq<Candidate>, positions: bool)
    ensures positions ==> |Positions(cs)| <= |cs|
    ensures !positions ==> |Parties(cs)| <= |cs|
  {
    if cs != [] {
      var init := cs[..|cs| - 1];
      var last := cs[|cs| - 1];
      ProjectionBound(init, positions);
      assert cs == init + [last];
      assert Positions(cs) == Positions(init) + {last.position};
      assert Parties(cs) == Parties(init) + {last.party};
    }
  }

  // ---------------------------------------------------------------- top 3

  /** Inserts `c` into a list ordered by votes, highest first, after every
      entry with at least as many votes. */
  function InsertByVotes(s: seq<Candidate>, c: Candidate): (r: seq<Candidate>)
    ensures multiset(r) == multiset(s) + multiset{c}
    ensures |r| == |s| + 1
  {
    if s == [] || s[|s| - 1].votes >= c.votes then s + [c]
    else
      assert s == s[..|s| - 1] + [s[|s| - 1]];
      InsertByVotes(s[..|s| - 1], c) + [s[|s| - 1]]
  }

  /** Ordered by votes, highest first. */
  predicate Descending(s: seq<Candidate>) {
    forall i, j :: 0 <= i < j < |s| ==> s[i].votes >= s[j].votes
  }

  /** `[...candidates].sort((a, b) => b.votes - a.votes)`, as an insertion
      sort that keeps equal-vote candidates in list order. */
  function SortByVotes(cs: seq<Candidate>): (r: seq<Candidate>)
    ensures multiset(r) == multiset(cs)
    ensures |r| == |cs|
  {
    if cs == [] then []
    else
      assert cs == cs[..|cs| - 1] + [cs[|cs| - 1]];
      InsertByVotes(SortByVotes(cs[..|cs| - 1]), cs[|cs| - 1])
  }

  lemma {:induction false} InsertKeepsDescending(s: seq<Candidate>, c: Candidate)
    requires Descending(s)
    ensures Descending(InsertByVotes(s, c))
    ensures InsertByVotes(s, c) != [] && InsertByVotes(s, c)[0].votes >= c.votes
    ensures s != [] ==> InsertByVotes(s, c)[0].votes >= s[0].votes
  {
    if s == [] || s[|s| - 1].votes >= c.votes {
    } else {
      var init := s[..|s| - 1];
      InsertKeepsDescending(init, c);
      var r := InsertByVotes(init, c);
      assert multiset(r) == multiset(init) + multiset{c};
      forall x | x in r ensures x.votes >= s[|s| - 1].votes {
        assert x in multiset(r);
        if x in init {
          var k :| 0 <= k < |init| && init[k] == x;
        }
      }
    }
  }

  /** The sort orders by votes, highest first, and only reorders. */
  lemma {:induction false} SortByVotesSorts(cs: seq<Candidate>)
    ensures Descending(SortByVotes(cs))
  {
    if cs != [] {
      var init := cs[..|cs| - 1];
      SortByVotesSorts(init);
      InsertKeepsDescending(SortByVotes(init), cs[|cs| - 1]);
    }
  }

  datatype Ranked = Ranked(candidate: Candidate, rank: int, percentage: int)

  /** `Math.round(votes / total * 100)`, or 0 when the total is not
      positive. */
  function Percentage(votes: int, total: int): int {
    if total > 0 then RoundDiv(100 * votes, total) else 0
  }

  /** `topPerformingCandidates`: the first three of the sorted list, ranked
      from 1, with their share of the total. */
  function TopPerforming(cs: seq<Candidate>): (r: seq<Ranked>)
    ensures |r| == if |cs| < 3 then |cs| else 3
  {
    SortByVotesSorts(cs);
    var sorted := SortByVotes(cs);
    var total := TotalVotes(cs);
    var k := if |sorted| < 3 then |sorted| else 3;
    seq(k, i requires 0 <= i < k => Ranked(sorted[i], i + 1, Percentage(sorted[i].votes, total)))
  }

  /** The ranking has min(3, n) entries ranked 1, 2, 3 in order of votes,
      each a listed candidate; every candidate left out has no more votes
      than any ranked one; with no votes in total every share is 0. */
  lemma TopPerformingShape(cs: seq<Candidate>)
    ensures var r := TopPerforming(cs);
      && (forall i :: 0 <= i < |r| ==> r[i].rank == i + 1 && r[i].candidate in cs)
      && (forall i, j :: 0 <= i < j < |r| ==> r[i].candidate.votes >= r[j].candidate.votes)
      && (TotalVotes(cs) == 0 ==> forall i :: 0 <= i < |r| ==> r[i].percentage == 0)
      && (forall i :: 0 <= i < |r| ==> r[i].candidate == SortByVotes(cs)[i])
      && (forall i, j :: 0 <= i < |r| <= j < |cs| ==> SortByVotes(cs)[j].votes <= r[i].candidate.votes)
  {
    SortByVotesSorts(cs);
    var sorted := SortByVotes(cs);
    var r := TopPerforming(cs);
    forall i | 0 <= i < |r| ensures r[i].candidate in cs {
      assert sorted[i] in multiset(sorted);
    }
  }

  /** With no negative vote counts every share lies between 0 and 100. */
  lemma PercentageBounds(cs: seq<Candidate>)
    requires forall c :: c in cs ==> c.votes >= 0
    ensures forall x :: x in TopPerforming(cs) ==> 0 <= x.percentage <= 100
  {
    var r := TopPerforming(cs);
    TopPerformingShape(cs);
    forall x | x in r ensures 0 <= x.percentage <= 100 {
      var i :| 0 <= i < |r| && r[i] == x;
      assert x.candidate in cs;
      VotesWithinTotal(cs, x.candidate);
      assert x.percentage == Percentage(x.candidate.votes, TotalVotes(cs));
      PercentageRange(x.candidate.votes, TotalVotes(cs));
    }
  }

  lemma PercentageRange(v: int, total: int)
    requires 0 <= v <= total
    ensures 0 <= Percentage(v, total) <= 100
  {
    if total > 0 {
      var r := Percentage(v, total);
      assert 2 * total * r <= 200 * v + total < 2 * total * r + 2 * total;
      if r > 100 {
        MulAtLeast(2 * total, r, 101);
      }
      if r < 0 {
        MulAtLeast(2 * total, -r, 1);
      }
    }
  }

  lemma MulAtLeast(k: int, a: int, b: int)
    requires k >= 0 && a >= b
    ensures k * a >= k * b
  {
  }

  lemma {:induction false} VotesWithinTotal(cs: seq<Candidate>, c: Candidate)
    requires forall d :: d in cs ==> d.votes >= 0
    requires c in cs
    ensures 0 <= c.votes <= TotalVotes(cs)
    ensures TotalVotes(cs) >= 0
  {
    var init := cs[..|cs| - 1];
    assert cs == init + [cs[|cs| - 1]];
    NonNegativeTotal(init);
    if c != cs[|cs| - 1] {
      VotesWithinTotal(init, c);
    }
  }

  lemma {:induction false} NonNegativeTotal(cs: seq<Candidate>)
    requires forall d :: d in cs ==> d.votes >= 0
    ensures TotalVotes(cs) >= 0
  {
    if cs != [] {
      var init := cs[..|cs| - 1];
      assert cs == init + [cs[|cs| - 1]];
      NonNegativeTotal(init);
    }
  }

  // ---------------------------------------------- selection and bulk status

  /** The selection after `handleSelectCandidate(id)`: `id` flipped, every
      other id as before. */
  function Toggle(selected: set<string>, id: string): (r: set<string>)
    ensures id in r <==> id !in selected
    ensures forall x :: x != id ==> (x in r <==> x in selected)
  {
    if id in selected then selected - {id} else selected + {id}
  }

  /** Toggling twice restores the selection. */
  lemma ToggleTwice(selected: set<string>, id: string)
    ensures Toggle(Toggle(selected, id), id) == selected
  {
  }

  function Ids(cs: seq<Candidate>): set<string> {
    set c | c in cs :: c.id
  }

  /** `bulkUpdateStatus(status)` on the list: every selected candidate takes
      the status, nothing else changes; an empty selection changes nothing. */
  function BulkStatus(cs: seq<Candidate>, selected: set<string>, status: string): (r: seq<Candidate>)
    ensures |r| == |cs|
    ensures forall i :: 0 <= i < |cs| ==>
              r[i] == if cs[i].id in selected then cs[i].(status := status) else cs[i]
  {
    if selected == {} then cs
    else seq(|cs|, i requires 0 <= i < |cs| => if cs[i].id in selected then cs[i].(status := status) else cs[i])
  }

  /** Only the status of selected candidates changes, and an update with
      the same status twice is the update once. */
  lemma BulkStatusFacts(cs: seq<Candidate>, selected: set<string>, status: string)
    ensures selected == {} ==> BulkStatus(cs, selected, status) == cs
    ensures forall i :: 0 <= i < |cs| ==> BulkStatus(cs, selected, status)[i].(status := cs[i].status) == cs[i]
    ensures forall i :: 0 <= i < |cs| && cs[i].id !in selected ==> BulkStatus(cs, selected, status)[i] == cs[i]
    ensures BulkStatus(BulkStatus(cs, selected, status), selected, status) == BulkStatus(cs, selected, status)
  {
    var r := BulkStatus(cs, selected, status);
    var rr := BulkStatus(r, selected, status);
    forall i | 0 <= i < |cs| ensures rr[i] == r[i] {
      assert r[i].id == cs[i].id;
    }
  }

  /** The dashboard's candidate list, selection and form. */
  class Dashboard {
    var candidates: seq<Candidate>
    var selected: set<string>
    var selectAll: bool
    var form: CandidateForm
    var validationError: string

    constructor ()
      ensures candidates == [] && selected == {} && !selectAll
      ensures form == EmptyCandidateForm && validationError == ""
    {
      candidates := [];
      selected := {};
      selectAll := false;
      form := EmptyCandidateForm;
      validationError := "";
    }

    /** `handleFormChange` */
    method ChangeForm(k: FormField, v: string)
      modifies this
      ensures form == FormChange(old(form), k, v)
      ensures unchanged(this`candidates, this`selected, this`selectAll, this`validationError)
    {
      form := FormChange(form, k, v);
    }

    /** `validateForm`, which also sets the validation message. */
    method Validate() returns (ok: bool)
      modifies this
      ensures (ok, validationError) == ValidateForm(form)
      ensures unchanged(this`candidates, this`selected, this`selectAll, this`form)
    {
      if !RequiredFilled(form) {
        validationError := RequiredMessage;
        return false;
      }
      validationError := "";
      return true;
    }

    /** `handleSelectCandidate`: the id is flipped in a copy of the
        selection, and `selectAll` says whether the copy has as many ids as
        the list has candidates, the list being non-empty. */
    method SelectCandidate(id: string)
      modifies this
      ensures selected == Toggle(old(selected), id)
      ensures selectAll <==> |selected| == |candidates| && |candidates| > 0
      ensures unchanged(this`candidates, this`form, this`validationError)
    {
      var next := selected;
      if id in next {
        next := next - {id};
      } else {
        next := next + {id};
      }
      selectAll := |next| == |candidates| && |candidates| > 0;
      selected := next;
    }

    /** `handleSelectAll`: a full, non-empty selection is cleared, any other
        is replaced by every listed id. */
    method SelectAll()
      modifies this
      ensures |old(selected)| == |candidates| && |old(selected)| > 0 ==> selected == {} && !selectAll
      ensures !(|old(selected)| == |candidates| && |old(selected)| > 0) ==> selected == Ids(candidates) && selectAll
      ensures unchanged(this`candidates, this`form, this`validationError)
    {
      if |selected| == |candidates| && |selected| > 0 {
        selectAll := false;
        selected := {};
        return;
      }
      selected := Ids(candidates);
      selectAll := true;
    }

    /** `bulkUpdateStatus`: refused with an empty selection; otherwise the
        selected candidates take the status and the selection is cleared. */
    method BulkUpdateStatus(status: string) returns (applied: bool)
      modifies this
      ensures applied <==> old(selected) != {}
      ensures candidates == BulkStatus(old(candidates), old(selected), status)
      ensures applied ==> selected == {} && !selectAll
      ensures !applied ==> selected == old(selected) && selectAll == old(selectAll)
      ensures unchanged(this`form, this`validationError)
    {
      if selected == {} {
        return false;
      }
      candidates := BulkStatus(candidates, selected, status);
      selected := {};
      selectAll := false;
      return true;
    }
  }
}
