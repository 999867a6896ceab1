/**
 * The on-chain poll registry (`PollManager` in contract.py).
 *
 * The contract keeps a box map from poll id to a `PollData` record and a
 * `next_poll_id` counter. A failed `assert` on the chain aborts the whole
 * application call, so every failing call is modelled as an error result that
 * leaves the state as it was.
 */
module PollContract {
  import opened Wrappers
  import opened Seqs

  /** An account address, as the caller passes it in (it is not the transaction sender). */
  type Address = string

  /** The number of an option slot, 1..5. */
  type OptionNo = k: int | 1 <= k <= 5 witness 1

  /** The stored record of one poll. */
  datatype PollData = PollData(
    id: nat,
    question: string,
    option1: string,
    option2: string,
    option3: string,
    option4: string,
    option5: string,
    option1Votes: nat,
    option2Votes: nat,
    option3Votes: nat,
    option4Votes: nat,
    option5Votes: nat,
    voters: seq<Address>)

  /** Why a call to the contract failed. */
  datatype ContractError =
    | PollNotFound        // the box for the poll id does not exist, so reading it fails
    | AlreadyVoted        // "Already voted"
    | OptionDoesNotExist  // "Option doesn't exist in this poll"

  function OptionText(p: PollData, k: OptionNo): string
  {
    match k
    case 1 => p.option1
    case 2 => p.option2
    case 3 => p.option3
    case 4 => p.option4
    case 5 => p.option5
  }

  function VotesFor(p: PollData, k: OptionNo): nat
  {
    match k
    case 1 => p.option1Votes
    case 2 => p.option2Votes
    case 3 => p.option3Votes
    case 4 => p.option4Votes
    case 5 => p.option5Votes
  }

  function TotalVotes(p: PollData): nat
  {
    p.option1Votes + p.option2Votes + p.option3Votes + p.option4Votes + p.option5Votes
  }

  /** The quantity every vote leaves unchanged: counted votes minus recorded voters. */
  function Balance(p: PollData): int
  {
    TotalVotes(p) - |p.voters|
  }

  /** A record as a well-behaved client submits it: no votes and no voters yet. */
  predicate Blank(p: PollData)
  {
    TotalVotes(p) == 0 && p.voters == []
  }

  /** Every vote in the record is backed by exactly one distinct voter. */
  predicate Tallied(p: PollData)
  {
    TotalVotes(p) == |p.voters| && Distinct(p.voters)
  }

  /**
   * The success path of `vote_option_k`: bump the k-th counter and append the
   * caller. Nothing else in the record changes.
   */
  function RecordVote(p: PollData, k: OptionNo, caller: Address): (r: PollData)
    ensures VotesFor(r, k) == VotesFor(p, k) + 1
    ensures forall j: OptionNo :: j != k ==> VotesFor(r, j) == VotesFor(p, j)
    ensures r.voters == p.voters + [caller]
    ensures r.id == p.id && r.question == p.question
    ensures forall j: OptionNo :: OptionText(r, j) == OptionText(p, j)
    ensures TotalVotes(r) == TotalVotes(p) + 1
  {
    var p' := match k
      case 1 => p.(option1Votes := p.option1Votes + 1)
      case 2 => p.(option2Votes := p.option2Votes + 1)
      case 3 => p.(option3Votes := p.option3Votes + 1)
      case 4 => p.(option4Votes := p.option4Votes + 1)
      case 5 => p.(option5Votes := p.option5Votes + 1);
    p'.(voters := p'.voters + [caller])
  }

  /** The whole contract state. */
  datatype Registry = Registry(polls: map<nat, PollData>, nextPollId: nat)

  /** The registry invariant: ids are handed out from 1 upwards and each record carries its key. */
  ghost predicate Inv(s: Registry)
  {
    && s.nextPollId >= 1
    && (forall q :: q in s.polls ==> 1 <= q < s.nextPollId)
    && (forall q :: q in s.polls ==> s.polls[q].id == q)
  }

  /** The state right after deployment (`__init__`). */
  function Init(): (s: Registry)
    ensures s.polls == map[] && s.nextPollId == 1
  {
    Registry(map[], 1)
  }

  lemma InitSatisfiesInv()
    ensures Inv(Init())
  {
  }

  /** `create_poll`: store the record under the current counter, stamped with that id, then bump the counter. */
  function Create(s: Registry, pollData: PollData): (r: Registry)
    ensures r.polls.Keys == s.polls.Keys + {s.nextPollId}
    ensures r.polls[s.nextPollId] == pollData.(id := s.nextPollId)
    ensures forall key :: key in s.polls && key != s.nextPollId ==> r.polls[key] == s.polls[key]
    ensures r.nextPollId == s.nextPollId + 1
  {
    Registry(s.polls[s.nextPollId := pollData.(id := s.nextPollId)], s.nextPollId + 1)
  }

  /**
   * `vote_option_k`. The checks run in the order the contract runs them:
   * reading the poll's box, the voter-list search, then (for k = 3..5 only)
   * the option text.
   */
  function CastVote(s: Registry, k: OptionNo, pollId: nat, caller: Address): (r: Result<Registry, ContractError>)
    ensures r.Success? <==>
      && pollId in s.polls
      && caller !in s.polls[pollId].voters
      && (k <= 2 || OptionText(s.polls[pollId], k) != "")
    ensures r.Success? ==>
      && r.value.nextPollId == s.nextPollId
      && r.value.polls.Keys == s.polls.Keys
      && r.value.polls[pollId] == RecordVote(s.polls[pollId], k, caller)
      && (forall id :: id in s.polls && id != pollId ==> r.value.polls[id] == s.polls[id])
  {
    if pollId !in s.polls then Failure(PollNotFound)
    else if caller in s.polls[pollId].voters then Failure(AlreadyVoted)
    else if k >= 3 && OptionText(s.polls[pollId], k) == "" then Failure(OptionDoesNotExist)
    else Success(s.(polls := s.polls[pollId := RecordVote(s.polls[pollId], k, caller)]))
  }

  /** The error of a vote, or none. */
  function VoteOutcome(s: Registry, k: OptionNo, pollId: nat, caller: Address): Outcome<ContractError>
  {
    match CastVote(s, k, pollId, caller)
    case Success(_) => Pass
    case Failure(e) => Fail(e)
  }

  /** The state after a vote: the new state on success, the old one on failure. */
  function AfterVote(s: Registry, k: OptionNo, pollId: nat, caller: Address): Registry
  {
    match CastVote(s, k, pollId, caller)
    case Success(s') => s'
    case Failure(_) => s
  }

  // ---------------------------------------------------------------------
  // Properties of creating a poll

  /** Creating a poll keeps the invariant. */
  lemma CreateKeepsInv(s: Registry, pollData: PollData)
    requires Inv(s)
    ensures Inv(Create(s, pollData))
  {
  }

  /**
   * Under the invariant, the new poll gets a key that was free and larger than
   * every existing key, its record is the submitted one with the id stamped on,
   * and no existing poll is overwritten or altered.
   */
  lemma CreateNeverOverwrites(s: Registry, pollData: PollData)
    requires Inv(s)
    ensures s.nextPollId !in s.polls
    ensures forall q :: q in s.polls ==> q < s.nextPollId
    ensures Create(s, pollData).polls.Keys == s.polls.Keys + {s.nextPollId}
    ensures Create(s, pollData).polls[s.nextPollId] == pollData.(id := s.nextPollId)
    ensures forall q :: q in s.polls ==> Create(s, pollData).polls[q] == s.polls[q]
    ensures Create(s, pollData).nextPollId == s.nextPollId + 1
  {
  }

  /** Two creations in a row hand out consecutive, strictly increasing ids. */
  lemma CreateIdsIncrease(s: Registry, a: PollData, b: PollData)
    requires Inv(s)
    ensures var s1 := Create(s, a); var s2 := Create(s1, b);
      && s2.polls[s.nextPollId].id == s.nextPollId
      && s2.polls[s1.nextPollId].id == s.nextPollId + 1
      && s2.polls[s.nextPollId] == a.(id := s.nextPollId)
  {
    CreateNeverOverwrites(s, a);
    CreateKeepsInv(s, a);
    CreateNeverOverwrites(Create(s, a), b);
  }

  // ---------------------------------------------------------------------
  // Properties of voting

  /** When a vote fails, and why. The error cases are exactly these, in this order. */
  lemma VoteFailureCases(s: Registry, k: OptionNo, pollId: nat, caller: Address)
    ensures CastVote(s, k, pollId, caller) == Failure(PollNotFound) <==> pollId !in s.polls
    ensures CastVote(s, k, pollId, caller) == Failure(AlreadyVoted)
      <==> pollId in s.polls && caller in s.polls[pollId].voters
    ensures CastVote(s, k, pollId, caller) == Failure(OptionDoesNotExist)
      <==> pollId in s.polls && caller !in s.polls[pollId].voters && k >= 3 && OptionText(s.polls[pollId], k) == ""
  {
  }

  /** Options 1 and 2 carry no existence check: a new voter on an existing poll always succeeds, even on empty text. */
  lemma FirstTwoOptionsAlwaysAccepted(s: Registry, k: OptionNo, pollId: nat, caller: Address)
    requires k <= 2 && pollId in s.polls && caller !in s.polls[pollId].voters
    ensures CastVote(s, k, pollId, caller).Success?
  {
  }

  /**
   * A successful vote changes exactly one counter of exactly one poll and
   * appends the caller; all other polls and the id counter stay as they were.
   */
  lemma VoteChangesOnlyItsPoll(s: Registry, k: OptionNo, pollId: nat, caller: Address)
    requires CastVote(s, k, pollId, caller).Success?
    ensures var s' := CastVote(s, k, pollId, caller).value;
      && s'.nextPollId == s.nextPollId
      && s'.polls.Keys == s.polls.Keys
      && (forall q :: q in s.polls && q != pollId ==> s'.polls[q] == s.polls[q])
      && VotesFor(s'.polls[pollId], k) == VotesFor(s.polls[pollId], k) + 1
      && (forall j: OptionNo :: j != k ==> VotesFor(s'.polls[pollId], j) == VotesFor(s.polls[pollId], j))
      && s'.polls[pollId].voters == s.polls[pollId].voters + [caller]
      && s'.polls[pollId].id == s.polls[pollId].id
      && s'.polls[pollId].question == s.polls[pollId].question
      && (forall j: OptionNo :: OptionText(s'.polls[pollId], j) == OptionText(s.polls[pollId], j))
  {
  }

  /** Voting keeps the invariant. */
  lemma VoteKeepsInv(s: Registry, k: OptionNo, pollId: nat, caller: Address)
    requires Inv(s)
    ensures Inv(AfterVote(s, k, pollId, caller))
  {
  }

  /** Once a vote by `caller` succeeds, the next vote by the same caller on that poll is refused (any later one: `VotedIsTerminal`). */
  lemma SecondVoteRejected(s: Registry, k: OptionNo, k': OptionNo, pollId: nat, caller: Address)
    requires CastVote(s, k, pollId, caller).Success?
    ensures CastVote(CastVote(s, k, pollId, caller).value, k', pollId, caller) == Failure(AlreadyVoted)
  {
    var p' := CastVote(s, k, pollId, caller).value.polls[pollId];
    assert p'.voters[|p'.voters| - 1] == caller;
  }

  /** Voting leaves (sum of the five counters - number of voters) unchanged for every poll. */
  lemma VoteKeepsBalance(s: Registry, k: OptionNo, pollId: nat, caller: Address, q: nat)
    requires q in s.polls
    ensures q in AfterVote(s, k, pollId, caller).polls
    ensures Balance(AfterVote(s, k, pollId, caller).polls[q]) == Balance(s.polls[q])
  {
  }

  /** A successful vote never introduces a duplicate voter. */
  lemma VoteKeepsVotersDistinct(s: Registry, k: OptionNo, pollId: nat, caller: Address)
    requires pollId in s.polls && Distinct(s.polls[pollId].voters)
    ensures pollId in AfterVote(s, k, pollId, caller).polls
    ensures Distinct(AfterVote(s, k, pollId, caller).polls[pollId].voters)
  {
    var r := CastVote(s, k, pollId, caller);
    if r.Success? {
      var old_ := s.polls[pollId].voters;
      var new_ := r.value.polls[pollId].voters;
      assert new_ == old_ + [caller];
      forall i, j | 0 <= i < j < |new_| ensures new_[i] != new_[j] {
        if j == |old_| {
          assert new_[i] == old_[i];
        }
      }
    }
  }

  // ---------------------------------------------------------------------
  // Sequences of calls

  /** One application call the registry can receive. */
  datatype Call =
    | CreatePollCall(pollData: PollData)
    | VoteCall(option: OptionNo, pollId: nat, caller: Address)

  /** The effect of one call; a failing vote leaves the state as it was. */
  function Step(s: Registry, c: Call): Registry
  {
    match c
    case CreatePollCall(d) => Create(s, d)
    case VoteCall(k, id, who) => AfterVote(s, k, id, who)
  }

  function Run(s: Registry, cs: seq<Call>): Registry
    decreases |cs|
  {
    if cs == [] then s else Run(Step(s, cs[0]), cs[1..])
  }

  /** Only blank records are submitted for creation. */
  predicate CreatesBlank(cs: seq<Call>)
  {
    forall i :: 0 <= i < |cs| ==> cs[i].CreatePollCall? ==> Blank(cs[i].pollData)
  }

  predicate AllTallied(s: Registry)
  {
    forall q :: q in s.polls ==> Tallied(s.polls[q])
  }

  /** One call keeps the registry invariant. */
  lemma StepKeepsInv(s: Registry, c: Call)
    requires Inv(s)
    ensures Inv(Step(s, c))
  {
    match c
    case CreatePollCall(d) => CreateKeepsInv(s, d);
    case VoteCall(k, id, who) => VoteKeepsInv(s, k, id, who);
  }

  /** Every sequence of calls keeps the registry invariant. */
  lemma {:induction false} RunKeepsInv(s: Registry, cs: seq<Call>)
    requires Inv(s)
    ensures Inv(Run(s, cs))
    decreases |cs|
  {
    if cs != [] {
      StepKeepsInv(s, cs[0]);
      RunKeepsInv(Step(s, cs[0]), cs[1..]);
    }
  }

  /** One call keeps every poll tallied, provided a created record is blank. */
  lemma StepKeepsTallied(s: Registry, c: Call)
    requires AllTallied(s)
    requires c.CreatePollCall? ==> Blank(c.pollData)
    ensures AllTallied(Step(s, c))
  {
    match c
    case CreatePollCall(d) =>
    case VoteCall(k, id, who) =>
      var s' := Step(s, c);
      forall q | q in s'.polls ensures Tallied(s'.polls[q]) {
        VoteKeepsBalance(s, k, id, who, q);
        if q == id {
          VoteKeepsVotersDistinct(s, k, id, who);
        }
      }
  }

  /**
   * Starting from the deployed state, as long as clients create polls with
   * zero counters and no voters, every poll's total vote count equals its
   * number of voters and no address appears twice among its voters.
   */
  lemma {:induction false} RunKeepsTallied(s: Registry, cs: seq<Call>)
    requires AllTallied(s) && CreatesBlank(cs)
    ensures AllTallied(Run(s, cs))
    decreases |cs|
  {
    if cs != [] {
      StepKeepsTallied(s, cs[0]);
      assert CreatesBlank(cs[1..]) by {
        forall i | 0 <= i < |cs[1..]| ensures cs[1..][i].CreatePollCall? ==> Blank(cs[1..][i].pollData) {
          assert cs[1..][i] == cs[i + 1];
        }
      }
      RunKeepsTallied(Step(s, cs[0]), cs[1..]);
    }
  }

  /** The consequence for a deployed contract. */
  lemma DeployedPollsStayTallied(cs: seq<Call>, q: nat)
    requires CreatesBlank(cs)
    requires q in Run(Init(), cs).polls
    ensures TotalVotes(Run(Init(), cs).polls[q]) == |Run(Init(), cs).polls[q].voters|
  {
    RunKeepsTallied(Init(), cs);
  }

  /** One call keeps a tallied poll tallied, whatever a creation submits, as creations never overwrite. */
  lemma StepKeepsPollTallied(s: Registry, c: Call, q: nat)
    requires Inv(s) && q in s.polls && Tallied(s.polls[q])
    ensures q in Step(s, c).polls && Tallied(Step(s, c).polls[q])
  {
    match c
    case CreatePollCall(d) => CreateNeverOverwrites(s, d);
    case VoteCall(k, id, who) =>
      VoteKeepsBalance(s, k, id, who, q);
      if q == id {
        VoteKeepsVotersDistinct(s, k, id, who);
      }
  }

  /** A tallied poll stays tallied through any sequence of calls, including creations of arbitrary records. */
  lemma {:induction false} RunKeepsPollTallied(s: Registry, cs: seq<Call>, q: nat)
    requires Inv(s) && q in s.polls && Tallied(s.polls[q])
    ensures q in Run(s, cs).polls && Tallied(Run(s, cs).polls[q])
    decreases |cs|
  {
    if cs != [] {
      StepKeepsPollTallied(s, cs[0], q);
      StepKeepsInv(s, cs[0]);
      RunKeepsPollTallied(Step(s, cs[0]), cs[1..], q);
    }
  }

  /**
   * A poll created blank keeps its total vote count equal to its number of
   * voters, whatever is sent to the registry afterwards.
   */
  lemma BlankPollStaysTallied(s: Registry, d: PollData, cs: seq<Call>)
    requires Inv(s) && Blank(d)
    ensures var s' := Run(Create(s, d), cs);
      && s.nextPollId in s'.polls
      && TotalVotes(s'.polls[s.nextPollId]) == |s'.polls[s.nextPollId].voters|
  {
    CreateKeepsInv(s, d);
    CreateNeverOverwrites(s, d);
    RunKeepsPollTallied(Create(s, d), cs, s.nextPollId);
  }

  /** One call never removes a voter from a poll. */
  lemma StepKeepsVoter(s: Registry, c: Call, q: nat, a: Address)
    requires Inv(s) && q in s.polls && a in s.polls[q].voters
    ensures q in Step(s, c).polls && a in Step(s, c).polls[q].voters
  {
    match c
    case CreatePollCall(d) => CreateNeverOverwrites(s, d);
    case VoteCall(k, id, who) =>
  }

  /** A voter of a poll stays a voter of it through any sequence of calls. */
  lemma {:induction false} RunKeepsVoter(s: Registry, cs: seq<Call>, q: nat, a: Address)
    requires Inv(s) && q in s.polls && a in s.polls[q].voters
    ensures q in Run(s, cs).polls && a in Run(s, cs).polls[q].voters
    decreases |cs|
  {
    if cs != [] {
      StepKeepsVoter(s, cs[0], q, a);
      StepKeepsInv(s, cs[0]);
      RunKeepsVoter(Step(s, cs[0]), cs[1..], q, a);
    }
  }

  /** Having voted is final: after a successful vote, every later vote by that caller on that poll is refused. */
  lemma VotedIsTerminal(s: Registry, k: OptionNo, k': OptionNo, pollId: nat, a: Address, cs: seq<Call>)
    requires Inv(s) && CastVote(s, k, pollId, a).Success?
    ensures CastVote(Run(CastVote(s, k, pollId, a).value, cs), k', pollId, a) == Failure(AlreadyVoted)
  {
    var s1 := CastVote(s, k, pollId, a).value;
    VoteKeepsInv(s, k, pollId, a);
    assert s1 == AfterVote(s, k, pollId, a);
    assert a in s1.polls[pollId].voters by {
      var p' := s1.polls[pollId];
      assert p'.voters[|p'.voters| - 1] == a;
    }
    RunKeepsVoter(s1, cs, pollId, a);
  }

  // ---------------------------------------------------------------------
  // The contract object

  class PollManager {
    var polls: map<nat, PollData>
    var nextPollId: nat

    function State(): Registry
      reads this
    {
      Registry(polls, nextPollId)
    }

    ghost predicate Valid()
      reads this
    {
      Inv(State())
    }

    /** `__init__`: an empty registry whose first id is 1. */
    constructor ()
      ensures Valid()
      ensures State() == Init()
    {
      polls := map[];
      nextPollId := 1;
    }

    /** `create_poll`. */
    method CreatePoll(pollData: PollData)
      requires Valid()
      modifies this
      ensures Valid()
      ensures State() == Create(old(State()), pollData)
      ensures old(nextPollId) !in old(polls)
      ensures forall q :: q in old(polls) ==> q in polls && polls[q] == old(polls)[q]
      ensures polls[old(nextPollId)] == pollData.(id := old(nextPollId))
      ensures nextPollId == old(nextPollId) + 1
    {
      CreateNeverOverwrites(State(), pollData);
      CreateKeepsInv(State(), pollData);
      var stamped := pollData.(id := nextPollId);
      polls := polls[nextPollId := stamped];
      nextPollId := nextPollId + 1;
    }

    /**
     * `did_vote`: a linear search of the poll's voters with a found flag.
     * Reading a poll that does not exist fails. Changes nothing.
     */
    method DidVote(pollId: nat, caller: Address) returns (r: Result<bool, ContractError>)
      ensures r.Failure? <==> pollId !in polls
      ensures r.Failure? ==> r.error == PollNotFound
      ensures r.Success? ==> (r.value <==> caller in polls[pollId].voters)
    {
      if pollId !in polls {
        return Failure(PollNotFound);
      }
      var voters := polls[pollId].voters;
      var found := false;
      var i := 0;
      while i < |voters|
        invariant 0 <= i <= |voters|
        invariant !found
        invariant caller !in voters[..i]
      {
        if caller == voters[i] {
          found := true;
          break;
        }
        i := i + 1;
      }
      assert !found ==> voters[..i] == voters;
      return Success(found);
    }

    /** Increments the k-th counter of an existing poll in place and appends the caller to its voters. */
    method Tally(k: OptionNo, pollId: nat, caller: Address)
      requires pollId in polls
      modifies this
      ensures nextPollId == old(nextPollId)
      ensures polls == old(polls)[pollId := RecordVote(old(polls)[pollId], k, caller)]
    {
      var p := polls[pollId];
      match k {
        case 1 => p := p.(option1Votes := p.option1Votes + 1);
        case 2 => p := p.(option2Votes := p.option2Votes + 1);
        case 3 => p := p.(option3Votes := p.option3Votes + 1);
        case 4 => p := p.(option4Votes := p.option4Votes + 1);
        case 5 => p := p.(option5Votes := p.option5Votes + 1);
      }
      polls := polls[pollId := p];
      p := polls[pollId];
      polls := polls[pollId := p.(voters := p.voters + [caller])];
    }

    /** The body shared by the five vote methods; `k >= 3` runs the option-existence check. */
    method Vote(k: OptionNo, pollId: nat, caller: Address) returns (r: Outcome<ContractError>)
      requires Valid()
      modifies this
      ensures Valid()
      ensures r == VoteOutcome(old(State()), k, pollId, caller)
      ensures State() == AfterVote(old(State()), k, pollId, caller)
      ensures r.Fail? ==> polls == old(polls) && nextPollId == old(nextPollId)
    {
      var voted := DidVote(pollId, caller);
      if voted.Failure? {
        return Fail(voted.error);
      }
      if voted.value {
        return Fail(AlreadyVoted);
      }
      if k >= 3 && OptionText(polls[pollId], k) == "" {
        return Fail(OptionDoesNotExist);
      }
      ghost var before := State();
      Tally(k, pollId, caller);
      VoteKeepsInv(before, k, pollId, caller);
      r := Pass;
    }

    method VoteOption1(pollId: nat, caller: Address) returns (r: Outcome<ContractError>)
      requires Valid()
      modifies this
      ensures Valid()
      ensures r == VoteOutcome(old(State()), 1, pollId, caller)
      ensures State() == AfterVote(old(State()), 1, pollId, caller)
    {
      r := Vote(1, pollId, caller);
    }

    method VoteOption2(pollId: nat, caller: Address) returns (r: Outcome<ContractError>)
      requires Valid()
      modifies this
      ensures Valid()
      ensures r == VoteOutcome(old(State()), 2, pollId, caller)
      ensures State() == AfterVote(old(State()), 2, pollId, caller)
    {
      r := Vote(2, pollId, caller);
    }

    method VoteOption3(pollId: nat, caller: Address) returns (r: Outcome<ContractError>)
      requires Valid()
      modifies this
      ensures Valid()
      ensures r == VoteOutcome(old(State()), 3, pollId, caller)
      ensures State() == AfterVote(old(State()), 3, pollId, caller)
    {
      r := Vote(3, pollId, caller);
    }

    method VoteOption4(pollId: nat, caller: Address) returns (r: Outcome<ContractError>)
      requires Valid()
      modifies this
      ensures Valid()
      ensures r == VoteOutcome(old(State()), 4, pollId, caller)
      ensures State() == AfterVote(old(State()), 4, pollId, caller)
    {
      r := Vote(4, pollId, caller);
    }

    method VoteOption5(pollId: nat, caller: Address) returns (r: Outcome<ContractError>)
      requires Valid()
      modifies this
      ensures Valid()
      ensures r == VoteOutcome(old(State()), 5, pollId, caller)
      ensures State() == AfterVote(old(State()), 5, pollId, caller)
    {
      r := Vote(5, pollId, caller);
    }
  }
}
