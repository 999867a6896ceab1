/**
 * The client-side poll manager hook (usePollManager.ts) with the poll store it
 * writes to (the React context's `polls` and `isFetchingPolls`).
 *
 * The generated contract client is not modelled: what a remote call returns
 * is a parameter, and what the hook would send is a returned value.
 */
module UsePollManager {
  import opened Wrappers
  import opened Seqs
  import opened PollContract

  // ---------------------------------------------------------------------
  // Sorting fetched polls, newest (largest id) first

  predicate SortedByIdDesc(s: seq<PollData>)
  {
    forall i, j :: 0 <= i < j < |s| ==> s[i].id >= s[j].id
  }

  predicate StrictlyDescendingIds(s: seq<PollData>)
  {
    forall i, j :: 0 <= i < j < |s| ==> s[i].id > s[j].id
  }

  predicate DistinctIds(s: seq<PollData>)
  {
    forall i, j :: 0 <= i < j < |s| ==> s[i].id != s[j].id
  }

  /** Places `p` before the first element whose id is not larger, so equal ids keep their order. */
  function Insert(p: PollData, s: seq<PollData>): (r: seq<PollData>)
    ensures multiset(r) == multiset(s) + multiset{p}
    ensures |r| == |s| + 1
  {
    if s == [] || s[0].id <= p.id then [p] + s
    else
      assert s == [s[0]] + s[1..];
      [s[0]] + Insert(p, s[1..])
  }

  /** Inserting into a list sorted newest first keeps it sorted. */
  lemma {:induction false} InsertKeepsSorted(p: PollData, s: seq<PollData>)
    requires SortedByIdDesc(s)
    ensures SortedByIdDesc(Insert(p, s))
  {
    if !(s == [] || s[0].id <= p.id) {
      var rest := Insert(p, s[1..]);
      InsertKeepsSorted(p, s[1..]);
      assert s == [s[0]] + s[1..];
      BoundedAfterInsert(s[0].id, p, s[1..], rest);
      assert Insert(p, s) == [s[0]] + rest;
    }
  }

  /** Every element of a permutation of `s + [p]` has an id at most `bound` when `p` and `s` do. */
  lemma BoundedAfterInsert(bound: nat, p: PollData, s: seq<PollData>, rest: seq<PollData>)
    requires p.id <= bound && forall i :: 0 <= i < |s| ==> s[i].id <= bound
    requires multiset(rest) == multiset(s) + multiset{p}
    ensures forall i :: 0 <= i < |rest| ==> rest[i].id <= bound
  {
    forall i | 0 <= i < |rest| ensures rest[i].id <= bound {
      assert rest[i] in multiset(rest);
      if rest[i] != p {
        assert rest[i] in multiset(s);
      }
    }
  }

  /**
   * `.sort((a, b) => Number(b.id) - Number(a.id))`: the same records,
   * ordered by id from largest to smallest.
   */
  function SortByIdDesc(s: seq<PollData>): (r: seq<PollData>)
    ensures SortedByIdDesc(r)
    ensures multiset(r) == multiset(s)
    ensures |r| == |s|
  {
    if s == [] then []
    else
      assert s == [s[0]] + s[1..];
      var sortedRest := SortByIdDesc(s[1..]);
      InsertKeepsSorted(s[0], sortedRest);
      Insert(s[0], sortedRest)
  }

  /** Two positions of a sequence with the same multiset hold elements of the other sequence. */
  lemma {:induction false} ElementsComeFrom(s: seq<PollData>, r: seq<PollData>, i: nat)
    requires multiset(r) == multiset(s) && i < |r|
    ensures r[i] in s
  {
    assert r[i] in multiset(r);
  }

  /** Distinct ids survive any reordering. */
  lemma PermutationKeepsDistinctIds(s: seq<PollData>, r: seq<PollData>)
    requires multiset(r) == multiset(s) && DistinctIds(s)
    ensures DistinctIds(r)
  {
    forall i, j | 0 <= i < j < |r| ensures r[i].id != r[j].id {
      if r[i].id == r[j].id {
        ElementsComeFrom(s, r, i);
        ElementsComeFrom(s, r, j);
        var i' :| 0 <= i' < |s| && s[i'] == r[i];
        var j' :| 0 <= j' < |s| && s[j'] == r[j];
        if i' == j' {
          // r[i] == r[j] occur twice in r, hence twice in s
          assert r[i] == r[j];
          assert multiset(r)[r[i]] >= 2 by {
            var r1 := r[..j];
            assert r == r1 + r[j..];
            assert r[i] in r1;
            assert r[j] in r[j..];
          }
          assert multiset(s)[s[i']] >= 2;
          OnceOnly(s, i');
        }
      }
    }
  }

  /** In a sequence with distinct ids, every element occurs exactly once. */
  lemma OnceOnly(s: seq<PollData>, k: nat)
    requires DistinctIds(s) && k < |s|
    ensures multiset(s)[s[k]] == 1
  {
    var x := s[k];
    assert s == s[..k] + [x] + s[k + 1..];
    NotIn(s[..k], x, s, 0);
    NotIn(s[k + 1..], x, s, k + 1);
  }

  lemma NotIn(part: seq<PollData>, x: PollData, s: seq<PollData>, offset: nat)
    requires DistinctIds(s) && offset + |part| <= |s|
    requires part == s[offset..offset + |part|]
    requires exists k :: 0 <= k < |s| && s[k] == x && !(offset <= k < offset + |part|)
    ensures multiset(part)[x] == 0
  {
    var k :| 0 <= k < |s| && s[k] == x && !(offset <= k < offset + |part|);
  }

  /** With distinct ids, the sorted list is strictly newest first. */
  lemma SortedDistinctIsStrict(s: seq<PollData>)
    requires DistinctIds(s)
    ensures StrictlyDescendingIds(SortByIdDesc(s))
  {
    PermutationKeepsDistinctIds(s, SortByIdDesc(s));
  }

  // ---------------------------------------------------------------------
  // The store and fetchPolls

  /** An error raised by the contract client. */
  datatype ClientError = ClientError(message: string)

  /** What the awaited client calls in `fetchPolls` produce. */
  datatype FetchResponse =
    | Threw(error: ClientError)         // `getAppClient` or `getMap` rejected
    | NoResponse                        // `getMap` resolved to a falsy value
    | Fetched(values: seq<PollData>)    // the map's values, in the map's iteration order

  class PollStore {
    var polls: seq<PollData>
    var isFetchingPolls: bool

    /** The store only ever holds polls newest first. */
    ghost predicate Valid()
      reads this
    {
      SortedByIdDesc(polls)
    }

    constructor ()
      ensures Valid()
      ensures polls == [] && !isFetchingPolls
    {
      polls := [];
      isFetchingPolls := false;
    }

    /**
     * `fetchPolls`: raise the fetching flag, then either rethrow the client's
     * error, stop on a missing response, or store the fetched records sorted
     * by id; the `finally` part lowers the flag on every path.
     */
    method FetchPolls(response: FetchResponse) returns (r: Outcome<ClientError>)
      requires Valid()
      modifies this
      ensures Valid()
      ensures !isFetchingPolls
      ensures response.Threw? ==> r == Fail(response.error) && polls == old(polls)
      ensures response.NoResponse? ==> r == Pass && polls == old(polls)
      ensures response.Fetched? ==>
        && r == Pass
        && polls == SortByIdDesc(response.values)
        && SortedByIdDesc(polls)
        && multiset(polls) == multiset(response.values)
    {
      isFetchingPolls := true;
      match response {
        case Threw(e) =>
          r := Fail(e);
        case NoResponse =>
          isFetchingPolls := false;
          r := Pass;
        case Fetched(values) =>
          var newPolls := SortByIdDesc(values);
          polls := newPolls;
          r := Pass;
      }
      isFetchingPolls := false;
    }
  }

  /**
   * The records of a registry listed one per key, as a box-map read returns
   * them: `keys` holds every key once, `values[i]` is the record under `keys[i]`.
   */
  ghost predicate ListsRegistry(s: Registry, keys: seq<nat>, values: seq<PollData>)
  {
    && |keys| == |values| == |s.polls|
    && Distinct(keys)
    && (forall i :: 0 <= i < |keys| ==> keys[i] in s.polls && values[i] == s.polls[keys[i]])
  }

  /** Fetching a well-formed registry leaves the store strictly newest first. */
  lemma FetchedRegistryIsStrictlyNewestFirst(s: Registry, keys: seq<nat>, values: seq<PollData>)
    requires Inv(s) && ListsRegistry(s, keys, values)
    ensures StrictlyDescendingIds(SortByIdDesc(values))
  {
    assert DistinctIds(values) by {
      forall i, j | 0 <= i < j < |values| ensures values[i].id != values[j].id {
        assert values[i].id == keys[i] && values[j].id == keys[j];
      }
    }
    SortedDistinctIsStrict(values);
  }

  /**
   * A newly created poll is listed first after the next fetch: under the
   * registry invariant its id is larger than every other.
   */
  lemma CreatedPollListedFirst(s: Registry, d: PollData, keys: seq<nat>, values: seq<PollData>)
    requires Inv(s)
    requires ListsRegistry(Step(s, CreatePoll(d)), keys, values)
    ensures |SortByIdDesc(values)| > 0
    ensures SortByIdDesc(values)[0] == d.(id := s.nextPollId)
  {
    var s' := Create(s, d);
    assert Step(s, CreatePoll(d)) == s';
    CreateKeepsInv(s, d);
    CreateNeverOverwrites(s, d);
    var sorted := SortByIdDesc(values);
    var created := d.(id := s.nextPollId);
    FetchedRegistryIsStrictlyNewestFirst(s', keys, values);
    assert s.nextPollId in s'.polls;
    assert created in values by {
      var i :| 0 <= i < |keys| && keys[i] == s.nextPollId by {
        KeyListed(s', keys, values, s.nextPollId);
      }
    }
    assert created in multiset(sorted);
    var m :| 0 <= m < |sorted| && sorted[m] == created;
    ElementsComeFrom(values, sorted, 0);
    var i :| 0 <= i < |values| && values[i] == sorted[0];
    assert sorted[0].id == keys[i] && keys[i] in s'.polls;
  }

  /** Every key of the registry appears in the listing. */
  lemma KeyListed(s: Registry, keys: seq<nat>, values: seq<PollData>, q: nat)
    requires ListsRegistry(s, keys, values) && q in s.polls
    ensures exists i :: 0 <= i < |keys| && keys[i] == q
  {
    if q !in keys {
      assert Elements(keys) <= s.polls.Keys - {q};
      DistinctIffCardinality(keys);
      assert |s.polls.Keys - {q}| == |s.polls| - 1;
      SubsetSize(Elements(keys), s.polls.Keys - {q});
    }
  }

  lemma SubsetSize<T>(a: set<T>, b: set<T>)
    requires a <= b
    ensures |a| <= |b|
  {
    assert b == a + (b - a);
  }

  // ---------------------------------------------------------------------
  // vote and createPoll

  /** The five per-option vote methods of the generated client. */
  datatype VoteMethod = VoteOption_1 | VoteOption_2 | VoteOption_3 | VoteOption_4 | VoteOption_5

  /** The contract option each client method votes for. */
  function OptionOf(m: VoteMethod): OptionNo
  {
    match m
    case VoteOption_1 => 1
    case VoteOption_2 => 2
    case VoteOption_3 => 3
    case VoteOption_4 => 4
    case VoteOption_5 => 5
  }

  /** A vote call as the hook sends it. */
  datatype VoteRequest = VoteRequest(target: VoteMethod, pollId: nat, caller: Address)

  datatype VoteError = InvalidOption

  /** The `switch` in `vote`. */
  function MethodFor(option: int): (r: Result<VoteMethod, VoteError>)
    ensures r.Success? <==> 1 <= option <= 5
    ensures r.Success? ==> OptionOf(r.value) == option
    ensures r.Failure? ==> r.error == InvalidOption
  {
    match option
    case 1 => Success(VoteOption_1)
    case 2 => Success(VoteOption_2)
    case 3 => Success(VoteOption_3)
    case 4 => Success(VoteOption_4)
    case 5 => Success(VoteOption_5)
    case _ => Failure(InvalidOption)
  }

  /** `vote(pollId, option)`: pick the method, then call it with the active address or "". */
  function Vote(pollId: nat, option: int, activeAddress: Option<Address>): (r: Result<VoteRequest, VoteError>)
    ensures r.Success? <==> 1 <= option <= 5
    ensures r.Success? ==> OptionOf(r.value.target) == option && r.value.pollId == pollId
  {
    match MethodFor(option)
    case Failure(e) => Failure(e)
    case Success(m) =>
      Success(VoteRequest(m, pollId, match activeAddress case Some(a) => a case None => ""))
  }

  /**
   * `vote` sends exactly one call, to the method for `option`, when `option`
   * is 1..5, and otherwise fails with "Invalid option" before sending anything.
   */
  lemma VoteDispatch(pollId: nat, option: int, activeAddress: Option<Address>)
    ensures Vote(pollId, option, activeAddress).Success? <==> 1 <= option <= 5
    ensures Vote(pollId, option, activeAddress).Failure? ==> Vote(pollId, option, activeAddress).error == InvalidOption
    ensures Vote(pollId, option, activeAddress).Success? ==>
      var req := Vote(pollId, option, activeAddress).value;
      && OptionOf(req.target) == option
      && req.pollId == pollId
      && req.caller == (if activeAddress.Some? then activeAddress.value else "")
  {
  }

  /** Different options never reach the same client method. */
  lemma MethodForInjective(a: int, b: int)
    requires MethodFor(a).Success? && MethodFor(b).Success?
    requires MethodFor(a).value == MethodFor(b).value
    ensures a == b
  {
  }

  /** The contract call a vote request performs. */
  function ToContractCall(req: VoteRequest): Call
  {
    VoteCall(OptionOf(req.target), req.pollId, req.caller)
  }

  /** `createPoll(pollData)` forwards the record unchanged as one `create_poll` call. */
  function CreatePoll(pollData: PollData): (c: Call)
    ensures c.CreatePollCall? && c.pollData == pollData
  {
    CreatePollCall(pollData)
  }

  /**
   * End to end: `vote(p, k)` by address `a` on an existing poll that `a` has not
   * voted in, for an option the contract accepts, records `a` and bumps option
   * k's counter; the same vote sent again is refused with "Already voted" and
   * changes nothing.
   */
  lemma VoteThenRevote(s: Registry, pollId: nat, k: OptionNo, a: Address)
    requires pollId in s.polls && a !in s.polls[pollId].voters
    requires k <= 2 || OptionText(s.polls[pollId], k) != ""
    ensures var c := ToContractCall(Vote(pollId, k, Some(a)).value);
      var s1 := Step(s, c);
      && a in s1.polls[pollId].voters
      && VotesFor(s1.polls[pollId], k) == VotesFor(s.polls[pollId], k) + 1
      && CastVote(s1, k, pollId, a) == Failure(AlreadyVoted)
      && Step(s1, c) == s1
  {
    VoteDispatch(pollId, k, Some(a));
    var c := ToContractCall(Vote(pollId, k, Some(a)).value);
    assert c == VoteCall(k, pollId, a);
    VoteChangesOnlyItsPoll(s, k, pollId, a);
    SecondVoteRejected(s, k, k, pollId, a);
  }
}
