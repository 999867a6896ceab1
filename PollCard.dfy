/**
 * One poll's card (PollCard.tsx), in the older poll shape it is written
 * for: a list of options, a total vote count and the id of the option the
 * viewer voted for, if any.
 */
module PollCard {
  import opened Wrappers

  datatype CardOption = CardOption(id: string, text: string, votes: nat)

  datatype CardPoll = CardPoll(
    id: string,
    question: string,
    options: seq<CardOption>,
    totalVotes: nat,
    votedOptionId: Option<string>)

  /** `hasVoted`: the viewer's voted option is not null. */
  predicate HasVoted(poll: CardPoll)
  {
    poll.votedOptionId.Some?
  }

  /**
   * `getPercentage`: 0 when nobody voted, otherwise
   * `Math.round(votes / totalVotes * 100)` in exact arithmetic;
   * `Math.round` rounds halves up, i.e. floor(x + 1/2).
   */
  function GetPercentage(votes: nat, totalVotes: nat): (r: nat)
    ensures totalVotes == 0 ==> r == 0
    // r is the integer nearest to 100 * votes / totalVotes, halves going up:
    // r - 1/2 <= 100 * votes / totalVotes < r + 1/2
    ensures totalVotes > 0 ==>
      2 * r * totalVotes <= 200 * votes + totalVotes < 2 * r * totalVotes + 2 * totalVotes
  {
    if totalVotes == 0 then 0
    else
      var n := 200 * votes + totalVotes;
      var d := 2 * totalVotes;
      DivBounds(n, d);
      n / d
  }

  lemma DivBounds(n: nat, d: nat)
    requires d > 0
    ensures (n / d) * d <= n < (n / d) * d + d
  {
  }

  /** The rounding condition in `GetPercentage`'s contract has exactly one solution. */
  lemma {:induction false} PercentageIsUnique(votes: nat, totalVotes: nat, r': int)
    requires totalVotes > 0
    requires 2 * r' * totalVotes <= 200 * votes + totalVotes < 2 * r' * totalVotes + 2 * totalVotes
    ensures r' == GetPercentage(votes, totalVotes)
  {
    var r := GetPercentage(votes, totalVotes);
    var t := totalVotes;
    if r' < r {
      assert (r' + 1) * (2 * t) <= r * (2 * t) by {
        MulMono(r' + 1, r, 2 * t);
      }
    } else if r' > r {
      assert (r + 1) * (2 * t) <= r' * (2 * t) by {
        MulMono(r + 1, r', 2 * t);
      }
    }
  }

  lemma MulMono(a: int, b: int, c: nat)
    requires a <= b
    ensures a * c <= b * c
  {
  }

  /** A share of the votes lies in 0..100, and all of the votes is exactly 100. */
  lemma PercentageBounds(votes: nat, totalVotes: nat)
    requires votes <= totalVotes
    ensures 0 <= GetPercentage(votes, totalVotes) <= 100
    ensures votes == totalVotes > 0 ==> GetPercentage(votes, totalVotes) == 100
  {
    if totalVotes > 0 {
      var r := GetPercentage(votes, totalVotes);
      var t := totalVotes;
      if r > 100 {
        MulMono(101, r, 2 * t);
        MulMono(votes, t, 200);
      }
      if votes == t {
        PercentageIsUnique(votes, t, 100);
      }
    }
  }

  /** Worked values: a quarter, and halves that round up. */
  lemma PercentageExamples()
    ensures GetPercentage(0, 0) == 0
    ensures GetPercentage(25, 100) == 25
    ensures GetPercentage(1, 8) == 13
    ensures GetPercentage(1, 3) == 33
    ensures GetPercentage(2, 3) == 67
  {
  }

  /** The `onVote(poll.id, selectedOption)` call `handleVote` makes. */
  datatype OnVoteCall = OnVoteCall(pollId: string, optionId: string)

  /** The card's component state: the poll it shows and the option the viewer picked. */
  class PollCardView {
    const poll: CardPoll
    var selectedOption: Option<string>

    /** A selection is always the id of one of the poll's options. */
    ghost predicate Valid()
      reads this
    {
      selectedOption.Some? ==>
        exists i :: 0 <= i < |poll.options| && poll.options[i].id == selectedOption.value
    }

    constructor (poll: CardPoll)
      ensures Valid()
      ensures this.poll == poll && selectedOption == None
    {
      this.poll := poll;
      selectedOption := None;
    }

    /** Clicking the option button at position `i`; the buttons are shown only before the viewer has voted. */
    method SelectOption(i: nat)
      requires Valid() && !HasVoted(poll) && i < |poll.options|
      modifies this`selectedOption
      ensures Valid()
      ensures selectedOption == Some(poll.options[i].id)
    {
      selectedOption := Some(poll.options[i].id);
    }

    /**
     * `handleVote`: calls `onVote` with the poll id and the selection when a
     * selection is present and truthy (not the empty string) and the viewer
     * has not voted; otherwise does nothing. Changes no state.
     */
    method HandleVote() returns (call: Option<OnVoteCall>)
      requires Valid()
      ensures call.Some? <==> selectedOption.Some? && selectedOption.value != "" && !HasVoted(poll)
      ensures call.Some? ==> call.value.pollId == poll.id
      ensures call.Some? ==> exists i :: 0 <= i < |poll.options| && poll.options[i].id == call.value.optionId
      ensures call.Some? ==> call.value.optionId == selectedOption.value
    {
      if selectedOption.Some? && selectedOption.value != "" && !HasVoted(poll) {
        call := Some(OnVoteCall(poll.id, selectedOption.value));
      } else {
        call := None;
      }
    }
  }
}
