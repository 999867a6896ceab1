# Algorand polls dApp: a Dafny model of the poll registry and its client rules

This project models the core of a small polling application on Algorand.

- **The on-chain registry** (`PollManager`, contract.py). It keeps a box map from poll id to a `PollData` record and a `next_poll_id` counter. `create_poll` stores a record under a fresh id. `vote_option_1` .. `vote_option_5` record one vote. `did_vote` searches a poll's voter list.
- **The create-poll form** (CreatePage.tsx). It covers the option-list edits, the validity rules, the error messages and the argument shaping of a submission.
- **The client hook** (usePollManager.ts). This is `fetchPolls` with the poll store it fills, the option-to-method dispatch of `vote`, and the pass-through `createPoll`.
- **The poll card** (PollCard.tsx). It covers the vote-share percentage, `hasVoted`, option selection and the `handleVote` guard.

## Files and modules

- `Wrappers.dfy`: `Option`, `Result`, `Outcome`.
- `Seqs.dfy`: the elements of a sequence as a set, `Distinct`, and the fact that a set built from a sequence has the sequence's length exactly when the sequence has no duplicates.
- `JsText.dfy`: JavaScript `trim` and `toLowerCase`, restricted to ASCII.
- `PollContract.dfy`: the contract.
  - `Registry` is the pure state. `Create`, `CastVote`, `Step` and `Run` are the transitions. `Inv` is the registry invariant. Lemmas state what each call preserves.
  - The class `PollManager` has the contract's two fields (`polls: map<nat, PollData>`, `nextPollId: nat`). Each of its methods ties the new state to the pure transition.
- `CreatePage.dfy`: the form as the class `CreateForm` over its component state, plus pure validity functions and lemmas.
- `UsePollManager.dfy`: the store as the class `PollStore`, the id sort, the vote dispatch, and end-to-end lemmas that join the hook to the contract model.
- `PollCard.dfy`: `GetPercentage` with exact round-half-up, and the class `PollCardView` holding the selection.

## Modelling decisions

- **Failing calls.** A failing `assert` aborts the whole application call. So a failing call returns an error and leaves the state unchanged.
- **Order of checks.** A vote on a poll id with no box fails when the box is read (`PollNotFound`; the source gives no message). Then comes "Already voted". Then, for options 3..5 only, "Option doesn't exist in this poll". Options 1 and 2 have no existence check.
- **The caller.** `caller` is an argument of the vote methods, not the transaction sender, so the model takes it as input.
- **What `create_poll` does not check.** It does not check the submitted record: counters and voters may be anything. So "total votes = number of voters" and "no duplicate voter" are not registry invariants. What is proved:
  - every vote keeps (sum of counters − number of voters) and keeps the voters distinct;
  - a poll that is tallied stays tallied through any later calls, whatever other creations submit, because a creation never overwrites an existing key (`RunKeepsPollTallied`, `BlankPollStaysTallied`);
  - from deployment, if every created record is blank, every poll stays tallied (`RunKeepsTallied`, `DeployedPollsStayTallied`);
  - a caller who has voted on a poll stays among its voters, so every later vote by that caller there is refused (`RunKeepsVoter`, `VotedIsTerminal`).
- **Async calls.** Asynchronous calls are split at their await points, and the awaited result is a parameter.
  - `CreateForm.BeginSubmit` and `CreateForm.FinishSubmit` are the two halves of `handleSubmit`. This is what makes the `isCreating` guard meaningful.
  - `PollStore.FetchPolls` takes the client's response as a `FetchResponse`.
- **The fetched response.** It is the sequence of the map's values in iteration order. The registry itself is joined to that sequence through `ListsRegistry`.
- **`fetchPolls` and empty responses (an empty `Map` is truthy, so it is not a missing response).** The code returns early only when `!response`. An empty JavaScript `Map` is truthy. So an empty response replaces the stored polls with `[]`, and only an absent response leaves them as they were. The model follows the code.
- **Sort order.** The store is sorted by id, non-increasing, as the comparator asks. It is strictly descending because registry ids are distinct (`FetchedRegistryIsStrictlyNewestFirst`). The sort (`Array.prototype.sort`) is a library call, so it is modelled as a pure insertion sort.
- **JavaScript truthiness.** `handleVote` tests `selectedOption &&`, so a selected option id `""` does not vote. `handleRemoveOption` filters by index, so an out-of-range index removes nothing.
- **The card's poll shape.** PollCard is modelled with the older poll shape it is written for (`options`, `totalVotes`, `votedOptionId`).

## Model

| member | source | states |
|---|---|---|
| PollContract.PollManager.constructor | projects/polls-dapp-contracts/smart_contracts/poll_manager/contract.py:21-23 | a new registry is empty, its next id is 1, and it satisfies the invariant |
| PollContract.InitSatisfiesInv | projects/polls-dapp-contracts/smart_contracts/poll_manager/contract.py:21-23 | the deployed state satisfies the id invariant |
| PollContract.Create | projects/polls-dapp-contracts/smart_contracts/poll_manager/contract.py:34-36 | the keys grow by exactly the old next id, which holds the record stamped with that id; every other record is kept; the next id grows by 1 |
| PollContract.PollManager.CreatePoll | projects/polls-dapp-contracts/smart_contracts/poll_manager/contract.py:29-36 | the record is stored under the old next id with its id overwritten to that key; existing polls are kept as they were; the counter grows by exactly 1; the invariant is kept |
| PollContract.CreateKeepsInv | projects/polls-dapp-contracts/smart_contracts/poll_manager/contract.py:34-36 | creating keeps every key in 1..next-1 and every record's id equal to its key |
| PollContract.CreateNeverOverwrites | projects/polls-dapp-contracts/smart_contracts/poll_manager/contract.py:34-36 | under the invariant the new key was free and above every existing key, the keys grow by exactly that key, and no existing record changes |
| PollContract.CreateIdsIncrease | projects/polls-dapp-contracts/smart_contracts/poll_manager/contract.py:34-36 | two creations in a row get consecutive ids, and the first record survives the second creation |
| PollContract.PollManager.DidVote | projects/polls-dapp-contracts/smart_contracts/poll_manager/contract.py:71-78 | the linear search returns true iff the caller is in the poll's voters; it fails iff the poll does not exist; it changes no state |
| PollContract.RecordVote | projects/polls-dapp-contracts/smart_contracts/poll_manager/contract.py:39-69 | the success path bumps only counter k by 1 and appends the caller; id, question, option texts and other counters are unchanged |
| PollContract.CastVote | projects/polls-dapp-contracts/smart_contracts/poll_manager/contract.py:39-69 | a vote succeeds iff the poll exists, the caller is not yet a voter, and the option is 1, 2 or has non-empty text; on success only that poll changes, to `RecordVote` of it, with the same keys and next id |
| PollContract.PollManager.Tally | projects/polls-dapp-contracts/smart_contracts/poll_manager/contract.py:39-69 | the in-place update of an existing poll's counter k and voter list, and nothing else |
| PollContract.PollManager.Vote | projects/polls-dapp-contracts/smart_contracts/poll_manager/contract.py:39-69 | the outcome and new state equal the pure `CastVote`; a failure leaves polls and counter unchanged; the invariant is kept |
| PollContract.PollManager.VoteOption1 | projects/polls-dapp-contracts/smart_contracts/poll_manager/contract.py:38-42 | vote for option 1 (no option-text check), as `CastVote` with k = 1 |
| PollContract.PollManager.VoteOption2 | projects/polls-dapp-contracts/smart_contracts/poll_manager/contract.py:44-48 | vote for option 2 (no option-text check), as `CastVote` with k = 2 |
| PollContract.PollManager.VoteOption3 | projects/polls-dapp-contracts/smart_contracts/poll_manager/contract.py:50-55 | vote for option 3, refused when option 3's text is empty |
| PollContract.PollManager.VoteOption4 | projects/polls-dapp-contracts/smart_contracts/poll_manager/contract.py:57-62 | vote for option 4, refused when option 4's text is empty |
| PollContract.PollManager.VoteOption5 | projects/polls-dapp-contracts/smart_contracts/poll_manager/contract.py:64-69 | vote for option 5, refused when option 5's text is empty |
| PollContract.VoteFailureCases | projects/polls-dapp-contracts/smart_contracts/poll_manager/contract.py:39-69 | each error happens exactly in its case: missing poll; caller already a voter; k >= 3 with empty option text and a new caller |
| PollContract.FirstTwoOptionsAlwaysAccepted | projects/polls-dapp-contracts/smart_contracts/poll_manager/contract.py:38-48 | options 1 and 2 succeed for any new voter on an existing poll, even if their text is empty |
| PollContract.VoteChangesOnlyItsPoll | projects/polls-dapp-contracts/smart_contracts/poll_manager/contract.py:39-69 | a successful vote changes only counter k of that poll and appends the caller; other polls, keys and next id are unchanged |
| PollContract.VoteKeepsInv | projects/polls-dapp-contracts/smart_contracts/poll_manager/contract.py:39-69 | voting, whether it succeeds or fails, keeps the registry invariant |
| PollContract.SecondVoteRejected | projects/polls-dapp-contracts/smart_contracts/poll_manager/contract.py:40-42 | after a successful vote, the next vote by the same caller on that poll, for any option, fails with "Already voted" |
| PollContract.VoteKeepsBalance | projects/polls-dapp-contracts/smart_contracts/poll_manager/contract.py:39-69 | for every poll, voting keeps (sum of the five counters − number of voters) |
| PollContract.VoteKeepsVotersDistinct | projects/polls-dapp-contracts/smart_contracts/poll_manager/contract.py:39-69 | voting never adds a duplicate to a duplicate-free voter list |
| PollContract.StepKeepsInv | projects/polls-dapp-contracts/smart_contracts/poll_manager/contract.py:29-69 | any single call keeps the registry invariant |
| PollContract.RunKeepsInv | projects/polls-dapp-contracts/smart_contracts/poll_manager/contract.py:29-69 | any sequence of calls keeps the registry invariant |
| PollContract.StepKeepsTallied | projects/polls-dapp-contracts/smart_contracts/poll_manager/contract.py:29-69 | one call keeps every poll's total equal to its distinct voter count, given a blank record on creation |
| PollContract.RunKeepsTallied | projects/polls-dapp-contracts/smart_contracts/poll_manager/contract.py:29-69 | any sequence of calls that creates only blank records keeps every poll tallied |
| PollContract.DeployedPollsStayTallied | projects/polls-dapp-contracts/smart_contracts/poll_manager/contract.py:21-69 | from deployment, with blank creations, every poll's total votes equal its number of voters |
| PollContract.StepKeepsPollTallied | projects/polls-dapp-contracts/smart_contracts/poll_manager/contract.py:29-69 | under the invariant, any one call, including a creation of an arbitrary record, keeps a tallied poll present and tallied |
| PollContract.RunKeepsPollTallied | projects/polls-dapp-contracts/smart_contracts/poll_manager/contract.py:29-69 | under the invariant, a tallied poll stays present and tallied through any sequence of calls |
| PollContract.BlankPollStaysTallied | projects/polls-dapp-contracts/smart_contracts/poll_manager/contract.py:34-36 | a poll created blank keeps total votes equal to its number of voters through any later calls, whatever others create |
| PollContract.StepKeepsVoter | projects/polls-dapp-contracts/smart_contracts/poll_manager/contract.py:29-69 | under the invariant, no call removes a voter from a poll or removes the poll |
| PollContract.RunKeepsVoter | projects/polls-dapp-contracts/smart_contracts/poll_manager/contract.py:29-69 | under the invariant, a voter of a poll stays one through any sequence of calls |
| PollContract.VotedIsTerminal | projects/polls-dapp-contracts/smart_contracts/poll_manager/contract.py:39-69 | after a successful vote, every later vote by the same caller on that poll, after any calls in between, fails with "Already voted" |
| Seqs.DistinctIffCardinality | projects/polls-dapp-frontend/src/components/CreatePage.tsx:42-43 | a Set built from a list has the list's size iff the list has no duplicates (both directions) |
| JsText.TrimIsInnerSlice | projects/polls-dapp-frontend/src/components/CreatePage.tsx:37 | `trim` returns a contiguous piece of the string with only whitespace cut off, and the result has no whitespace at either end |
| JsText.TrimEmptyIffBlank | projects/polls-dapp-frontend/src/components/CreatePage.tsx:39 | a trimmed string is empty (falsy) iff the string is all whitespace |
| JsText.Trim | projects/polls-dapp-frontend/src/components/CreatePage.tsx:37 | the trimmed string is no longer than the input and neither starts nor ends with whitespace |
| JsText.ToLower | projects/polls-dapp-frontend/src/components/CreatePage.tsx:42 | same length as the input, each character lower-cased on its own, and no upper-case letter is left |
| CreatePage.FilledOptions | projects/polls-dapp-frontend/src/components/CreatePage.tsx:39 | the filtered options are all non-blank and no more than the input |
| CreatePage.FilledOptionsMembers | projects/polls-dapp-frontend/src/components/CreatePage.tsx:39 | an option is kept iff it is in the form and non-blank |
| CreatePage.FilledOptionsAppend | projects/polls-dapp-frontend/src/components/CreatePage.tsx:80 | the filter distributes over concatenation, so submitted options keep their original order and text |
| CreatePage.CheckFormValidityMeaning | projects/polls-dapp-frontend/src/components/CreatePage.tsx:36-46 | valid iff the trimmed question is non-empty, at least 2 options are non-blank, and the non-blank options are pairwise distinct under trim + lower-case |
| CreatePage.ShortListsAreUnique | projects/polls-dapp-frontend/src/components/CreatePage.tsx:59-67 | with fewer than 2 filled options the Set check never fires, so the uniqueness message never hides the count message |
| CreatePage.CheckFormValidity | projects/polls-dapp-frontend/src/components/CreatePage.tsx:36-46 | a valid form has a non-blank question and at least 2 non-blank options (the converse, with uniqueness, is `CheckFormValidityMeaning`) |
| CreatePage.WithoutIndex | projects/polls-dapp-frontend/src/components/CreatePage.tsx:26 | filtering out position i is the list with exactly index i removed and the rest in order; an out-of-range index keeps the list |
| CreatePage.CreateForm.constructor | projects/polls-dapp-frontend/src/components/CreatePage.tsx:11-15 | the form starts with an empty question, two empty options, no errors, not creating |
| CreatePage.CreateForm.SetQuestion | projects/polls-dapp-frontend/src/components/CreatePage.tsx:115 | the question field takes the typed value |
| CreatePage.CreateForm.AddOption | projects/polls-dapp-frontend/src/components/CreatePage.tsx:18-22 | one empty option is appended only when there are fewer than 5, so the list stays within 2..5 |
| CreatePage.CreateForm.RemoveOption | projects/polls-dapp-frontend/src/components/CreatePage.tsx:24-28 | exactly index i is removed, the rest kept in order, and only above 2 options; the list stays within 2..5 |
| CreatePage.CreateForm.OptionChange | projects/polls-dapp-frontend/src/components/CreatePage.tsx:30-34 | only index i is replaced; the length and all other entries are unchanged |
| CreatePage.CreateForm.ValidateForm | projects/polls-dapp-frontend/src/components/CreatePage.tsx:52-71 | returns exactly `checkFormValidity`; sets "Question is required" for a blank question; sets "All options must be unique" when duplicates exist, else "At least 2 options are required" for fewer than 2 |
| CreatePage.CreateForm.BeginSubmit | projects/polls-dapp-frontend/src/components/CreatePage.tsx:73-81 | the validation messages are set as by `validateForm` on every call, even one refused while a submission is in flight; a request is sent iff the form is valid and no submission is in flight; it carries the trimmed question and the untrimmed non-blank options in order; the form is then busy with its error cleared; otherwise `isCreating` and `error` are unchanged |
| CreatePage.CreateForm.FinishSubmit | projects/polls-dapp-frontend/src/components/CreatePage.tsx:82-86 | `isCreating` is false afterwards whatever the outcome; a thrown `Error` shows its message, anything else the fixed failure text |
| CreatePage.SubmittedRequestShape | projects/polls-dapp-frontend/src/components/CreatePage.tsx:76-81 | a submitted request has a non-empty question and 2..5 non-blank options taken from the form, pairwise distinct under trim + lower-case |
| UsePollManager.SortByIdDesc | projects/polls-dapp-frontend/src/utils/usePollManager.ts:40 | the sort returns a permutation of its input, ordered by id, non-increasing |
| UsePollManager.SortedDistinctIsStrict | projects/polls-dapp-frontend/src/utils/usePollManager.ts:40 | with distinct ids the sorted list is strictly descending |
| UsePollManager.PollStore.constructor | projects/polls-dapp-frontend/src/contexts/PollsContext.tsx:14-15 | the store starts with no polls and not fetching |
| UsePollManager.PollStore.FetchPolls | projects/polls-dapp-frontend/src/utils/usePollManager.ts:29-48 | the fetching flag is false at the end on every path; a client error is rethrown with the polls untouched; an absent response leaves the polls; fetched values become exactly `SortByIdDesc` of them, a permutation sorted by id, non-increasing, and strictly newest first for a registry listing (`FetchedRegistryIsStrictlyNewestFirst`) |
| UsePollManager.FetchedRegistryIsStrictlyNewestFirst | projects/polls-dapp-frontend/src/utils/usePollManager.ts:33-41 | fetching a registry that satisfies the invariant yields polls in strictly descending id order |
| UsePollManager.CreatedPollListedFirst | projects/polls-dapp-frontend/src/utils/usePollManager.ts:40-41 | after the hook's `createPoll` call has run as `create_poll`, the next fetch lists the new record (with its stamped id) first |
| UsePollManager.VoteDispatch | projects/polls-dapp-frontend/src/utils/usePollManager.ts:60-88 | options 1..5 call exactly `voteOption_k` with the given poll id and the active address or ""; any other option fails with "Invalid option" and sends nothing |
| UsePollManager.MethodForInjective | projects/polls-dapp-frontend/src/utils/usePollManager.ts:64-83 | different options never map to the same client method |
| UsePollManager.CreatePoll | projects/polls-dapp-frontend/src/utils/usePollManager.ts:50-58 | `createPoll` sends one `create_poll` call with the record unchanged and does not touch the store |
| UsePollManager.VoteThenRevote | projects/polls-dapp-frontend/src/utils/usePollManager.ts:85 | a vote sent by the hook records the address and bumps option k by 1 on the contract; the same vote again is refused with "Already voted" and changes nothing |
| UsePollManager.MethodFor | projects/polls-dapp-frontend/src/utils/usePollManager.ts:64-83 | the switch picks a method exactly for options 1..5, the one whose option number is that option; any other option is "Invalid option" |
| UsePollManager.Vote | projects/polls-dapp-frontend/src/utils/usePollManager.ts:60-88 | a request is produced exactly for options 1..5, naming that option's method and the given poll id |
| PollCard.GetPercentage | projects/polls-dapp-frontend/src/components/PollCard.tsx:33-36 | 0 when the total is 0; otherwise the integer r with r − 1/2 <= 100·votes/total < r + 1/2 (nearest, halves up) |
| PollCard.PercentageIsUnique | projects/polls-dapp-frontend/src/components/PollCard.tsx:35 | that rounding condition has exactly one solution, so the contract fixes the result |
| PollCard.PercentageBounds | projects/polls-dapp-frontend/src/components/PollCard.tsx:35 | with 0 <= votes <= total the share is in 0..100; votes = total > 0 gives 100 |
| PollCard.PercentageExamples | projects/polls-dapp-frontend/src/components/PollCard.tsx:33-35 | 0 of 0 → 0, 25 of 100 → 25, 1 of 8 → 13 (half up), 1 of 3 → 33, 2 of 3 → 67 |
| PollCard.PollCardView.constructor | projects/polls-dapp-frontend/src/components/PollCard.tsx:24 | the card starts with nothing selected |
| PollCard.HasVoted | projects/polls-dapp-frontend/src/components/PollCard.tsx:25 | the viewer has voted exactly when `votedOptionId` is present; it switches off option selection and `handleVote` |
| PollCard.PollCardView.SelectOption | projects/polls-dapp-frontend/src/components/PollCard.tsx:50-52 | the buttons exist only before the viewer has voted; a click sets the selection to that option's id, so the selection is always one of the poll's option ids |
| PollCard.PollCardView.HandleVote | projects/polls-dapp-frontend/src/components/PollCard.tsx:25-31 | `onVote(poll.id, selection)` is called exactly when a truthy option is selected and `votedOptionId` is null, and the id sent is one of the poll's options; otherwise nothing happens |

## Left out

- The `hello` method of the contract: it only builds a greeting and has no bearing on the registry.
- uint64 arithmetic: counters and ids are unbounded `nat`. The chain would fail a `+ 1` overflow, and the model does not fail.
- The ARC-4 encoding of `PollData`, the box byte layout and box size limits. The chain would fail once `voters` outgrows a box, and the model does not.
- Addresses are plain strings. The ARC-4 address encoding, and what the client does with an empty-string caller, are not modelled.
- The wallet session, `getAppClient` / `PollManagerClient.fromCreatorAndName`, the signer setup and the network configuration. Their results are parameters: `FetchResponse` and `CreateOutcome`. What the hook sends is a returned value: `VoteRequest` and `Call`.
- A rejection by `getAppClient` inside `vote` and `createPoll`: that is the client abstraction above. In the source it happens before the option switch.
- UsePollManager.PollStore.FetchPolls: the flag's value while the call is awaited (true) is visible only to concurrent renders. The model states only its final value, false.
- UsePollManager.SortByIdDesc: does not state stability (records with equal ids keeping their order). Registry ids are distinct, so this does not affect the fetched store.
- The logging calls (`console.error` and `console.log` in `fetchPolls`, `createPoll` and `vote`): they write to the browser console and change no state.
- The `Number(bigint)` conversion in the sort comparator: ids are compared exactly.
- PollCard.GetPercentage: is exact rational round-half-up. It does not model the double-precision rounding of `votes / totalVotes * 100` before `Math.round`.
- `trim` strips only the six ASCII whitespace characters, and `toLowerCase` maps only 'A'..'Z'. Unicode whitespace and case mapping are not modelled.
- Rendering (Toast, Spinner, PollSkeleton, both HomePage views, routing), and `App.handleVote`, whose update is commented out.
- The `isFormValid` mirror updated by `useEffect`: it only copies `CheckFormValidity` into state for the button's `disabled` flag.
- React scheduling: re-render timing, effect dependencies, and state updates after unmount.
- The page component that turns a `CreateRequest` into a `PollData` record is not part of this model.
