/**
 * The poll command: polls kept in a map keyed by the id of the interaction
 * that created them, button votes with one vote per user, and the rendered
 * description with vote counts and winners.
 *
 * The clock (`Date.now()`) and the duration parser (`ms`) are parameters; the
 * timer that ends a poll is the separate operation `EndPoll`.
 */
module Polls {
  import opened Wrappers
  import opened Ascii
  import opened InteractionErrors

  /** Milliseconds, the unit `ms` and `Date.now()` use. */
  const SECOND := 1000
  const DAY := 24 * 60 * 60 * SECOND
  const MinDuration := 10 * SECOND
  const MaxDuration := 7 * DAY
  const DefaultDuration := "1m"

  const InvalidDurationText := "\U{274C} Invalid duration format. Use formats like '10m', '1h', '1d'."
  const DurationRangeText := "\U{274C} Duration must be between 10 seconds and 7 days."
  const InvalidIndexText := "\U{274C} Invalid choice index."
  const PollNotFoundText := "\U{274C} Poll not found."
  const PollClosedText := "\U{274C} Poll is closed."
  const InvalidChoiceText := "\U{274C} Invalid choice."

  datatype Vote = Vote(userId: string, choiceIndex: int)

  datatype Poll = Poll(id: string, question: string, choices: seq<string>, endTime: int, votes: seq<Vote>)

  /** The options of `/poll`; the optional ones are `None` when not given. */
  datatype PollOptions = PollOptions(
    question: string, choice1: string, choice2: string,
    choice3: Option<string>, choice4: Option<string>, choice5: Option<string>,
    duration: Option<string>)

  /** `duration ||= "1m"`. */
  function EffectiveDuration(duration: Option<string>): (d: string)
    ensures duration.None? || duration == Some("") ==> d == DefaultDuration
    ensures duration.Some? && duration.value != "" ==> d == duration.value
  {
    if duration.None? || duration.value == "" then DefaultDuration else duration.value
  }

  /** Keeps the present, non-empty entries, in order: `.filter((c) => !!c)`. */
  function PresentChoices(slots: seq<Option<string>>): (cs: seq<string>)
    ensures |cs| <= |slots|
    ensures forall i :: 0 <= i < |cs| ==> cs[i] != ""
    ensures forall c :: c in cs <==> c != "" && Some(c) in slots
  {
    if slots == [] then []
    else
      var rest := PresentChoices(slots[1..]);
      assert forall x :: x in slots <==> x == slots[0] || x in slots[1..];
      if slots[0].Some? && slots[0].value != "" then [slots[0].value] + rest else rest
  }

  /** What one option contributes: its text when present and non-empty, nothing otherwise. */
  function Kept(slot: Option<string>): seq<string> {
    if slot.Some? && slot.value != "" then [slot.value] else []
  }

  /** The filter works slot by slot: it keeps the order of the options and every repeated one. */
  lemma {:induction false} PresentChoicesConcat(a: seq<Option<string>>, b: seq<Option<string>>)
    ensures PresentChoices(a + b) == PresentChoices(a) + PresentChoices(b)
  {
    if a != [] {
      assert (a + b)[1..] == a[1..] + b;
      PresentChoicesConcat(a[1..], b);
    } else {
      assert a + b == b;
    }
  }

  lemma PresentChoicesOne(slot: Option<string>)
    ensures PresentChoices([slot]) == Kept(slot)
  {
    assert [slot][1..] == [];
  }

  /** The choices of a new poll: the non-empty options among choice1..choice5, in that order. */
  function Choices(o: PollOptions): seq<string> {
    PresentChoices([Some(o.choice1), Some(o.choice2), o.choice3, o.choice4, o.choice5])
  }

  /** Each option in turn contributes its own text, so button i and line i follow the order of the options. */
  lemma ChoicesInOrder(o: PollOptions)
    ensures Choices(o) == Kept(Some(o.choice1)) + (Kept(Some(o.choice2)) + (Kept(o.choice3) + (Kept(o.choice4) + Kept(o.choice5))))
  {
    KeptFive(Some(o.choice1), Some(o.choice2), o.choice3, o.choice4, o.choice5);
  }

  lemma KeptFive(s1: Option<string>, s2: Option<string>, s3: Option<string>, s4: Option<string>, s5: Option<string>)
    ensures PresentChoices([s1, s2, s3, s4, s5]) == Kept(s1) + (Kept(s2) + (Kept(s3) + (Kept(s4) + Kept(s5))))
  {
    assert [s1, s2, s3, s4, s5] == [s1] + [s2, s3, s4, s5];
    PresentChoicesConcat([s1], [s2, s3, s4, s5]);
    PresentChoicesOne(s1);
    KeptFour(s2, s3, s4, s5);
  }

  lemma KeptFour(s2: Option<string>, s3: Option<string>, s4: Option<string>, s5: Option<string>)
    ensures PresentChoices([s2, s3, s4, s5]) == Kept(s2) + (Kept(s3) + (Kept(s4) + Kept(s5)))
  {
    assert [s2, s3, s4, s5] == [s2] + [s3, s4, s5];
    PresentChoicesConcat([s2], [s3, s4, s5]);
    PresentChoicesOne(s2);
    KeptThree(s3, s4, s5);
  }

  lemma KeptThree(s3: Option<string>, s4: Option<string>, s5: Option<string>)
    ensures PresentChoices([s3, s4, s5]) == Kept(s3) + (Kept(s4) + Kept(s5))
  {
    assert [s3, s4, s5] == [s3] + [s4, s5];
    PresentChoicesConcat([s3], [s4, s5]);
    PresentChoicesOne(s3);
    assert [s4, s5] == [s4] + [s5];
    PresentChoicesConcat([s4], [s5]);
    PresentChoicesOne(s4);
    PresentChoicesOne(s5);
  }

  datatype Button = Button(customId: string, caption: string)

  /** One button per choice, whose custom id `poll/<pollId>/<i>` routes the vote back. */
  function Buttons(pollId: string, choices: seq<string>): (bs: seq<Button>)
    ensures |bs| == |choices|
    ensures forall i :: 0 <= i < |bs| ==> bs[i].caption == choices[i]
    ensures forall i :: 0 <= i < |bs| ==> bs[i].customId == "poll/" + pollId + "/" + NatToString(i)
  {
    seq(|choices|, i requires 0 <= i < |choices| => Button("poll/" + pollId + "/" + NatToString(i), choices[i]))
  }

  /**
   * The checks and the poll that `handlePoll` stores, given the parsed
   * duration (`None` when `ms` fails or yields no number).
   */
  function NewPoll(pollId: string, options: PollOptions, now: int, parsed: Option<int>): (r: Result<Poll, InteractionError>)
    ensures parsed.None? || parsed == Some(0) ==> r == Err(NewInteractionError(InvalidDurationText, None))
    ensures parsed.Some? && parsed.value != 0 && !(MinDuration <= parsed.value <= MaxDuration) ==>
              r == Err(NewInteractionError(DurationRangeText, None))
    ensures r.Ok? <==> parsed.Some? && MinDuration <= parsed.value <= MaxDuration
    ensures r.Ok? ==> && r.value.id == pollId && r.value.votes == []
                      && r.value.endTime == now + parsed.value
                      && r.value.choices == Choices(options) && r.value.question == options.question
  {
    if parsed.None? || parsed.value == 0 then Err(NewInteractionError(InvalidDurationText, None))
    else if parsed.value < MinDuration || parsed.value > MaxDuration then Err(NewInteractionError(DurationRangeText, None))
    else Ok(Poll(pollId, options.question, Choices(options), now + parsed.value, []))
  }

  // ----- votes -----

  /** `votes.find((v) => v.userId === userId)`, as an index. */
  function FirstVoteOf(votes: seq<Vote>, userId: string): (r: Option<nat>)
    ensures r.Some? ==> r.value < |votes| && votes[r.value].userId == userId
    ensures r.Some? ==> forall k :: 0 <= k < r.value ==> votes[k].userId != userId
    ensures r.None? ==> forall k :: 0 <= k < |votes| ==> votes[k].userId != userId
  {
    if votes == [] then None
    else if votes[0].userId == userId then Some(0)
    else
      match FirstVoteOf(votes[1..], userId)
      case Some(j) => Some(j + 1)
      case None => None
  }

  /** No user has two votes. */
  predicate UniqueVoters(votes: seq<Vote>) {
    forall a, b :: 0 <= a < b < |votes| ==> votes[a].userId != votes[b].userId
  }

  /**
   * The votes after `userId` votes for `choiceIndex`: a revote overwrites the
   * user's vote in place, a first vote is appended; no other vote changes.
   */
  function Upserted(votes: seq<Vote>, userId: string, choiceIndex: int): (r: seq<Vote>)
    ensures |votes| <= |r| <= |votes| + 1
    ensures UniqueVoters(votes) ==> UniqueVoters(r)
    ensures forall k :: 0 <= k < |votes| && votes[k].userId != userId ==> r[k] == votes[k]
    ensures Vote(userId, choiceIndex) in r
    ensures UniqueVoters(votes) ==> forall k :: 0 <= k < |r| && r[k].userId == userId ==> r[k].choiceIndex == choiceIndex
    ensures (exists k :: 0 <= k < |votes| && votes[k].userId == userId) ==> |r| == |votes|
    ensures (forall k :: 0 <= k < |votes| ==> votes[k].userId != userId) ==> r == votes + [Vote(userId, choiceIndex)]
  {
    match FirstVoteOf(votes, userId)
    case Some(j) =>
      var r := votes[j := Vote(userId, choiceIndex)];
      assert r[j] == Vote(userId, choiceIndex);
      r
    case None => votes + [Vote(userId, choiceIndex)]
  }

  /** The upsert of `handlePollVote`: search the user's vote, then overwrite it or append a new one. */
  method UpsertVote(votes: seq<Vote>, userId: string, choiceIndex: int) returns (r: seq<Vote>)
    ensures r == Upserted(votes, userId, choiceIndex)
  {
    var i := 0;
    while i < |votes| && votes[i].userId != userId
      invariant 0 <= i <= |votes|
      invariant forall k :: 0 <= k < i ==> votes[k].userId != userId
    {
      i := i + 1;
    }
    if i < |votes| {
      r := votes[i := Vote(userId, choiceIndex)];
    } else {
      r := votes + [Vote(userId, choiceIndex)];
    }
  }

  /** The checks of `handlePollVote`, in their order, and the poll after the vote. */
  function CastVote(polls: map<string, Poll>, pollId: string, parsedIndex: Option<int>, userId: string, now: int): (r: Result<Poll, InteractionError>)
    ensures parsedIndex.None? ==> r == Err(NewInteractionError(InvalidIndexText, None))
    ensures parsedIndex.Some? && pollId !in polls ==> r == Err(NewInteractionError(PollNotFoundText, None))
    ensures parsedIndex.Some? && pollId in polls && polls[pollId].endTime < now ==>
              r == Err(NewInteractionError(PollClosedText, None))
    ensures r.Ok? <==> && parsedIndex.Some? && pollId in polls && now <= polls[pollId].endTime
                       && 0 <= parsedIndex.value < |polls[pollId].choices|
                       && polls[pollId].choices[parsedIndex.value] != ""
    ensures r.Ok? ==> r.value == polls[pollId].(votes := Upserted(polls[pollId].votes, userId, parsedIndex.value))
    ensures parsedIndex.Some? && pollId in polls && now <= polls[pollId].endTime && r.Err? ==>
              r == Err(NewInteractionError(InvalidChoiceText, None))
  {
    if parsedIndex.None? then Err(NewInteractionError(InvalidIndexText, None))
    else if pollId !in polls then Err(NewInteractionError(PollNotFoundText, None))
    else
      var poll := polls[pollId];
      var index := parsedIndex.value;
      if poll.endTime < now then Err(NewInteractionError(PollClosedText, None))
      else if !(0 <= index < |poll.choices|) || poll.choices[index] == "" then Err(NewInteractionError(InvalidChoiceText, None))
      else Ok(poll.(votes := Upserted(poll.votes, userId, index)))
  }

  /** A poll still takes votes at the very millisecond it ends. */
  lemma OpenAtEndTime(polls: map<string, Poll>, pollId: string, index: int, userId: string)
    requires pollId in polls && 0 <= index < |polls[pollId].choices| && polls[pollId].choices[index] != ""
    ensures CastVote(polls, pollId, Some(index), userId, polls[pollId].endTime).Ok?
  {
  }

  // ----- description and winners -----

  /** `poll.votes.filter((v) => v.choiceIndex === index).length`. */
  function VoteCount(votes: seq<Vote>, index: int): nat
    ensures VoteCount(votes, index) <= |votes|
  {
    if votes == [] then 0 else (if votes[0].choiceIndex == index then 1 else 0) + VoteCount(votes[1..], index)
  }

  /** The `reduce` over the choices that collects the winners. */
  function WinnersFrom(choices: seq<string>, votes: seq<Vote>, i: nat, acc: seq<string>, maxVotes: nat): (r: seq<string>)
    requires i <= |choices|
    ensures forall x :: x in r ==> x in acc || x in choices[i..]
    ensures acc != [] || (maxVotes == 0 && i < |choices|) ==> r != []
    decreases |choices| - i
  {
    if i == |choices| then acc
    else
      var count := VoteCount(votes, i);
      if count > maxVotes then WinnersFrom(choices, votes, i + 1, [choices[i]], count)
      else if count == maxVotes then WinnersFrom(choices, votes, i + 1, acc + [choices[i]], maxVotes)
      else WinnersFrom(choices, votes, i + 1, acc, maxVotes)
  }

  /** Every winner is a choice, and a poll with a choice always has a winner. */
  function Winners(poll: Poll): (r: seq<string>)
    ensures forall x :: x in r ==> x in poll.choices
    ensures poll.choices != [] ==> r != []
  {
    assert poll.choices[0..] == poll.choices;
    WinnersFrom(poll.choices, poll.votes, 0, [], 0)
  }

  /** The largest vote count among choices 0..k-1, and 0 when there are none. */
  function MaxCount(votes: seq<Vote>, k: nat): (m: nat)
    ensures forall j :: 0 <= j < k ==> VoteCount(votes, j) <= m
  {
    if k == 0 then 0
    else
      var m := MaxCount(votes, k - 1);
      var c := VoteCount(votes, k - 1);
      if c > m then c else m
  }

  lemma {:induction false} MaxCountAttained(votes: seq<Vote>, k: nat)
    requires MaxCount(votes, k) > 0
    ensures exists j :: 0 <= j < k && VoteCount(votes, j) == MaxCount(votes, k)
  {
    if VoteCount(votes, k - 1) <= MaxCount(votes, k - 1) {
      MaxCountAttained(votes, k - 1);
      var j :| 0 <= j < k - 1 && VoteCount(votes, j) == MaxCount(votes, k - 1);
      assert VoteCount(votes, j) == MaxCount(votes, k);
    }
  }

  /** The choices among 0..k-1 with exactly `m` votes, in order. */
  function Top(choices: seq<string>, votes: seq<Vote>, k: nat, m: nat): (t: seq<string>)
    requires k <= |choices|
    ensures forall x :: x in t <==> exists j :: 0 <= j < k && VoteCount(votes, j) == m && choices[j] == x
  {
    if k == 0 then []
    else
      var t := Top(choices, votes, k - 1, m);
      if VoteCount(votes, k - 1) == m then t + [choices[k - 1]] else t
  }

  lemma {:induction false} TopEmptyAbove(choices: seq<string>, votes: seq<Vote>, k: nat, m: nat)
    requires k <= |choices| && m > MaxCount(votes, k)
    ensures Top(choices, votes, k, m) == []
  {
    if k > 0 {
      assert MaxCount(votes, k - 1) <= MaxCount(votes, k);
      TopEmptyAbove(choices, votes, k - 1, m);
    }
  }

  lemma {:induction false} WinnersFromTop(choices: seq<string>, votes: seq<Vote>, i: nat)
    requires i <= |choices|
    ensures WinnersFrom(choices, votes, i, Top(choices, votes, i, MaxCount(votes, i)), MaxCount(votes, i))
            == Top(choices, votes, |choices|, MaxCount(votes, |choices|))
    decreases |choices| - i
  {
    if i < |choices| {
      var m := MaxCount(votes, i);
      var c := VoteCount(votes, i);
      if c > m {
        TopEmptyAbove(choices, votes, i, c);
        assert Top(choices, votes, i + 1, c) == [choices[i]];
      }
      WinnersFromTop(choices, votes, i + 1);
    }
  }

  /** Choice j has at least as many votes as every choice. */
  ghost predicate HasMostVotes(poll: Poll, j: int)
    requires 0 <= j < |poll.choices|
  {
    forall k :: 0 <= k < |poll.choices| ==> VoteCount(poll.votes, k) <= VoteCount(poll.votes, j)
  }

  /** `x` is the label of a choice with the most votes. */
  ghost predicate IsTopChoice(poll: Poll, x: string) {
    exists j :: 0 <= j < |poll.choices| && poll.choices[j] == x && HasMostVotes(poll, j)
  }

  /**
   * The winners are the choices whose vote count is the largest, in order;
   * when no choice has a vote, every choice wins.
   */
  lemma WinnersAreMaximal(poll: Poll)
    ensures Winners(poll) == Top(poll.choices, poll.votes, |poll.choices|, MaxCount(poll.votes, |poll.choices|))
    ensures forall x :: x in Winners(poll) <==> IsTopChoice(poll, x)
  {
    var n := |poll.choices|;
    WinnersFromTop(poll.choices, poll.votes, 0);
    var m := MaxCount(poll.votes, n);
    forall x
      ensures x in Winners(poll) <==> IsTopChoice(poll, x)
    {
      if x in Winners(poll) {
        var j :| 0 <= j < n && VoteCount(poll.votes, j) == m && poll.choices[j] == x;
        assert HasMostVotes(poll, j);
      }
      if IsTopChoice(poll, x) {
        var j :| 0 <= j < n && poll.choices[j] == x && HasMostVotes(poll, j);
        if m > 0 {
          MaxCountAttained(poll.votes, n);
          var k :| 0 <= k < n && VoteCount(poll.votes, k) == m;
          assert VoteCount(poll.votes, k) <= VoteCount(poll.votes, j);
        }
        assert VoteCount(poll.votes, j) == m;
      }
    }
  }

  lemma {:induction false} TopOfZero(choices: seq<string>, votes: seq<Vote>, k: nat)
    requires k <= |choices|
    requires forall j :: 0 <= j < k ==> VoteCount(votes, j) == 0
    ensures Top(choices, votes, k, 0) == choices[..k]
  {
    if k > 0 {
      TopOfZero(choices, votes, k - 1);
      assert choices[..k] == choices[..k - 1] + [choices[k - 1]];
    }
  }

  /** With no votes every choice is a winner. */
  lemma NoVotesAllWin(poll: Poll)
    requires poll.votes == []
    ensures Winners(poll) == poll.choices
  {
    var n := |poll.choices|;
    WinnersAreMaximal(poll);
    if MaxCount(poll.votes, n) > 0 {
      MaxCountAttained(poll.votes, n);
    }
    TopOfZero(poll.choices, poll.votes, n);
    assert poll.choices[..n] == poll.choices;
  }

  const TieIcon := " \U{2696}\U{FE0F}"
  const TrophyIcon := " \U{1F3C6}"

  /** "vote" for exactly one vote, "votes" otherwise (zero included). */
  function VoteWord(count: nat): (w: string)
    ensures w == "vote" <==> count == 1
    ensures w == "votes" <==> count != 1
  {
    "vote" + (if count != 1 then "s" else "")
  }

  function WinnerIcon(winners: seq<string>): string {
    if |winners| > 1 then TieIcon else TrophyIcon
  }

  /** One line of the description: number, choice, count and, for a winner, its icon. */
  function PollLine(number: nat, choice: string, count: nat, suffix: string): string {
    "**" + NatToString(number) + "**. " + choice + " (" + NatToString(count) + " " + VoteWord(count) + ")" + suffix
  }

  function DescriptionLines(poll: Poll, showWinner: bool): (lines: seq<string>)
    ensures |lines| == |poll.choices|
  {
    var winners := Winners(poll);
    seq(|poll.choices|, i requires 0 <= i < |poll.choices| =>
      PollLine(i + 1, poll.choices[i], VoteCount(poll.votes, i),
               if showWinner && poll.choices[i] in winners then WinnerIcon(winners) else ""))
  }

  /** `getPollDescription`: the lines joined by newlines. */
  function PollDescription(poll: Poll, showWinner: bool): (r: string)
    ensures poll.choices == [] ==> r == ""
    ensures forall i :: 0 <= i < |poll.choices| ==> Contains(r, DescriptionLines(poll, showWinner)[i])
  {
    var lines := DescriptionLines(poll, showWinner);
    forall i | 0 <= i < |poll.choices|
      ensures Contains(Join(lines, "\n"), lines[i])
    {
      JoinContainsPart(lines, "\n", i);
    }
    Join(lines, "\n")
  }

  /**
   * Line i of the description shows choice i, numbered from 1, with its count;
   * when winners are shown it carries the tie icon (several winners) or the
   * trophy (one) exactly when its label is the label of a choice with the most
   * votes; otherwise it carries nothing.
   */
  lemma DescriptionLine(poll: Poll, showWinner: bool, i: nat)
    requires i < |poll.choices|
    ensures DescriptionLines(poll, showWinner)[i]
            == PollLine(i + 1, poll.choices[i], VoteCount(poll.votes, i),
                        if showWinner && IsTopChoice(poll, poll.choices[i]) then WinnerIcon(Winners(poll)) else "")
  {
    WinnersAreMaximal(poll);
    assert poll.choices[i] in Winners(poll) <==> IsTopChoice(poll, poll.choices[i]);
  }

  // ----- the command -----

  /** The reply `handlePoll` posts and the timer it schedules. */
  datatype PollPosted = PollPosted(title: string, description: string, buttons: seq<Button>, timeoutName: string, delay: int)

  /** What `handlePollVote` shows: the refreshed description and the ephemeral reply. */
  datatype VoteReply = VoteReply(description: string, content: string)

  /** A stored poll: its choices are non-empty, and its votes name existing choices, one per user. */
  predicate WellFormed(poll: Poll) {
    && (forall c :: c in poll.choices ==> c != "")
    && (forall k :: 0 <= k < |poll.votes| ==> 0 <= poll.votes[k].choiceIndex < |poll.choices|)
    && UniqueVoters(poll.votes)
  }

  class PollCommand {
    var polls: map<string, Poll>

    ghost predicate Valid()
      reads this
    {
      forall id :: id in polls ==> polls[id].id == id && WellFormed(polls[id])
    }

    constructor()
      ensures Valid() && polls == map[]
    {
      polls := map[];
    }

    /**
     * `handlePoll`: validate the duration, then store the new poll under the
     * interaction id, reply with its description and buttons and schedule its end.
     * `replyFailure` is the rejection of the reply call, if it rejects: the poll
     * is stored before the reply, so it stays stored, but the handler rejects
     * before scheduling the timer, so that poll is never ended.
     */
    method HandlePoll(interactionId: string, options: PollOptions, now: int, ms: string -> Option<int>,
                      replyFailure: Option<Thrown>)
      returns (r: Result<PollPosted, Thrown>)
      requires Valid()
      modifies this
      ensures Valid()
      ensures var created := NewPoll(interactionId, options, now, ms(EffectiveDuration(options.duration)));
              && (created.Err? ==> r == Err(Intentional(created.error)) && polls == old(polls))
              && (created.Ok? ==> polls == old(polls)[interactionId := created.value])
              && (created.Ok? && replyFailure.Some? ==> r == Err(replyFailure.value))
              && (created.Ok? && replyFailure.None? ==>
                                  && r.Ok?
                                  && r.value.title == "\U{1F4CA} " + options.question
                                  && r.value.description == PollDescription(created.value, false)
                                  && r.value.buttons == Buttons(interactionId, created.value.choices)
                                  && r.value.timeoutName == "poll/" + interactionId
                                  && r.value.delay == created.value.endTime - now)
    {
      var duration := EffectiveDuration(options.duration);
      var durationMs := ms(duration);
      if durationMs.None? || durationMs.value == 0 {
        return Err(Intentional(NewInteractionError(InvalidDurationText, None)));
      }
      if durationMs.value < MinDuration || durationMs.value > MaxDuration {
        return Err(Intentional(NewInteractionError(DurationRangeText, None)));
      }
      var choices := Choices(options);
      var poll := Poll(interactionId, options.question, choices, now + durationMs.value, []);
      polls := polls[interactionId := poll];
      if replyFailure.Some? {
        return Err(replyFailure.value);
      }
      r := Ok(PollPosted("\U{1F4CA} " + options.question, PollDescription(poll, false),
                         Buttons(interactionId, choices), "poll/" + interactionId, durationMs.value));
    }

    /**
     * `handlePollVote`: run the checks in order, then record the user's vote
     * (one per user) and answer with the refreshed description. `failure` is the
     * rejection of the message edit or of the reply, whichever rejects first: the
     * vote is recorded before both, so it stays recorded and the handler rejects.
     */
    method HandlePollVote(pollId: string, parsedIndex: Option<int>, userId: string, now: int, failure: Option<Thrown>)
      returns (r: Result<VoteReply, Thrown>)
      requires Valid()
      modifies this
      ensures Valid()
      ensures var cast := CastVote(old(polls), pollId, parsedIndex, userId, now);
              && (cast.Err? ==> r == Err(Intentional(cast.error)) && polls == old(polls))
              && (cast.Ok? ==> polls == old(polls)[pollId := cast.value])
              && (cast.Ok? && failure.Some? ==> r == Err(failure.value))
              && (cast.Ok? && failure.None? ==> r == Ok(VoteReply(PollDescription(cast.value, false),
                                                    "You voted for " + cast.value.choices[parsedIndex.value] + ".")))
    {
      if parsedIndex.None? {
        return Err(Intentional(NewInteractionError(InvalidIndexText, None)));
      }
      var choiceIndex := parsedIndex.value;
      if pollId !in polls {
        return Err(Intentional(NewInteractionError(PollNotFoundText, None)));
      }
      var poll := polls[pollId];
      if poll.endTime < now {
        return Err(Intentional(NewInteractionError(PollClosedText, None)));
      }
      if !(0 <= choiceIndex < |poll.choices|) || poll.choices[choiceIndex] == "" {
        return Err(Intentional(NewInteractionError(InvalidChoiceText, None)));
      }
      var choice := poll.choices[choiceIndex];
      var votes := UpsertVote(poll.votes, userId, choiceIndex);
      poll := poll.(votes := votes);
      polls := polls[pollId := poll];
      if failure.Some? {
        return Err(failure.value);
      }
      r := Ok(VoteReply(PollDescription(poll, false), "You voted for " + choice + "."));
    }

    /**
     * The timer callback: a poll still stored is shown with its winners and
     * then removed; a poll already gone is left alone. `failure` is the rejection
     * of fetching the poll's message or of editing it, whichever rejects first:
     * the poll is removed only after both succeed, so on a rejection it stays
     * stored and the callback rejects (`Err`).
     */
    method EndPoll(pollId: string, failure: Option<Thrown>) returns (r: Result<Option<string>, Thrown>)
      requires Valid()
      modifies this
      ensures Valid()
      ensures pollId !in old(polls) ==> r == Ok(None) && polls == old(polls)
      ensures pollId in old(polls) && failure.Some? ==> r == Err(failure.value) && polls == old(polls)
      ensures pollId in old(polls) && failure.None? ==>
                r == Ok(Some(PollDescription(old(polls)[pollId], true))) && polls == old(polls) - {pollId}
      ensures r.Ok? ==> pollId !in polls
    {
      if pollId !in polls {
        return Ok(None);
      }
      var endedPoll := polls[pollId];
      if failure.Some? {
        return Err(failure.value);
      }
      r := Ok(Some(PollDescription(endedPoll, true)));
      polls := polls - {pollId};
    }
  }
}
