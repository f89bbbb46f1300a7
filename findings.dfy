/** The `submit-word` handler as written (server.js:333-350 with `submitWord` at
    server.js:115-125 and `handleRoundEnd` at server.js:233-238) scores a round twice: the
    last submission makes `submitWord` clear the timer and call `endRound`, and the handler
    then sees the same size test hold and calls `handleRoundEnd`, which calls `endRound`
    again. The main model keeps the scoring in `handleRoundEnd` alone and guards it by the
    round timer; the members here exhibit the code as written. */
module Findings {
  import opened OrderedKeys
  import opened Normalisation
  import opened Scoring
  import opened RoomData
  import opened Room

  /** The room's part of `submit-word` as written: `submitWord` with its own round end, then,
      when every player has submitted, the start of `handleRoundEnd` (`clearTimeout` and
      `endRound`). A submission to a room that is not playing changes nothing; a completing
      one clears the timer, keeps the earlier results, stores two results for the one round
      and credits every player its points twice. */
  method SubmitAsWritten(room: GameRoom, p: PlayerId, word: string) returns (complete: bool)
    requires room.Valid() && p in room.players
    modifies room`submissions, room`subOrder, room`clock, room`roundResults, room`scoredRounds, room`scores
    ensures room.Valid()
    ensures complete == (old(room.gameState) == Playing && room.RoundComplete())
    ensures old(room.gameState) != Playing ==> unchanged(room)
    ensures old(room.gameState) == Playing ==>
              room.submissions == old(room.submissions)[p := Normalise(word)] && room.subOrder == Insert(old(room.subOrder), p)
    ensures !complete ==> room.clock == old(room.clock) && room.roundResults == old(room.roundResults) && room.scores == old(room.scores)
    ensures complete ==>
              && room.clock == NoTimer
              && |room.roundResults| == |old(room.roundResults)| + 2
              && room.roundResults[..|old(room.roundResults)|] == old(room.roundResults)
              && room.roundResults[|old(room.roundResults)|].round == room.currentRound
              && room.roundResults[|old(room.roundResults)| + 1].round == room.currentRound
              && room.scoredRounds == old(room.scoredRounds) + [room.roundsStarted] + [room.roundsStarted]
              && forall q :: q in room.scores ==> room.scores[q] == old(room.scores)[q] + 2 * Gain(room.Subs(), q)
  {
    if room.gameState != Playing {
      return false;
    }
    complete := SubmitWhilePlaying(room, p, word);
  }

  /** `SubmitAsWritten` for a room that is playing. */
  method SubmitWhilePlaying(room: GameRoom, p: PlayerId, word: string) returns (complete: bool)
    requires room.Valid() && p in room.players && room.gameState == Playing
    modifies room`submissions, room`subOrder, room`clock, room`roundResults, room`scoredRounds, room`scores
    ensures room.Valid()
    ensures complete == room.RoundComplete()
    ensures room.submissions == old(room.submissions)[p := Normalise(word)] && room.subOrder == Insert(old(room.subOrder), p)
    ensures !complete ==> room.clock == old(room.clock) && room.roundResults == old(room.roundResults) && room.scores == old(room.scores)
    ensures complete ==>
              && room.clock == NoTimer
              && |room.roundResults| == |old(room.roundResults)| + 2
              && room.roundResults[..|old(room.roundResults)|] == old(room.roundResults)
              && room.roundResults[|old(room.roundResults)|].round == room.currentRound
              && room.roundResults[|old(room.roundResults)| + 1].round == room.currentRound
              && room.scoredRounds == old(room.scoredRounds) + [room.roundsStarted] + [room.roundsStarted]
              && forall q :: q in room.scores ==> room.scores[q] == old(room.scores)[q] + 2 * Gain(room.Subs(), q)
  {
    var accepted;
    ghost var before, results, scored := room.scores, room.roundResults, room.scoredRounds;
    accepted, complete := room.SubmitWordAsWritten(p, word);
    ghost var words, keys := room.submissions, room.subOrder;
    if complete {
      ScoreAgain(room, results, scored, before);
    }
    assert room.submissions == words && room.subOrder == keys;
  }

  /** `handleRoundEnd`'s `clearTimeout` and `endRound` (server.js:237-238) once
      `submitWord` has already scored the round (server.js:121-122): the round is stored a
      second time, after the earlier `results`, and every player gains its points again over
      the scores `before` the first scoring. */
  method ScoreAgain(room: GameRoom, ghost results: seq<RoundResult>, ghost scored: seq<nat>, ghost before: map<PlayerId, nat>)
    requires room.Valid() && room.gameState != Waiting
    requires |room.roundResults| == |results| + 1 && room.roundResults[..|results|] == results
    requires room.roundResults[|results|].round == room.currentRound
    requires room.scoredRounds == scored + [room.roundsStarted]
    requires room.scores.Keys == before.Keys
    requires forall q :: q in room.scores ==> room.scores[q] == before[q] + Gain(room.Subs(), q)
    modifies room`clock, room`roundResults, room`scoredRounds, room`scores
    ensures room.Valid() && room.clock == NoTimer
    ensures |room.roundResults| == |results| + 2 && room.roundResults[..|results|] == results
    ensures room.roundResults[|results|].round == room.currentRound
    ensures room.roundResults[|results| + 1].round == room.currentRound
    ensures room.scoredRounds == scored + [room.roundsStarted] + [room.roundsStarted]
    ensures forall q :: q in room.scores ==> room.scores[q] == before[q] + 2 * Gain(room.Subs(), q)
  {
    ghost var first := room.roundResults;
    var second := room.CloseRound();
    assert room.roundResults == first + [second];
  }

  /** A new room `r` that `a` created and `b` joined. */
  method Pair() returns (room: GameRoom)
    ensures fresh(room) && room.Valid()
    ensures room.order == ["a", "b"] && "a" in room.players && "b" in room.players
    ensures room.scores == map["a" := 0, "b" := 0] && room.roundResults == []
    ensures room.clock == NoTimer && room.subOrder == [] && room.submissions == map[]
  {
    room := new GameRoom("r", "a");
    room.AddPlayer("a", "Ann");
    room.AddPlayer("b", "Bob");
  }

  /** The same two players in round 1 with no submission yet. */
  method PairInRound() returns (room: GameRoom)
    ensures fresh(room) && room.Valid()
    ensures room.order == ["a", "b"] && "a" in room.players && "b" in room.players
    ensures room.scores == map["a" := 0, "b" := 0] && room.roundResults == []
    ensures room.gameState == Playing && room.currentRound == 1 && room.clock == NoTimer
    ensures room.subOrder == [] && room.submissions == map[]
  {
    room := Pair();
    var ok := room.StartGame();
  }

  /** Both players choosing "cat" is worth 20 points to each. */
  lemma CatPairGain()
    ensures Gain([Submission("a", "cat"), Submission("b", "cat")], "a") == 20
    ensures Gain([Submission("a", "cat"), Submission("b", "cat")], "b") == 20
  {
    var subs := [Submission("a", "cat"), Submission("b", "cat")];
    assert subs[..1] == [Submission("a", "cat")] && subs[..1][..0] == [];
    assert PlayersOf(subs, "cat") == ["a", "b"];
  }

  /** The same round once `a` has submitted "cat". */
  method CatOnTheTable() returns (room: GameRoom)
    ensures fresh(room) && room.Valid()
    ensures room.order == ["a", "b"] && "b" in room.players
    ensures room.scores == map["a" := 0, "b" := 0] && room.roundResults == []
    ensures room.gameState == Playing && room.currentRound == 1 && room.clock == NoTimer
    ensures room.subOrder == ["a"] && room.submissions == map["a" := "cat"]
  {
    room := PairInRound();
    assert Normalise("cat") == "cat" by { CatSpellings(); }
    assert Insert([], "a") == ["a"];
    var first := SubmitAsWritten(room, "a", "cat");
    assert !first;
  }

  /** The round's submissions once `a` chose "cat" and then `b` did. */
  lemma CatPairSubs()
    ensures Insert(["a"], "b") == ["a", "b"]
    ensures SubsOf(["a", "b"], map["a" := "cat"]["b" := "cat"]) == [Submission("a", "cat"), Submission("b", "cat")]
  {
    var r := SubsOf(["a", "b"], map["a" := "cat"]["b" := "cat"]);
    assert r[0] == Submission("a", "cat") && r[1] == Submission("b", "cat");
  }

  /** Input that shows it: `a` submits "cat" and `b` then submits "Cat ". As written, the
      round is stored twice and each player is credited 40 points where the round is worth
      20. */
  method EndRoundTwiceAsWritten() returns (score: nat, results: nat)
    ensures score == 40 && results == 2
  {
    var room := CatOnTheTable();
    CatSpellings();
    CatPairSubs();
    CatPairGain();
    var last := SubmitAsWritten(room, "b", "Cat ");
    score, results := room.scores["b"], |room.roundResults|;
  }

  /** The round where only `a` chose "cat": nobody scores and nobody wins. */
  lemma LoneCatRound()
    ensures SubsOf(["a"], map["a" := "cat"]) == [Submission("a", "cat")]
    ensures !Unanimous([Submission("a", "cat")], 2)
  {
    var subs := [Submission("a", "cat")];
    assert SubsOf(["a"], map["a" := "cat"])[0] == Submission("a", "cat");
    assert subs[..0] == [];
    assert PlayersOf(subs, "cat") == ["a"];
  }

  /** Round 1 ended by its timer after only `a` submitted: the timer is cleared and the round
      scored once, as it is both as written and in the main model. */
  method Scored() returns (room: GameRoom)
    ensures fresh(room) && room.Valid()
    ensures room.order == ["a", "b"] && "b" in room.players
    ensures |room.roundResults| == 1 && room.roundResults[0].round == 1
    ensures room.gameState == Playing && room.currentRound == 1 && room.clock == NoTimer
    ensures room.subOrder == ["a"] && room.Subs() == [Submission("a", "cat")]
  {
    room := CatOnTheTable();
    LoneCatRound();
    var result := room.CloseRound();
  }

  /** Round 1 over without a winner: the countdown to round 2 runs, and `a`'s word is still
      stored. */
  method Counting() returns (room: GameRoom)
    ensures fresh(room) && room.Valid()
    ensures room.order == ["a", "b"] && "b" in room.players
    ensures |room.roundResults| == 1 && room.roundResults[0].round == 1
    ensures room.gameState == Playing && room.currentRound == 2 && room.subOrder == ["a"]
    ensures room.clock.Countdown?
  {
    room := Scored();
    LoneCatRound();
    ghost var results, order, subOrder := room.roundResults, room.order, room.subOrder;
    var status := room.ProcessRoundEnd();
    room.SetCountdown(COUNTDOWN_FROM);
    assert room.roundResults == results && room.order == order && room.subOrder == subOrder;
  }

  /** Input that shows it: `a` submits "cat", `b` submits nothing, and the round timer ends
      round 1 without a winner. `b` then submits "dog" during the countdown. As written, the
      stored words now fill the room, so `a`'s leftover round-1 word and `b`'s new one are
      scored twice, under the number of round 2, which was never played: three results,
      numbered 1, 2 and 2. */
  method RescoredInCountdownAsWritten() returns (results: nat, rounds: seq<nat>)
    ensures results == 3 && rounds == [1, 2, 2]
  {
    var room := Counting();
    ghost var first := room.roundResults[0];
    assert Insert(["a"], "b") == ["a", "b"];
    var again := SubmitAsWritten(room, "b", "dog");
    assert room.roundResults[..1] == [first];
    results := |room.roundResults|;
    rounds := [room.roundResults[0].round, room.roundResults[1].round, room.roundResults[2].round];
  }
}
