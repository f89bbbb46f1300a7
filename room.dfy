/** The `GameRoom` class (server.js:60-231): a room's players, scores, submissions and round
    results, and the operations that change them. */
module Room {
  import opened OrderedKeys
  import opened Normalisation
  import opened Scoring
  import opened Ranking
  import opened RoomData

  class GameRoom {
    const id: string
    var hostId: PlayerId
    /** The key order shared by the `players` and `scores` Maps, which are always set and
        deleted together. */
    var order: seq<PlayerId>
    var players: map<PlayerId, Player>
    var scores: map<PlayerId, nat>
    var gameState: GameState
    var currentRound: nat
    var clock: Clock
    /** The key order of the `submissions` Map. */
    var subOrder: seq<PlayerId>
    var submissions: map<PlayerId, string>
    var roundResults: seq<RoundResult>
    /** How many rounds have been opened to submissions since the room was made. */
    ghost var roundsStarted: nat
    /** For every stored round result, the value of `roundsStarted` when it was scored. */
    ghost var scoredRounds: seq<nat>

    ghost predicate KeysOk()
      reads this`order, this`players, this`scores, this`hostId
    {
      KeysInv(order, players, scores, hostId)
    }

    ghost predicate SubsOk()
      reads this`subOrder, this`submissions, this`players
    {
      SubsInv(subOrder, submissions, players)
    }

    ghost predicate PhaseOk()
      reads this`gameState, this`currentRound, this`clock
    {
      PhaseInv(gameState, currentRound, clock)
    }

    ghost predicate ScoresOk()
      reads this`gameState, this`scores
    {
      FreshScoresInv(gameState, scores)
    }

    /** The room's invariant. */
    ghost predicate Valid()
      reads this
    {
      KeysOk() && SubsOk() && PhaseOk() && ScoresOk()
    }

    /** The round now open to submissions has not been scored. */
    ghost predicate Unscored()
      reads this`scoredRounds, this`roundsStarted
    {
      UnscoredInv(scoredRounds, roundsStarted)
    }

    /** Every round was scored at most once. */
    ghost predicate ScoredOnce()
      reads this`scoredRounds, this`roundsStarted, this`clock, this`roundResults
    {
      ScoredOnceInv(scoredRounds, roundsStarted, clock, |roundResults|)
    }

    /** The submissions of the current round, in the order players first submitted. */
    function Subs(): seq<Submission>
      reads this`subOrder, this`submissions, this`players
      requires SubsOk()
    {
      SubsOf(subOrder, submissions)
    }

    /** `Object.fromEntries(this.scores)`. */
    function ScoreEntries(): seq<ScoreEntry>
      reads this`order, this`players, this`scores, this`hostId
      requires KeysOk()
    {
      EntriesOf(order, scores)
    }

    /** The entries `endGame` ranks: every player's score and nickname, in insertion order. */
    function Standings(): seq<Standing>
      reads this`order, this`players, this`scores, this`hostId
      requires KeysOk()
    {
      StandingsOf(order, players, scores)
    }

    /** `submissions.size === players.size`. */
    predicate RoundComplete()
      reads this`subOrder, this`order
    {
      |subOrder| == |order|
    }

    /** The size test that ends a round holds exactly when every player has submitted. */
    lemma RoundCompleteIffAllSubmitted()
      requires Valid()
      ensures RoundComplete() <==> forall p :: p in players ==> p in submissions
    {
      CompleteIffAllSubmitted(order, players, scores, hostId, subOrder, submissions);
    }

    /** `getGameState` (server.js:220-230): the players in insertion order, exactly the host
        among them flagged as host, and every player's score. */
    function GetGameState(): (r: Snapshot)
      reads this`order, this`players, this`scores, this`hostId, this`gameState, this`currentRound
      requires KeysOk()
      ensures r.id == id && r.hostId == hostId && r.gameState == gameState && r.currentRound == currentRound
      ensures |r.players| == |order| && |r.scores| == |order|
      ensures forall k :: 0 <= k < |order| ==> r.players[k] == players[order[k]]
      ensures forall k :: 0 <= k < |order| ==> r.scores[k] == ScoreEntry(order[k], scores[order[k]])
      ensures forall k :: 0 <= k < |order| ==> r.players[k].id == order[k] && (r.players[k].isHost <==> order[k] == hostId)
      ensures |order| > 0 ==> exists k :: 0 <= k < |r.players| && r.players[k].isHost
    {
      PlayerListSpec(order, players, scores, hostId);
      Snapshot(id, hostId, PlayerList(order, players), gameState, currentRound, EntriesOf(order, scores))
    }

    /** `new GameRoom(roomId, hostId)` (server.js:61-72): no players yet, waiting. */
    constructor (roomId: string, host: PlayerId)
      ensures Valid() && ScoredOnce()
      ensures id == roomId && hostId == host && order == [] && players == map[] && scores == map[]
      ensures gameState == Waiting && currentRound == 0 && clock == NoTimer
      ensures subOrder == [] && submissions == map[] && roundResults == []
      ensures roundsStarted == 0 && scoredRounds == []
    {
      id := roomId;
      hostId := host;
      order, players, scores := [], map[], map[];
      gameState, currentRound, clock := Waiting, 0, NoTimer;
      subOrder, submissions, roundResults := [], map[], [];
      roundsStarted, scoredRounds := 0, [];
    }

    /** `addPlayer` (server.js:74-82): the player is set (a new one goes last, a present one
        keeps its place), flagged as host exactly when it is the host, and starts at score 0.
        In a waiting room, where nobody has scored yet, that lowers no score. */
    method AddPlayer(p: PlayerId, nickname: string)
      requires Valid()
      requires hostId in players || p == hostId
      modifies this`order, this`players, this`scores
      ensures Valid()
      ensures order == Insert(old(order), p)
      ensures players == old(players)[p := Player(p, nickname, p == hostId, true)]
      ensures scores == old(scores)[p := 0]
      ensures gameState == Waiting ==> forall q :: q in old(scores) ==> old(scores)[q] <= scores[q]
    {
      var o, ps, sc := Insert(order, p), players[p := Player(p, nickname, p == hostId, true)], scores[p := 0];
      AddKeepsKeys(order, players, scores, hostId, p, nickname, o, ps, sc);
      AddKeepsSubs(subOrder, submissions, players, ps);
      order, players, scores := o, ps, sc;
    }

    /** `removePlayer` (server.js:84-93): the player's entries in `players`, `scores` and
        `submissions` are deleted; if the host left and players remain, the earliest-inserted
        remaining player becomes host. */
    method RemovePlayer(p: PlayerId)
      requires Valid()
      modifies this`order, this`players, this`scores, this`hostId, this`subOrder, this`submissions
      ensures Valid()
      ensures order == Remove(old(order), p)
      ensures players.Keys == old(players).Keys - {p} && (order == [] <==> players == map[])
      ensures scores == old(scores) - {p}
      ensures subOrder == Remove(old(subOrder), p) && submissions == old(submissions) - {p}
      ensures if p == old(hostId) && |order| > 0 then
                && hostId == order[0] && hostId in old(players)
                && players == (old(players) - {p})[hostId := old(players)[hostId].(isHost := true)]
              else
                hostId == old(hostId) && players == old(players) - {p}
    {
      var o, ps, h := Remove(order, p), players - {p}, hostId;
      if p == hostId && |o| > 0 {
        RemoveFirst(order, p);
        h := o[0];
        ps := ps[h := ps[h].(isHost := true)];
      }
      var sc, so, sm := scores - {p}, Remove(subOrder, p), submissions - {p};
      RemoveKeepsKeys(order, players, scores, hostId, p, o, ps, sc, h);
      RemoveKeepsSubs(subOrder, submissions, players, p, so, sm, ps);
      Reseat(o, ps, sc, h, so, sm);
    }

    /** The room after `addPlayer(p, nickname)` compared with before: `p` is set in the key
        order, the players (flagged as host exactly when it is the host) and the scores (at
        0); the host, the game (state, round, timer, results) and the submissions are
        untouched. */
    twostate predicate Joined(p: PlayerId, nickname: string)
      reads this
    {
      && order == Insert(old(order), p)
      && players == old(players)[p := Player(p, nickname, p == hostId, true)]
      && scores == old(scores)[p := 0]
      && unchanged(this`hostId, this`gameState, this`currentRound, this`clock, this`subOrder, this`submissions, this`roundResults)
    }

    /** The room after `removePlayer(p)` compared with before: `p` is gone from the key
        order, the players, the scores and the submissions, which otherwise stay as they
        were; a departing host hands over to the earliest remaining player, whose record is
        flagged as host and otherwise kept; the game itself (state, round, timer, results) is
        untouched. */
    twostate predicate Vacated(p: PlayerId)
      reads this
    {
      && order == Remove(old(order), p)
      && (forall q :: q in players <==> q in old(players) && q != p)
      && scores == old(scores) - {p}
      && subOrder == Remove(old(subOrder), p) && submissions == old(submissions) - {p}
      && (if p == old(hostId) && order != [] then
            && hostId == order[0] && hostId in old(players)
            && players == (old(players) - {p})[hostId := old(players)[hostId].(isHost := true)]
          else
            hostId == old(hostId) && players == old(players) - {p})
      && unchanged(this`gameState, this`currentRound, this`clock, this`roundResults)
    }

    /** Replaces the players, their scores, the host and the submissions at once. */
    method Reseat(o: seq<PlayerId>, ps: map<PlayerId, Player>, sc: map<PlayerId, nat>, h: PlayerId,
                  so: seq<PlayerId>, sm: map<PlayerId, string>)
      requires Valid() && KeysInv(o, ps, sc, h) && SubsInv(so, sm, ps) && FreshScoresInv(gameState, sc)
      modifies this`order, this`players, this`scores, this`hostId, this`subOrder, this`submissions
      ensures Valid()
      ensures order == o && players == ps && scores == sc && hostId == h && subOrder == so && submissions == sm
    {
      order, players, scores, hostId := o, ps, sc, h;
      subOrder, submissions := so, sm;
    }

    /** `startGame` (server.js:95-103): refused, changing nothing, with fewer than two
        players; otherwise the game is playing from round 1 with no submissions. Scores and
        earlier round results are kept. */
    method StartGame() returns (ok: bool)
      requires Valid()
      modifies this`gameState, this`currentRound, this`submissions, this`subOrder, this`roundsStarted
      ensures Valid()
      ensures ok == (|order| >= MIN_PLAYERS)
      ensures !ok ==> unchanged(this)
      ensures ok ==> gameState == Playing && currentRound == 1 && subOrder == [] && submissions == map[]
      ensures ok ==> roundsStarted == old(roundsStarted) + 1
      ensures old(ScoredOnce()) ==> ScoredOnce()
      ensures ok && old(ScoredOnce()) ==> Unscored()
    {
      if |order| < MIN_PLAYERS {
        return false;
      }
      gameState, currentRound := Playing, 1;
      StartRound();
      return true;
    }

    /** `startRound` (server.js:105-113): the next round opens with no submissions. */
    method StartRound()
      requires Valid()
      modifies this`submissions, this`subOrder, this`roundsStarted
      ensures Valid()
      ensures subOrder == [] && submissions == map[]
      ensures roundsStarted == old(roundsStarted) + 1
      ensures old(ScoredOnce()) ==> ScoredOnce() && Unscored()
    {
      submissions, subOrder := map[], [];
      roundsStarted := roundsStarted + 1;
    }

    /** Sets the round timer (server.js:261, server.js:327). */
    method ArmRoundTimer()
      requires Valid() && gameState == Playing
      modifies this`clock
      ensures Valid() && clock == RoundTimer
      ensures old(ScoredOnce()) && Unscored() ==> ScoredOnce()
    {
      clock := RoundTimer;
    }

    /** `clearTimeout(this.roundTimer)` (server.js:121, server.js:237): a cleared timer never
        fires. */
    method ClearRoundTimer()
      requires Valid()
      modifies this`clock
      ensures Valid() && clock == NoTimer
      ensures old(ScoredOnce()) ==> ScoredOnce()
    {
      clock := NoTimer;
    }

    /** The countdown `handleRoundEnd` runs between rounds (server.js:249-254): the value its
        next tick shows. */
    method SetCountdown(next: int)
      requires Valid() && gameState == Playing && 0 <= next <= COUNTDOWN_FROM
      modifies this`clock
      ensures Valid() && clock == Countdown(next)
      ensures old(ScoredOnce()) ==> ScoredOnce()
    {
      clock := Countdown(next);
    }

    /** `submitWord` (server.js:115-125) with the round end left to its caller: refused,
        changing nothing, unless the game is playing; otherwise the normalised word is stored
        for the player (a re-submission overwrites the earlier word and keeps its place), and
        `complete` reports that every player has now submitted. */
    method SubmitWord(p: PlayerId, word: string) returns (accepted: bool, complete: bool)
      requires Valid() && p in players
      modifies this`submissions, this`subOrder
      ensures Valid()
      ensures accepted == (gameState == Playing)
      ensures !accepted ==> unchanged(this) && !complete
      ensures accepted ==> submissions == old(submissions)[p := Normalise(word)] && subOrder == Insert(old(subOrder), p)
      ensures complete == (accepted && RoundComplete())
    {
      if gameState != Playing {
        return false, false;
      }
      var so, sm := Insert(subOrder, p), submissions[p := Normalise(word)];
      SubmitKeepsSubs(subOrder, submissions, players, p, Normalise(word), so, sm);
      submissions, subOrder := sm, so;
      return true, |subOrder| == |order|;
    }

    /** `submitWord` exactly as written (server.js:115-125): the last submission clears the
        round timer and scores the round at once. */
    method SubmitWordAsWritten(p: PlayerId, word: string) returns (accepted: bool, complete: bool)
      requires Valid() && p in players
      modifies this`submissions, this`subOrder, this`clock, this`roundResults, this`scoredRounds, this`scores
      ensures Valid()
      ensures accepted == (gameState == Playing)
      ensures !accepted ==> unchanged(this)
      ensures accepted ==> submissions == old(submissions)[p := Normalise(word)] && subOrder == Insert(old(subOrder), p)
      ensures complete == (accepted && RoundComplete())
      ensures complete ==> clock == NoTimer && scoredRounds == old(scoredRounds) + [roundsStarted]
      ensures complete ==> roundResults == old(roundResults) + [RoundResult(currentRound, Subs(), RoundMatches(Subs()), old(ScoreEntries()))]
      ensures complete ==> forall q :: q in scores ==> scores[q] == old(scores)[q] + Gain(Subs(), q)
      ensures !complete ==> clock == old(clock) && roundResults == old(roundResults) && scoredRounds == old(scoredRounds) && scores == old(scores)
    {
      accepted, complete := SubmitWord(p, word);
      if complete {
        var _ := CloseRound();
      }
    }

    /** `clearTimeout(this.roundTimer)` followed by `this.endRound()` (server.js:121-122,
        server.js:237-238): the round timer is cleared and the round of a started game
        scored. */
    method CloseRound() returns (result: RoundResult)
      requires Valid() && gameState != Waiting
      modifies this`clock, this`roundResults, this`scoredRounds, this`scores
      ensures Valid() && clock == NoTimer
      ensures result == RoundResult(currentRound, Subs(), RoundMatches(Subs()), old(ScoreEntries()))
      ensures roundResults == old(roundResults) + [result]
      ensures scores.Keys == old(scores).Keys
      ensures forall q :: q in scores ==> scores[q] == old(scores)[q] + Gain(Subs(), q)
      ensures scoredRounds == old(scoredRounds) + [roundsStarted]
      ensures old(ScoredOnce()) && old(Unscored()) ==> ScoredOnce()
    {
      ClearRoundTimer();
      result := EndRound();
    }

    /** `calculateRoundScore` (server.js:172-201): the round, its submissions in order, its
        matches (exactly the correct ones), and the scores as they stand. */
    method CalculateRoundScore() returns (r: RoundResult)
      requires Valid()
      ensures r == RoundResult(currentRound, Subs(), RoundMatches(Subs()), ScoreEntries())
      ensures forall m :: m in r.matches <==> IsMatch(Subs(), m)
    {
      var matches := CalculateMatches(Subs());
      RoundMatchesExactly(Subs());
      r := RoundResult(currentRound, Subs(), matches, ScoreEntries());
    }

    /** `endRound` (server.js:128-139): exactly one result is stored, and every player of
        every match gains that match's points, which comes to what the round is worth to
        them; no score decreases. The stored scores are those before the points. Only a game
        that has started is scored. */
    method EndRound() returns (result: RoundResult)
      requires Valid() && gameState != Waiting
      modifies this`roundResults, this`scoredRounds, this`scores
      ensures Valid()
      ensures result == RoundResult(currentRound, Subs(), RoundMatches(Subs()), old(ScoreEntries()))
      ensures roundResults == old(roundResults) + [result]
      ensures scores.Keys == old(scores).Keys
      ensures forall q :: q in scores ==> scores[q] == old(scores)[q] + Gain(Subs(), q)
      ensures scoredRounds == old(scoredRounds) + [roundsStarted]
      ensures old(ScoredOnce()) && old(Unscored()) && clock != RoundTimer ==> ScoredOnce()
    {
      result := CalculateRoundScore();
      RoundScoring(order, players, scores, hostId, subOrder, submissions);
      var sc := AddMatchPoints(scores, result.matches);
      Record(result, sc);
    }

    /** Stores a round's result and the scores after it. */
    method Record(result: RoundResult, sc: map<PlayerId, nat>)
      requires Valid() && gameState != Waiting
      requires sc.Keys == scores.Keys
      modifies this`roundResults, this`scoredRounds, this`scores
      ensures Valid()
      ensures roundResults == old(roundResults) + [result]
      ensures scoredRounds == old(scoredRounds) + [roundsStarted]
      ensures scores == sc
      ensures old(ScoredOnce()) && old(Unscored()) && clock != RoundTimer ==> ScoredOnce()
    {
      RescoreKeepsKeys(order, players, scores, hostId, sc);
      if ScoredOnce() && Unscored() && clock != RoundTimer {
        RecordKeepsScoredOnce(scoredRounds, roundsStarted, clock, |roundResults|);
      }
      roundResults := roundResults + [result];
      scoredRounds := scoredRounds + [roundsStarted];
      scores := sc;
    }

    /** `checkWinCondition` (server.js:151-170): some non-empty word was submitted by as many
        players as the room has; with only players submitting, that is every player choosing
        that word. */
    method CheckWinCondition() returns (won: bool)
      requires Valid()
      ensures won == Unanimous(Subs(), |order|)
      ensures won <==> exists k :: 0 <= k < |subOrder| && submissions[subOrder[k]] != "" &&
                         forall q :: q in players ==> q in submissions && submissions[q] == submissions[subOrder[k]]
    {
      won := HasUnanimousWord(Subs(), |order|);
      WinIffAllAgree(order, players, scores, hostId, subOrder, submissions);
    }

    /** `processRoundEnd` (server.js:141-149): a won round ends the game; otherwise the round
        number goes up by one. */
    method ProcessRoundEnd() returns (status: RoundStatus)
      requires Valid() && gameState == Playing && clock == NoTimer
      modifies this`gameState, this`currentRound
      ensures Valid()
      ensures status == GameWon <==> Unanimous(Subs(), |order|)
      ensures status == GameWon ==> gameState == Finished && currentRound == old(currentRound)
      ensures status == Continue ==> gameState == Playing && currentRound == old(currentRound) + 1
    {
      var won := CheckWinCondition();
      if won {
        var _ := EndGame();
        return GameWon;
      } else {
        currentRound := currentRound + 1;
        return Continue;
      }
    }

    /** `endGame` (server.js:203-218): the game is finished and the final ranking is every
        player's score, highest first, ties in insertion order. Ending a finished game again
        changes nothing. */
    method EndGame() returns (result: GameResult)
      requires Valid() && clock == NoTimer
      modifies this`gameState
      ensures Valid() && gameState == Finished
      ensures result == GameResult(SortByScore(Standings()), roundResults)
      ensures multiset(result.finalScores) == multiset(Standings())
      ensures SortedByScore(result.finalScores)
      ensures forall k :: WithScore(result.finalScores, k) == WithScore(Standings(), k)
      ensures old(gameState) == Finished ==> unchanged(this)
    {
      SortByScoreSpec(Standings());
      result := GameResult(SortByScore(Standings()), roundResults);
      gameState := Finished;
    }
  }
}
