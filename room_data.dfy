/** The values a `GameRoom` (server.js:60-231) holds and the invariants that tie them
    together, stated on the values alone. */
module RoomData {
  import opened OrderedKeys
  import opened Normalisation
  import opened Scoring
  import opened Ranking

  /** How long a round lasts, in milliseconds. */
  const ROUND_TIME: nat := 30000
  /** The first value the between-rounds countdown shows. */
  const COUNTDOWN_FROM: nat := 5
  /** `startGame` refuses a room with fewer players. */
  const MIN_PLAYERS: nat := 2

  datatype GameState = Waiting | Playing | Finished

  /** A value of the `players` Map. */
  datatype Player = Player(id: PlayerId, nickname: string, isHost: bool, connected: bool)

  /** The room's pending timer: none, the round timer whose expiry ends the round, or the
      between-rounds countdown with the value its next tick shows. */
  datatype Clock = NoTimer | RoundTimer | Countdown(next: int)

  /** One entry of `Object.fromEntries(this.scores)`. */
  datatype ScoreEntry = ScoreEntry(player: PlayerId, score: nat)

  /** What `calculateRoundScore` returns and `endRound` stores: the scores are those before
      the round's points were added. */
  datatype RoundResult = RoundResult(round: nat, submissions: seq<Submission>, matches: seq<Match>, scores: seq<ScoreEntry>)

  /** What `endGame` returns. */
  datatype GameResult = GameResult(finalScores: seq<Standing>, roundResults: seq<RoundResult>)

  /** What `getGameState` returns (without `timeLeft`). */
  datatype Snapshot = Snapshot(id: string, hostId: PlayerId, players: seq<Player>, gameState: GameState,
                               currentRound: nat, scores: seq<ScoreEntry>)

  datatype RoundStatus = GameWon | Continue

  /** The submissions in the `submissions` Map's key order. */
  function SubsOf(keys: seq<PlayerId>, words: map<PlayerId, string>): (r: seq<Submission>)
    requires forall k :: 0 <= k < |keys| ==> keys[k] in words
    ensures |r| == |keys| && Players(r) == keys
    ensures forall k :: 0 <= k < |keys| ==> r[k] == Submission(keys[k], words[keys[k]])
    ensures forall s :: s in r <==> s.player in keys && words[s.player] == s.word
  {
    var r := seq(|keys|, k requires 0 <= k < |keys| => Submission(keys[k], words[keys[k]]));
    assert forall s :: s in r ==> s.player in keys by {
      forall s | s in r ensures s.player in keys {
        var k :| 0 <= k < |r| && r[k] == s;
      }
    }
    forall s: Submission | s.player in keys && words[s.player] == s.word ensures s in r {
      var k :| 0 <= k < |keys| && keys[k] == s.player;
      assert r[k] == s;
    }
    r
  }

  /** The score entries in the `scores` Map's key order: an entry is in the list exactly when
      it pairs a key with that key's score. */
  function EntriesOf(keys: seq<PlayerId>, scores: map<PlayerId, nat>): (r: seq<ScoreEntry>)
    requires forall k :: 0 <= k < |keys| ==> keys[k] in scores
    ensures |r| == |keys|
    ensures forall k :: 0 <= k < |keys| ==> r[k] == ScoreEntry(keys[k], scores[keys[k]])
    ensures forall e :: e in r <==> e.player in keys && e.score == scores[e.player]
  {
    var r := seq(|keys|, k requires 0 <= k < |keys| => ScoreEntry(keys[k], scores[keys[k]]));
    forall e | e in r ensures e.player in keys && e.score == scores[e.player] {
      var k :| 0 <= k < |r| && r[k] == e;
    }
    forall e: ScoreEntry | e.player in keys && e.score == scores[e.player] ensures e in r {
      var k :| 0 <= k < |keys| && keys[k] == e.player;
      assert r[k] == e;
    }
    r
  }

  /** The values of the `players` Map in its key order. */
  function PlayerList(order: seq<PlayerId>, players: map<PlayerId, Player>): (r: seq<Player>)
    requires forall k :: 0 <= k < |order| ==> order[k] in players
    ensures |r| == |order|
    ensures forall k :: 0 <= k < |order| ==> r[k] == players[order[k]]
  {
    seq(|order|, k requires 0 <= k < |order| => players[order[k]])
  }

  /** The entries `endGame` ranks: every player's score and nickname, in insertion order. */
  function StandingsOf(order: seq<PlayerId>, players: map<PlayerId, Player>, scores: map<PlayerId, nat>): (r: seq<Standing>)
    requires forall k :: 0 <= k < |order| ==> order[k] in players && order[k] in scores
    ensures |r| == |order|
    ensures forall k :: 0 <= k < |order| ==> r[k] == Standing(order[k], players[order[k]].nickname, scores[order[k]])
  {
    seq(|order|, k requires 0 <= k < |order| => Standing(order[k], players[order[k]].nickname, scores[order[k]]))
  }

  /** The players and their scores: one key order for both Maps, exactly the host flagged
      as host, and the host present while anyone is. */
  ghost predicate KeysInv(order: seq<PlayerId>, players: map<PlayerId, Player>, scores: map<PlayerId, nat>, hostId: PlayerId) {
    && Distinct(order)
    && (forall p :: p in players <==> p in order)
    && scores.Keys == players.Keys
    && (forall k :: 0 <= k < |order| ==> order[k] in players)
    && (forall p :: p in players ==> players[p].id == p && (players[p].isHost <==> p == hostId))
    && (|order| > 0 ==> hostId in players)
  }

  /** The submissions: their key order matches their Map, and only players submit. */
  ghost predicate SubsInv(subOrder: seq<PlayerId>, submissions: map<PlayerId, string>, players: map<PlayerId, Player>) {
    && Distinct(subOrder)
    && (forall p :: p in submissions <==> p in subOrder)
    && (forall k :: 0 <= k < |subOrder| ==> subOrder[k] in submissions)
    && (forall p :: p in submissions ==> p in players)
  }

  /** The phase: a waiting room has not started a round, a playing game is in round 1 or
      later, and only a playing game has a timer pending. */
  ghost predicate PhaseInv(gameState: GameState, currentRound: nat, clock: Clock) {
    && (gameState == Waiting ==> currentRound == 0)
    && (gameState == Playing ==> currentRound >= 1)
    && (clock != NoTimer ==> gameState == Playing)
    && (clock.Countdown? ==> 0 <= clock.next <= COUNTDOWN_FROM)
  }

  /** A waiting room has never scored a round, so every score in it is still 0. */
  ghost predicate FreshScoresInv(gameState: GameState, scores: map<PlayerId, nat>) {
    gameState == Waiting ==> forall q :: q in scores ==> scores[q] == 0
  }

  /** `addPlayer` keeps the players and scores consistent. */
  lemma AddKeepsKeys(order: seq<PlayerId>, players: map<PlayerId, Player>, scores: map<PlayerId, nat>, hostId: PlayerId,
                     p: PlayerId, nickname: string, o: seq<PlayerId>, ps: map<PlayerId, Player>, sc: map<PlayerId, nat>)
    requires KeysInv(order, players, scores, hostId) && (hostId in players || p == hostId)
    requires o == Insert(order, p) && ps == players[p := Player(p, nickname, p == hostId, true)] && sc == scores[p := 0]
    ensures KeysInv(o, ps, sc, hostId)
  {
    InsertSpec(order, p);
    assert forall q :: q in ps ==> ps[q] == if q == p then Player(p, nickname, p == hostId, true) else players[q];
  }

  /** Adding players keeps the submissions consistent. */
  lemma AddKeepsSubs(subOrder: seq<PlayerId>, submissions: map<PlayerId, string>, players: map<PlayerId, Player>,
                     bigger: map<PlayerId, Player>)
    requires SubsInv(subOrder, submissions, players)
    requires forall q :: q in players ==> q in bigger
    ensures SubsInv(subOrder, submissions, bigger)
  {
  }

  /** `removePlayer` keeps the players and scores consistent, the host migrating to the
      earliest-inserted remaining player. */
  lemma RemoveKeepsKeys(order: seq<PlayerId>, players: map<PlayerId, Player>, scores: map<PlayerId, nat>, hostId: PlayerId,
                        p: PlayerId, o: seq<PlayerId>, ps: map<PlayerId, Player>, sc: map<PlayerId, nat>, h: PlayerId)
    requires KeysInv(order, players, scores, hostId)
    requires o == Remove(order, p) && sc == scores - {p}
    requires if p == hostId && |o| > 0 then h == o[0] && h in players && ps == (players - {p})[h := players[h].(isHost := true)]
             else h == hostId && ps == players - {p}
    ensures KeysInv(o, ps, sc, h)
  {
    RemoveSpec(order, p);
  }

  /** `removePlayer` keeps the submissions consistent. */
  lemma RemoveKeepsSubs(subOrder: seq<PlayerId>, submissions: map<PlayerId, string>, players: map<PlayerId, Player>,
                        p: PlayerId, so: seq<PlayerId>, sm: map<PlayerId, string>, after: map<PlayerId, Player>)
    requires SubsInv(subOrder, submissions, players)
    requires so == Remove(subOrder, p) && sm == submissions - {p}
    requires forall q :: q in players && q != p ==> q in after
    ensures SubsInv(so, sm, after)
  {
    RemoveSpec(subOrder, p);
  }

  /** A player's submission keeps the submissions consistent. */
  lemma SubmitKeepsSubs(subOrder: seq<PlayerId>, submissions: map<PlayerId, string>, players: map<PlayerId, Player>,
                        p: PlayerId, w: string, so: seq<PlayerId>, sm: map<PlayerId, string>)
    requires SubsInv(subOrder, submissions, players) && p in players
    requires so == Insert(subOrder, p) && sm == submissions[p := w]
    ensures SubsInv(so, sm, players)
  {
    InsertSpec(subOrder, p);
  }

  /** Changing scores but no keys keeps the players and scores consistent. */
  lemma RescoreKeepsKeys(order: seq<PlayerId>, players: map<PlayerId, Player>, scores: map<PlayerId, nat>, hostId: PlayerId,
                         sc: map<PlayerId, nat>)
    requires KeysInv(order, players, scores, hostId)
    requires sc.Keys == scores.Keys
    ensures KeysInv(order, players, sc, hostId)
  {
  }

  lemma MulSucc(n: nat, k: nat)
    ensures (n + 1) * k == n * k + k
  {
  }

  /** The two `forEach` loops of `endRound` (server.js:132-136): every player of every match
      gains that match's points. No key is added or removed, and each player gains the points
      of every match, once per time they are listed in it. */
  method AddMatchPoints(scores: map<PlayerId, nat>, ms: seq<Match>) returns (r: map<PlayerId, nat>)
    requires forall i, j :: 0 <= i < |ms| && 0 <= j < |ms[i].players| ==> ms[i].players[j] in scores
    ensures r.Keys == scores.Keys
    ensures forall q :: q in r ==> r[q] == scores[q] + Credit(ms, q)
  {
    r := scores;
    var i := 0;
    while i < |ms|
      invariant 0 <= i <= |ms|
      invariant forall q :: q in r <==> q in scores
      invariant forall q :: q in r ==> r[q] == scores[q] + Credit(ms[..i], q)
    {
      var m := ms[i];
      assert ms[..i + 1][..i] == ms[..i];
      var j := 0;
      while j < |m.players|
        invariant 0 <= j <= |m.players|
        invariant forall q :: q in r <==> q in scores
        invariant forall q :: q in r ==> r[q] == scores[q] + Credit(ms[..i], q) + Occ(m.players[..j], q) * m.points
      {
        var pid := m.players[j];
        assert m.players[..j + 1][..j] == m.players[..j];
        var r' := r[pid := r[pid] + m.points];
        forall q | q in r'
          ensures r'[q] == scores[q] + Credit(ms[..i], q) + Occ(m.players[..j + 1], q) * m.points
        {
          var n := Occ(m.players[..j], q);
          assert Occ(m.players[..j + 1], q) == n + (if pid == q then 1 else 0);
          MulSucc(n, m.points);
        }
        r := r';
        j := j + 1;
      }
      assert m.players[..j] == m.players;
      i := i + 1;
    }
    assert ms[..i] == ms;
  }

  /** Each recorded round comes after the one recorded before it. */
  ghost predicate Increasing(s: seq<nat>) {
    forall i :: 0 < i < |s| ==> s[i - 1] < s[i]
  }

  /** The last round recorded as scored comes before the one numbered `started`. */
  ghost predicate UnscoredInv(scoredRounds: seq<nat>, started: nat) {
    |scoredRounds| > 0 ==> scoredRounds[|scoredRounds| - 1] < started
  }

  /** Every round was scored at most once: one record per stored result, the rounds recorded
      as scored increasing and none in the future, and while the round timer runs its round
      has not been scored yet. */
  ghost predicate ScoredOnceInv(scoredRounds: seq<nat>, started: nat, clock: Clock, results: nat) {
    && |scoredRounds| == results
    && Increasing(scoredRounds)
    && (|scoredRounds| > 0 ==> scoredRounds[|scoredRounds| - 1] <= started)
    && (clock == RoundTimer ==> UnscoredInv(scoredRounds, started))
  }

  /** In an increasing record every entry is below every later one. */
  lemma {:induction false} IncreasingApart(s: seq<nat>, i: nat, j: nat)
    requires Increasing(s) && i < j < |s|
    ensures s[i] < s[j]
  {
    if i + 1 < j {
      IncreasingApart(s, i, j - 1);
    }
  }

  /** While a round is unscored, no record names it or any later round. */
  lemma UnscoredMeansFresh(scoredRounds: seq<nat>, started: nat)
    requires Increasing(scoredRounds) && UnscoredInv(scoredRounds, started)
    ensures forall k :: 0 <= k < |scoredRounds| ==> scoredRounds[k] < started
  {
    forall k | 0 <= k < |scoredRounds| - 1 ensures scoredRounds[k] < started {
      IncreasingApart(scoredRounds, k, |scoredRounds| - 1);
    }
  }

  /** Recording the score of a round that had not been scored keeps every round scored at
      most once. */
  lemma RecordKeepsScoredOnce(scoredRounds: seq<nat>, started: nat, clock: Clock, results: nat)
    requires ScoredOnceInv(scoredRounds, started, clock, results) && UnscoredInv(scoredRounds, started)
    requires clock != RoundTimer
    ensures ScoredOnceInv(scoredRounds + [started], started, clock, results + 1)
  {
  }

  /** Under the invariant no round number is recorded as scored twice. */
  lemma ScoredAtMostOnce(scoredRounds: seq<nat>, started: nat, clock: Clock, results: nat, i: nat, j: nat)
    requires ScoredOnceInv(scoredRounds, started, clock, results)
    requires i < j < |scoredRounds|
    ensures scoredRounds[i] != scoredRounds[j]
  {
    IncreasingApart(scoredRounds, i, j);
  }

  /** The listed players carry their own ids, exactly the host is flagged as host, and the
      host is listed while anyone is. */
  lemma PlayerListSpec(order: seq<PlayerId>, players: map<PlayerId, Player>, scores: map<PlayerId, nat>, hostId: PlayerId)
    requires KeysInv(order, players, scores, hostId)
    ensures forall k :: 0 <= k < |order| ==>
              PlayerList(order, players)[k].id == order[k] && (PlayerList(order, players)[k].isHost <==> order[k] == hostId)
    ensures |order| > 0 ==> exists k :: 0 <= k < |order| && PlayerList(order, players)[k].isHost
  {
    if |order| > 0 {
      var k :| 0 <= k < |order| && order[k] == hostId;
      assert PlayerList(order, players)[k].isHost;
    }
  }

  /** The size test `submissions.size === players.size` holds exactly when every player has
      submitted. */
  lemma CompleteIffAllSubmitted(order: seq<PlayerId>, players: map<PlayerId, Player>, scores: map<PlayerId, nat>,
                                hostId: PlayerId, subOrder: seq<PlayerId>, submissions: map<PlayerId, string>)
    requires KeysInv(order, players, scores, hostId) && SubsInv(subOrder, submissions, players)
    ensures |subOrder| == |order| <==> forall p :: p in players ==> p in submissions
  {
    assert forall i :: 0 <= i < |subOrder| ==> subOrder[i] in order by {
      forall i | 0 <= i < |subOrder| ensures subOrder[i] in order {
        assert subOrder[i] in submissions && subOrder[i] in players;
      }
    }
    if |subOrder| == |order| {
      SameSizeSubset(subOrder, order);
      forall q | q in players ensures q in submissions {
        var i :| 0 <= i < |order| && order[i] == q;
      }
    }
    if forall q :: q in players ==> q in submissions {
      SameKeysSameSize(subOrder, order);
    }
  }

  /** The win condition holds exactly when some player's non-empty word is every player's word. */
  lemma WinIffAllAgree(order: seq<PlayerId>, players: map<PlayerId, Player>, scores: map<PlayerId, nat>,
                       hostId: PlayerId, subOrder: seq<PlayerId>, submissions: map<PlayerId, string>)
    requires KeysInv(order, players, scores, hostId) && SubsInv(subOrder, submissions, players)
    ensures Unanimous(SubsOf(subOrder, submissions), |order|) <==>
              exists k :: 0 <= k < |subOrder| && submissions[subOrder[k]] != "" &&
                forall q :: q in players ==> q in submissions && submissions[q] == submissions[subOrder[k]]
  {
    var subs := SubsOf(subOrder, submissions);
    UnanimousIffEveryone(subs, order);
  }

  /** The round's matches list only players, and what they credit a player is what the round
      is worth to that player. */
  lemma RoundScoring(order: seq<PlayerId>, players: map<PlayerId, Player>, scores: map<PlayerId, nat>,
                     hostId: PlayerId, subOrder: seq<PlayerId>, submissions: map<PlayerId, string>)
    requires KeysInv(order, players, scores, hostId) && SubsInv(subOrder, submissions, players)
    ensures var ms := RoundMatches(SubsOf(subOrder, submissions));
              forall i, j :: 0 <= i < |ms| && 0 <= j < |ms[i].players| ==> ms[i].players[j] in scores
    ensures forall q :: Credit(RoundMatches(SubsOf(subOrder, submissions)), q) == Gain(SubsOf(subOrder, submissions), q)
  {
    var subs := SubsOf(subOrder, submissions);
    var ms := RoundMatches(subs);
    forall i, j | 0 <= i < |ms| && 0 <= j < |ms[i].players| ensures ms[i].players[j] in scores {
      MatchPlayersSubmitted(subs, ms[i], ms[i].players[j]);
    }
    forall q ensures Credit(ms, q) == Gain(subs, q) {
      CreditIsGain(subs, q);
    }
  }
}
