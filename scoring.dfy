/** The matching and scoring engine: `calculateRoundScore` and `checkWinCondition`
    (server.js:151-193), over the round's submissions in the iteration order of the
    `submissions` Map. The grouping they do with a local `wordGroups` Map is specified by
    functions; the two `forEach` implementations are methods proved equal to them. */
module Scoring {
  import opened OrderedKeys

  /** A socket id. The code only compares socket ids and uses them as Map keys. */
  type PlayerId = string

  datatype Option<T> = None | Some(value: T)

  /** One entry of the `submissions` Map: a player and the normalised word stored for them. */
  datatype Submission = Submission(player: PlayerId, word: string)

  /** One element of a round's `matches`: a word, the players who chose it, in submission
      order, and the points credited to each of them. */
  datatype Match = Match(word: string, players: seq<PlayerId>, points: nat)

  /** Points a match is worth for each player in it (server.js:186). */
  const POINTS_PER_PLAYER: nat := 10

  // ---------------------------------------------------------------------------------------
  // Reference definitions

  /** The players who submitted, in submission order (the keys of the `submissions` Map). */
  function Players(subs: seq<Submission>): seq<PlayerId> {
    seq(|subs|, k requires 0 <= k < |subs| => subs[k].player)
  }

  /** The submitted words, in submission order, repetitions included. */
  function Words(subs: seq<Submission>): seq<string> {
    seq(|subs|, k requires 0 <= k < |subs| => subs[k].word)
  }

  /** No player has two entries: what a Map's keys guarantee. */
  predicate OnePerPlayer(subs: seq<Submission>) {
    Distinct(Players(subs))
  }

  /** The position of the first submission of `w`. */
  function FirstIndex(subs: seq<Submission>, w: string): (i: nat)
    requires w in Words(subs)
    ensures i < |subs| && subs[i].word == w
    ensures forall k :: 0 <= k < i ==> subs[k].word != w
  {
    var init := subs[..|subs| - 1];
    assert Words(subs) == Words(init) + [subs[|subs| - 1].word];
    if w in Words(init) then FirstIndex(init, w)
    else
      assert forall k :: 0 <= k < |init| ==> Words(init)[k] == subs[k].word;
      |subs| - 1
  }

  /** The players who submitted `w`, in submission order. */
  function PlayersOf(subs: seq<Submission>, w: string): seq<PlayerId> {
    if subs == [] then []
    else
      var init, last := subs[..|subs| - 1], subs[|subs| - 1];
      PlayersOf(init, w) + (if last.word == w then [last.player] else [])
  }

  /** The word `p` submitted, if any. */
  function WordOf(subs: seq<Submission>, p: PlayerId): Option<string> {
    if subs == [] then None
    else
      var init, last := subs[..|subs| - 1], subs[|subs| - 1];
      if last.player == p then Some(last.word) else WordOf(init, p)
  }

  /** The distinct words in the order they were first submitted: the key order a
      `wordGroups` Map built by one pass over the submissions ends up with. */
  function FirstSeen(subs: seq<Submission>): seq<string> {
    if subs == [] then []
    else
      var init, last := subs[..|subs| - 1], subs[|subs| - 1];
      var p := FirstSeen(init);
      if last.word in p then p else p + [last.word]
  }

  /** A correct entry of `matches` for these submissions: a non-empty word chosen by at least
      two players, listing exactly those players in submission order, and worth 10 points per
      player in it. */
  predicate IsMatch(subs: seq<Submission>, m: Match) {
    && m.word != ""
    && |PlayersOf(subs, m.word)| >= 2
    && m.players == PlayersOf(subs, m.word)
    && m.points == POINTS_PER_PLAYER * |m.players|
  }

  /** The matches for the words `ws`, in the order of `ws`. */
  function MatchesOver(ws: seq<string>, subs: seq<Submission>): seq<Match> {
    if ws == [] then []
    else
      var init, w := ws[..|ws| - 1], ws[|ws| - 1];
      var g := PlayersOf(subs, w);
      MatchesOver(init, subs)
        + (if |g| > 1 && w != "" then [Match(w, g, POINTS_PER_PLAYER * |g|)] else [])
  }

  /** The distinct non-empty words in the order they were first submitted: the key order of
      `checkWinCondition`'s `wordGroups`. */
  function NonEmptyFirstSeen(subs: seq<Submission>): seq<string> {
    if subs == [] then []
    else
      var init, last := subs[..|subs| - 1], subs[|subs| - 1];
      var p := NonEmptyFirstSeen(init);
      if last.word in p || last.word == "" then p else p + [last.word]
  }

  /** The `matches` of a round: one per word of the round, in first-seen order, that is a match. */
  function RoundMatches(subs: seq<Submission>): seq<Match> {
    MatchesOver(FirstSeen(subs), subs)
  }

  /** The win condition: some non-empty word was submitted by exactly `n` players. */
  ghost predicate Unanimous(subs: seq<Submission>, n: nat) {
    exists k :: 0 <= k < |subs| && subs[k].word != "" && |PlayersOf(subs, subs[k].word)| == n
  }

  /** How many times `p` occurs in `ps`. */
  function Occ(ps: seq<PlayerId>, p: PlayerId): nat {
    if ps == [] then 0
    else Occ(ps[..|ps| - 1], p) + (if ps[|ps| - 1] == p then 1 else 0)
  }

  /** The points the `endRound` loops add to `p`'s score for the matches `ms`: each match's
      points once per time `p` appears among its players. */
  function Credit(ms: seq<Match>, p: PlayerId): nat {
    if ms == [] then 0
    else Credit(ms[..|ms| - 1], p) + Occ(ms[|ms| - 1].players, p) * ms[|ms| - 1].points
  }

  /** What a round is worth to `p`, stated independently of the grouping: 10 points per player who
      chose the same non-empty word, if at least two did; nothing for a lone or empty word or for
      no submission. */
  function Gain(subs: seq<Submission>, p: PlayerId): nat {
    match WordOf(subs, p)
    case None => 0
    case Some(w) =>
      var n := |PlayersOf(subs, w)|;
      if w != "" && n >= 2 then POINTS_PER_PLAYER * n else 0
  }

  // ---------------------------------------------------------------------------------------
  // Properties of the reference definitions

  /** Splitting off the last submission. */
  lemma SplitLast(subs: seq<Submission>)
    requires subs != []
    ensures subs == subs[..|subs| - 1] + [subs[|subs| - 1]]
    ensures Players(subs) == Players(subs[..|subs| - 1]) + [subs[|subs| - 1].player]
    ensures Words(subs) == Words(subs[..|subs| - 1]) + [subs[|subs| - 1].word]
  {
  }

  /** The players of `w` are exactly those with a submission of `w`, none twice, and there are
      none if nobody submitted `w`. */
  lemma {:induction false} PlayersOfSpec(subs: seq<Submission>, w: string)
    ensures forall p :: p in PlayersOf(subs, w) <==> Submission(p, w) in subs
    ensures OnePerPlayer(subs) ==> Distinct(PlayersOf(subs, w))
    ensures w !in Words(subs) ==> PlayersOf(subs, w) == []
  {
    if subs != [] {
      var init, last := subs[..|subs| - 1], subs[|subs| - 1];
      SplitLast(subs);
      SubmittersArePlayers(init);
      PlayersOfSpec(init, w);
      if OnePerPlayer(subs) {
        DistinctAppend(Players(init), last.player);
        if last.word == w {
          assert last.player !in PlayersOf(init, w);
          assert PlayersOf(subs, w) == PlayersOf(init, w) + [last.player];
          DistinctAppend(PlayersOf(init, w), last.player);
        } else {
          assert PlayersOf(subs, w) == PlayersOf(init, w);
        }
      }
    }
  }

  /** `p` has a word exactly when `p` submitted, and that word is `p`'s submission; with one entry
      per player it is the only one. */
  lemma {:induction false} WordOfSpec(subs: seq<Submission>, p: PlayerId)
    ensures WordOf(subs, p).Some? <==> p in Players(subs)
    ensures WordOf(subs, p).Some? ==> Submission(p, WordOf(subs, p).value) in subs
    ensures OnePerPlayer(subs) ==> forall w :: Submission(p, w) in subs ==> WordOf(subs, p) == Some(w)
  {
    if subs != [] {
      var init, last := subs[..|subs| - 1], subs[|subs| - 1];
      SplitLast(subs);
      SubmittersArePlayers(init);
      WordOfSpec(init, p);
      if OnePerPlayer(subs) {
        DistinctAppend(Players(init), last.player);
        forall w | Submission(p, w) in subs ensures WordOf(subs, p) == Some(w) {
        }
      }
    }
  }

  /** The first-seen words: each submitted word once, and nothing else, ordered by first
      submission. */
  lemma {:induction false} FirstSeenSpec(subs: seq<Submission>)
    ensures Distinct(FirstSeen(subs))
    ensures forall w :: w in FirstSeen(subs) <==> w in Words(subs)
    ensures forall i, j :: 0 <= i < j < |FirstSeen(subs)| ==>
              FirstIndex(subs, FirstSeen(subs)[i]) < FirstIndex(subs, FirstSeen(subs)[j])
  {
    if subs != [] {
      var init, last := subs[..|subs| - 1], subs[|subs| - 1];
      SplitLast(subs);
      FirstSeenSpec(init);
      var p := FirstSeen(init);
      if last.word !in p {
        DistinctAppend(p, last.word);
        assert forall i :: 0 <= i < |p| ==> FirstIndex(subs, p[i]) == FirstIndex(init, p[i]) < |init|;
      } else {
        assert forall i :: 0 <= i < |p| ==> FirstIndex(subs, p[i]) == FirstIndex(init, p[i]);
      }
    }
  }

  /** The non-empty first-seen words are the submitted words other than the empty one. */
  lemma {:induction false} NonEmptyFirstSeenSpec(subs: seq<Submission>)
    ensures forall w :: w in NonEmptyFirstSeen(subs) <==> w in Words(subs) && w != ""
  {
    if subs != [] {
      SplitLast(subs);
      NonEmptyFirstSeenSpec(subs[..|subs| - 1]);
    }
  }

  /** Every submission's player is among the submitting players. */
  lemma SubmittersArePlayers(subs: seq<Submission>)
    ensures forall s :: s in subs ==> s.player in Players(subs)
  {
    forall s | s in subs ensures s.player in Players(subs) {
      var k :| 0 <= k < |subs| && subs[k] == s;
      assert Players(subs)[k] == s.player;
    }
  }

  /** The matches for `ws` are exactly the correct matches whose word is in `ws`. */
  lemma {:induction false} MatchesOverSpec(ws: seq<string>, subs: seq<Submission>)
    ensures forall m :: m in MatchesOver(ws, subs) <==> m.word in ws && IsMatch(subs, m)
  {
    if ws != [] {
      var init, w := ws[..|ws| - 1], ws[|ws| - 1];
      assert ws == init + [w];
      MatchesOverSpec(init, subs);
    }
  }

  /** A round's matches are exactly the correct matches: one for every non-empty word chosen by
      at least two players, and no other. */
  lemma RoundMatchesExactly(subs: seq<Submission>)
    ensures forall m :: m in RoundMatches(subs) <==> IsMatch(subs, m)
  {
    FirstSeenSpec(subs);
    MatchesOverSpec(FirstSeen(subs), subs);
    forall m | IsMatch(subs, m) ensures m.word in FirstSeen(subs) {
      PlayersOfSpec(subs, m.word);
    }
  }

  /** Matches for words in first-submitted order come in that order. */
  lemma {:induction false} MatchesOverOrdered(ws: seq<string>, subs: seq<Submission>)
    requires forall w :: w in ws ==> w in Words(subs)
    requires forall i, j :: 0 <= i < j < |ws| ==> FirstIndex(subs, ws[i]) < FirstIndex(subs, ws[j])
    ensures forall m :: m in MatchesOver(ws, subs) ==> m.word in ws
    ensures forall i, j :: 0 <= i < j < |MatchesOver(ws, subs)| ==>
              FirstIndex(subs, MatchesOver(ws, subs)[i].word) < FirstIndex(subs, MatchesOver(ws, subs)[j].word)
  {
    MatchesOverSpec(ws, subs);
    if ws != [] {
      var init, w := ws[..|ws| - 1], ws[|ws| - 1];
      assert ws == init + [w];
      MatchesOverOrdered(init, subs);
      var a := MatchesOver(init, subs);
      forall m | m in a ensures FirstIndex(subs, m.word) < FirstIndex(subs, w) {
        var i :| 0 <= i < |init| && init[i] == m.word;
        assert ws[i] == m.word;
      }
      var g := PlayersOf(subs, w);
      if |g| > 1 && w != "" {
        OrderedAppend(a, Match(w, g, POINTS_PER_PLAYER * |g|), subs);
      }
    }
  }

  /** A match whose word was first submitted after every word of an ordered list of matches
      extends that list in order. */
  lemma OrderedAppend(a: seq<Match>, m: Match, subs: seq<Submission>)
    requires m.word in Words(subs) && forall n :: n in a ==> n.word in Words(subs)
    requires forall i, j :: 0 <= i < j < |a| ==> FirstIndex(subs, a[i].word) < FirstIndex(subs, a[j].word)
    requires forall n :: n in a ==> FirstIndex(subs, n.word) < FirstIndex(subs, m.word)
    ensures forall i, j :: 0 <= i < j < |a + [m]| ==>
              FirstIndex(subs, (a + [m])[i].word) < FirstIndex(subs, (a + [m])[j].word)
  {
    var r := a + [m];
    forall i, j | 0 <= i < j < |r| ensures FirstIndex(subs, r[i].word) < FirstIndex(subs, r[j].word) {
      assert r[i] == a[i] && a[i] in a;
    }
  }

  /** The matches of a round are listed in the order their words were first submitted
      (so no word is listed twice). */
  lemma RoundMatchesOrdered(subs: seq<Submission>)
    ensures forall m :: m in RoundMatches(subs) ==> m.word in Words(subs)
    ensures forall i, j :: 0 <= i < j < |RoundMatches(subs)| ==>
              FirstIndex(subs, RoundMatches(subs)[i].word) < FirstIndex(subs, RoundMatches(subs)[j].word)
  {
    FirstSeenSpec(subs);
    MatchesOverSpec(FirstSeen(subs), subs);
    MatchesOverOrdered(FirstSeen(subs), subs);
  }

  /** Every player listed in a match submitted that match's word. */
  lemma MatchPlayersSubmitted(subs: seq<Submission>, m: Match, p: PlayerId)
    requires m in RoundMatches(subs) && p in m.players
    ensures Submission(p, m.word) in subs && p in Players(subs)
  {
    RoundMatchesExactly(subs);
    PlayersOfSpec(subs, m.word);
    var k :| 0 <= k < |subs| && subs[k] == Submission(p, m.word);
    assert Players(subs)[k] == p;
  }

  lemma OccAppend(a: seq<PlayerId>, b: seq<PlayerId>, p: PlayerId)
    ensures Occ(a + b, p) == Occ(a, p) + Occ(b, p)
  {
    if b != [] {
      assert (a + b)[..|a + b| - 1] == a + b[..|b| - 1];
      OccAppend(a, b[..|b| - 1], p);
    } else {
      assert a + b == a;
    }
  }

  /** With one entry per player, `p` is listed among the players of `w` once if `p` submitted
      `w` and not at all otherwise. */
  lemma {:induction false} OccPlayersOf(subs: seq<Submission>, w: string, p: PlayerId)
    requires OnePerPlayer(subs)
    ensures Occ(PlayersOf(subs, w), p) == if WordOf(subs, p) == Some(w) then 1 else 0
  {
    if subs != [] {
      var init, last := subs[..|subs| - 1], subs[|subs| - 1];
      SplitLast(subs);
      DistinctAppend(Players(init), last.player);
      OccPlayersOf(init, w, p);
      WordOfSpec(init, p);
      var tail := if last.word == w then [last.player] else [];
      OccAppend(PlayersOf(init, w), tail, p);
      assert Occ(tail, p) == if last.word == w && last.player == p then 1 else 0 by {
        if tail != [] { assert tail[..0] == []; }
      }
    }
  }

  lemma CreditAppend(a: seq<Match>, m: Match, p: PlayerId)
    ensures Credit(a + [m], p) == Credit(a, p) + Occ(m.players, p) * m.points
  {
    assert (a + [m])[..|a|] == a;
  }

  lemma CreditAppendNone(a: seq<Match>, p: PlayerId)
    ensures Credit(a + [], p) == Credit(a, p)
  {
    assert a + [] == a;
  }

  /** What `p` is credited for the words `ws`: the points of `p`'s word if it is one of them. */
  function GainOver(ws: seq<string>, subs: seq<Submission>, p: PlayerId): nat {
    match WordOf(subs, p)
    case None => 0
    case Some(w) =>
      var n := |PlayersOf(subs, w)|;
      if w in ws && w != "" && n >= 2 then POINTS_PER_PLAYER * n else 0
  }

  /** The match, if any, for the last of the words `ws` adds its points to `p` if `p` chose it. */
  lemma CreditStep(ws: seq<string>, subs: seq<Submission>, p: PlayerId)
    requires OnePerPlayer(subs) && ws != []
    ensures var w, g := ws[|ws| - 1], PlayersOf(subs, ws[|ws| - 1]);
      Credit(MatchesOver(ws, subs), p) == Credit(MatchesOver(ws[..|ws| - 1], subs), p)
        + (if WordOf(subs, p) == Some(w) && w != "" && |g| >= 2 then POINTS_PER_PLAYER * |g| else 0)
  {
    var init, w := ws[..|ws| - 1], ws[|ws| - 1];
    var g := PlayersOf(subs, w);
    OccPlayersOf(subs, w, p);
    var a := MatchesOver(init, subs);
    if |g| > 1 && w != "" {
      CreditAppend(a, Match(w, g, POINTS_PER_PLAYER * |g|), p);
    } else {
      CreditAppendNone(a, p);
    }
  }

  /** What the matches for the distinct words `ws` credit to `p`. */
  lemma {:induction false} CreditOver(ws: seq<string>, subs: seq<Submission>, p: PlayerId)
    requires OnePerPlayer(subs) && Distinct(ws)
    ensures Credit(MatchesOver(ws, subs), p) == GainOver(ws, subs, p)
  {
    if ws != [] {
      var init, w := ws[..|ws| - 1], ws[|ws| - 1];
      assert ws == init + [w];
      DistinctAppend(init, w);
      CreditOver(init, subs, p);
      CreditStep(ws, subs, p);
      if WordOf(subs, p).Some? {
        var v := WordOf(subs, p).value;
        assert v in ws <==> v in init || v == w;
      }
    }
  }

  /** The points a round's matches credit to a player are what the round is worth to that player:
      each player of a match gets its points once; a lone word, an empty word or no submission
      earns nothing. */
  lemma CreditIsGain(subs: seq<Submission>, p: PlayerId)
    requires OnePerPlayer(subs)
    ensures Credit(RoundMatches(subs), p) == Gain(subs, p)
  {
    FirstSeenSpec(subs);
    WordOfSpec(subs, p);
    CreditOver(FirstSeen(subs), subs, p);
    assert GainOver(FirstSeen(subs), subs, p) == Gain(subs, p) by {
      match WordOf(subs, p)
      case None =>
      case Some(w) =>
        var k :| 0 <= k < |subs| && subs[k] == Submission(p, w);
        assert Words(subs)[k] == w;
    }
  }

  /** With one entry per player and only room members submitting, a word's group is as large
      as the room exactly when every player of the room submitted that word. */
  lemma GroupIsRoom(subs: seq<Submission>, room: seq<PlayerId>, w: string)
    requires OnePerPlayer(subs) && Distinct(room)
    requires forall p :: p in Players(subs) ==> p in room
    ensures |PlayersOf(subs, w)| == |room| <==> forall p :: p in room ==> Submission(p, w) in subs
  {
    var g := PlayersOf(subs, w);
    PlayersOfSpec(subs, w);
    forall p | p in g ensures p in room {
      var i :| 0 <= i < |subs| && subs[i] == Submission(p, w);
      assert Players(subs)[i] == p;
    }
    if |g| == |room| {
      SameSizeSubset(g, room);
    }
    if forall p :: p in room ==> Submission(p, w) in subs {
      DistinctCard(g);
      DistinctCard(room);
      assert (set p | p in g) == (set p | p in room);
    }
  }

  /** With one entry per submitting player and only room members submitting, the win condition
      holds exactly when every one of the room's players submitted the same non-empty word. */
  lemma UnanimousIffEveryone(subs: seq<Submission>, room: seq<PlayerId>)
    requires OnePerPlayer(subs) && Distinct(room)
    requires forall p :: p in Players(subs) ==> p in room
    ensures Unanimous(subs, |room|) <==>
              exists k :: 0 <= k < |subs| && subs[k].word != "" &&
                forall p :: p in room ==> Submission(p, subs[k].word) in subs
  {
    forall k | 0 <= k < |subs|
      ensures |PlayersOf(subs, subs[k].word)| == |room| <==>
                forall p :: p in room ==> Submission(p, subs[k].word) in subs
    {
      GroupIsRoom(subs, room, subs[k].word);
    }
  }

  /** One more submission: how the first-seen words and the groups of a prefix grow. */
  lemma PrefixStep(subs: seq<Submission>, i: nat)
    requires i < |subs|
    ensures FirstSeen(subs[..i + 1]) ==
              if subs[i].word in FirstSeen(subs[..i]) then FirstSeen(subs[..i])
              else FirstSeen(subs[..i]) + [subs[i].word]
    ensures forall w :: PlayersOf(subs[..i + 1], w) ==
              PlayersOf(subs[..i], w) + (if subs[i].word == w then [subs[i].player] else [])
  {
    assert subs[..i + 1][..i] == subs[..i];
  }

  // ---------------------------------------------------------------------------------------
  // The two `forEach` implementations

  /** The first loop of `calculateRoundScore` (server.js:173-180): one pass over the
      submissions that files each player under their word, creating a group the first time
      a word is seen. */
  method GroupByWord(subs: seq<Submission>) returns (words: seq<string>, groups: map<string, seq<PlayerId>>)
    ensures words == FirstSeen(subs)
    ensures forall w :: w in groups <==> w in words
    ensures forall w :: w in groups ==> groups[w] == PlayersOf(subs, w)
  {
    words, groups := [], map[];
    var i := 0;
    while i < |subs|
      invariant 0 <= i <= |subs|
      invariant words == FirstSeen(subs[..i])
      invariant forall w :: w in groups <==> w in words
      invariant forall w :: w in groups ==> groups[w] == PlayersOf(subs[..i], w)
      invariant forall w :: w !in groups ==> PlayersOf(subs[..i], w) == []
    {
      var s := subs[i];
      PrefixStep(subs, i);
      if s.word !in groups {
        groups := groups[s.word := []];
        words := words + [s.word];
      }
      groups := groups[s.word := groups[s.word] + [s.player]];
      i := i + 1;
    }
    assert subs[..i] == subs;
  }

  /** `calculateRoundScore`'s matches (server.js:173-193): the words grouped, then every group
      of more than one player with a non-empty word turned into a match worth 10 points per player. */
  method CalculateMatches(subs: seq<Submission>) returns (matches: seq<Match>)
    ensures matches == RoundMatches(subs)
  {
    var words, groups := GroupByWord(subs);
    matches := [];
    var j := 0;
    while j < |words|
      invariant 0 <= j <= |words|
      invariant matches == MatchesOver(words[..j], subs)
    {
      var w := words[j];
      assert words[..j + 1][..j] == words[..j];
      var players := groups[w];
      if |players| > 1 && |w| > 0 {
        matches := matches + [Match(w, players, |players| * POINTS_PER_PLAYER)];
      }
      j := j + 1;
    }
    assert words[..j] == words;
  }

  /** The first loop of `checkWinCondition` (server.js:152-161): like `GroupByWord`, but a
      submission with an empty word is skipped. */
  method GroupNonEmptyWords(subs: seq<Submission>) returns (words: seq<string>, groups: map<string, seq<PlayerId>>)
    ensures words == NonEmptyFirstSeen(subs)
    ensures forall w :: w in groups <==> w in words
    ensures forall w :: w in groups ==> groups[w] == PlayersOf(subs, w)
  {
    words, groups := [], map[];
    var i := 0;
    while i < |subs|
      invariant 0 <= i <= |subs|
      invariant words == NonEmptyFirstSeen(subs[..i])
      invariant forall w :: w in groups <==> w in words
      invariant "" !in groups
      invariant forall w :: w in groups ==> groups[w] == PlayersOf(subs[..i], w)
      invariant forall w :: w !in groups && w != "" ==> PlayersOf(subs[..i], w) == []
    {
      var s := subs[i];
      PrefixStep(subs, i);
      assert subs[..i + 1][..i] == subs[..i];
      if |s.word| > 0 {
        if s.word !in groups {
          groups := groups[s.word := []];
          words := words + [s.word];
        }
        groups := groups[s.word := groups[s.word] + [s.player]];
      }
      i := i + 1;
    }
    assert subs[..i] == subs;
  }

  /** `checkWinCondition` (server.js:151-170): the non-empty words grouped, then the groups
      searched, in first-seen order, for one as large as the room. */
  method HasUnanimousWord(subs: seq<Submission>, n: nat) returns (won: bool)
    ensures won == Unanimous(subs, n)
  {
    var words, groups := GroupNonEmptyWords(subs);
    NonEmptyFirstSeenSpec(subs);
    var j := 0;
    while j < |words|
      invariant 0 <= j <= |words|
      invariant forall k :: 0 <= k < j ==> |PlayersOf(subs, words[k])| != n
    {
      if |groups[words[j]]| == n {
        var w := words[j];
        assert w in Words(subs);
        var k :| 0 <= k < |subs| && Words(subs)[k] == w;
        assert subs[k].word == w != "";
        return true;
      }
      j := j + 1;
    }
    forall k | 0 <= k < |subs| && subs[k].word != ""
      ensures |PlayersOf(subs, subs[k].word)| != n
    {
      assert Words(subs)[k] == subs[k].word;
      assert subs[k].word in words;
    }
    return false;
  }
}
