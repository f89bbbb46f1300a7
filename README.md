# Word-match party game: room state machine, scoring and registry

The server runs rooms of two to six players. The host starts a game, and each round every player
submits one word. Players who chose the same non-empty word (compared after lower-casing and
trimming) score 10 points for each player in their group. A round in which every player chose the
same non-empty word wins the game. Otherwise a countdown from 5 to 0 runs and the next round
opens.

This project models that core in Dafny:

- **Key orders** (`ordered_keys.dfy`, module `OrderedKeys`): each JavaScript `Map` is a map plus
  its key order, a sequence without repetitions. `set` on a new key appends it, and on a present
  key keeps its place. `delete` removes the key and leaves the other keys in their relative order.
- **Normalisation** (`normalise.dfy`): `word.toLowerCase().trim()`.
- **Scoring** (`scoring.dfy`): the grouping done by `calculateRoundScore` and `checkWinCondition`.
  - It is specified by functions over the ordered submissions (`PlayersOf`, `FirstSeen`,
    `RoundMatches`, `Unanimous`, `Gain`).
  - The `forEach` loops are methods proved equal to those functions.
- **Ranking** (`ranking.dfy`): the final `sort`, a stable descending insertion sort.
- **Room values** (`room_data.dfy`): the invariants of a room, stated on values.
  - The `scores` keys are the `players` keys.
  - The submissions come only from players.
  - While players remain, the host is among them and is the only one flagged as host.
  - The bookkeeping of which round was scored.
- **The `GameRoom` class** (`room.dfy`): one method per method of the source, each proved against
  these functions.
- **The server** (`server.dfy`, class `GameServer`):
  - the `rooms` and socket registries;
  - an outbox of emitted events;
  - the five socket handlers;
  - `handleRoundEnd` and the countdown ticks.

  Timers and interval ticks are inputs: the environment calls `HandleRoundEnd` when the round
  timer fires and `CountdownTick` once per second. A room's `clock` records which of them is
  pending.
- **The double scoring as written** (`findings.dfy`): see Findings.

The source hands the last submission's round end to two places. The main model scores each round
once: `GameRoom.SubmitWord` only reports that the round is complete. `HandleRoundEnd` scores the
round only while its round timer is set, which is what clearing that timer is meant to ensure.
Ghost fields record which round each stored result scored. The server invariant keeps that record
strictly increasing, so no round is scored twice.

A room waits only until its game first starts: nothing sets the state back to waiting. So no
round has been scored in a waiting room, and the room invariant records that every score in it is
still 0. `endRound` runs only in a game that has started, so the members that score
(`GameRoom.Record`, `GameRoom.EndRound`, `GameRoom.CloseRound`) require the room not to be
waiting. This makes `join-room` safe even though `addPlayer` sets a rejoining player's score to
0: it lowers no score, and so scores only grow.

Three things the code does that a reader might not expect:

- `start-game` does not check the game state. The host can restart a playing or finished game: it
  restarts at round 1 with the scores and round results kept.
- The round number goes up when a round is scored without a winner (`processRoundEnd`), before the
  countdown, not when the countdown ends.
- Deleting an empty room does not cancel its timers.

## Model

| member | source | states |
|---|---|---|
| OrderedKeys.InsertSpec | server.js:74-81 | `Map.set` on a key order: the keys become the old keys plus the new one, still without repetition; a present key keeps its place; a new key goes last and nothing before it moves |
| OrderedKeys.RemoveSpec | server.js:84-86 | `Map.delete`: the keys become the old keys minus the deleted one, still without repetition; deleting an absent key changes nothing; deleting a present key shortens the order by exactly one |
| OrderedKeys.RemoveFirst | server.js:89-90 | after a delete that leaves keys, the first key (`players.keys().next()`) is an old key and not the deleted one |
| OrderedKeys.DistinctCard | server.js:120 | a repetition-free key order has as many distinct keys as it is long, so `size` is its length |
| OrderedKeys.SameSizeSubset | server.js:120 | two repetition-free orders of equal length, one inside the other, hold the same keys: equal sizes with submissions drawn from players mean every player submitted |
| OrderedKeys.SameKeysSameSize | server.js:120 | two repetition-free orders with the same keys are equally long |
| OrderedKeys.DistinctAppend | server.js:75 | appending a key keeps an order repetition-free exactly when the key is new (both directions) |
| Normalisation.LowerChar | server.js:118 | `toLowerCase` on one code point: the result is not an upper-case letter, whitespace stays whitespace, and anything but an upper-case letter is unchanged |
| Normalisation.LowerSpec | server.js:118 | `toLowerCase` leaves no upper-case letter and keeps whitespace exactly where it was; a string without upper-case letters is left alone, so lower-casing twice is lower-casing once |
| Normalisation.Lead | server.js:118 | the number of leading whitespace code points: all of them whitespace, and the next one not |
| Normalisation.Trail | server.js:118 | the number of trailing whitespace code points: all of them whitespace, and the one before not |
| Normalisation.Trim | server.js:118 | `trim` yields the slice between the leading and trailing whitespace; the result neither starts nor ends with whitespace |
| Normalisation.Normalise | server.js:118 | the stored word neither starts nor ends with whitespace and contains no upper-case letter |
| Normalisation.NormaliseSpec | server.js:118 | the stored word is exactly the lower-cased word with its leading and trailing whitespace cut off |
| Normalisation.TrimKeepsTrimmed | server.js:118 | a string that neither starts nor ends with whitespace is left alone by `trim` |
| Normalisation.NormaliseIdempotent | server.js:118 | normalising a stored word again gives the same word |
| Normalisation.NormalisedEmptyIffBlank | server.js:118 | a word is stored as the empty word exactly when it consists of whitespace only |
| Normalisation.CatSpellings | server.js:118 | "Cat ", "CAT" and "cat" are all stored as "cat" |
| Scoring.PlayersOfSpec | server.js:175-179 | a word's group holds exactly the players who submitted that word, none twice, and is empty for a word nobody submitted |
| Scoring.WordOfSpec | server.js:118 | a player has a word exactly when they submitted; it is their submission, and with one entry per player it is the only one |
| Scoring.FirstSeenSpec | server.js:173-180 | the `wordGroups` key order lists every submitted word once and nothing else, ordered by first submission |
| Scoring.NonEmptyFirstSeenSpec | server.js:154-160 | the win check's groups are for exactly the submitted non-empty words |
| Scoring.MatchesOverSpec | server.js:182-191 | the matches built for a list of words are exactly the correct matches whose word is in the list |
| Scoring.RoundMatchesExactly | server.js:182-191 | a round has a match exactly for each non-empty word chosen by at least two players; it lists those players in submission order and is worth 10 points per player in it; there are no other matches |
| Scoring.RoundMatchesOrdered | server.js:182-191 | matches are listed in the order their words were first submitted, so no word is listed twice |
| Scoring.MatchPlayersSubmitted | server.js:182-191 | every player listed in a match submitted that match's word |
| Scoring.OccPlayersOf | server.js:175-179 | with one entry per player, a player is listed in the group of `w` once if they submitted `w` and not at all otherwise |
| Scoring.CreditIsGain | server.js:132-136 | the points the `endRound` loops credit to a player equal an independent definition of what the round is worth to them: 10 per member of their group if the word is non-empty and at least two chose it, otherwise nothing |
| Scoring.GroupIsRoom | server.js:164 | a group is as large as the room exactly when every player of the room submitted that word |
| Scoring.UnanimousIffEveryone | server.js:151-170 | the win condition holds exactly when every player of the room submitted the same non-empty word |
| Scoring.GroupByWord | server.js:173-180 | the grouping loop yields the first-seen word order and, for each word, exactly its group |
| Scoring.CalculateMatches | server.js:173-193 | the two `calculateRoundScore` loops yield exactly the round's matches, in order |
| Scoring.GroupNonEmptyWords | server.js:152-161 | the win check's grouping loop skips empty words and otherwise groups as above |
| Scoring.HasUnanimousWord | server.js:151-170 | the win check's search returns true exactly when some non-empty word's group is as large as the room |
| Ranking.InsertByScorePerm | server.js:212 | inserting into the ranking adds exactly that entry |
| Ranking.InsertByScoreSorted | server.js:212 | inserting into a ranking keeps it highest score first |
| Ranking.InsertByScoreStable | server.js:212 | among equal scores, the inserted entry keeps its place ahead of the later ones |
| Ranking.SortByScoreSpec | server.js:206-212 | the final ranking is a permutation of the entries, is ordered highest score first, and keeps the input (insertion) order among equal scores |
| RoomData.SubsOf | server.js:197 | `Object.fromEntries(this.submissions)`: one entry per key, in key order, carrying that key's word; an entry is present exactly when its player submitted that word |
| RoomData.EntriesOf | server.js:199 | `Object.fromEntries(this.scores)`: one entry per player in key order; an entry is present exactly when it pairs a player with that player's score |
| RoomData.AddKeepsKeys | server.js:74-82 | `addPlayer` keeps the `scores` keys equal to the `players` keys, and keeps the host present and the only player flagged as host |
| RoomData.AddKeepsSubs | server.js:74-82 | adding players keeps the submissions drawn from players |
| RoomData.RemoveKeepsKeys | server.js:84-93 | `removePlayer` keeps the key invariant, the host moving to the earliest-inserted remaining player |
| RoomData.RemoveKeepsSubs | server.js:86 | dropping the player's submission keeps the submissions drawn from players |
| RoomData.SubmitKeepsSubs | server.js:118 | a player's submission keeps the submissions drawn from players |
| RoomData.RescoreKeepsKeys | server.js:132-136 | changing scores without changing their keys keeps the key invariant |
| RoomData.AddMatchPoints | server.js:132-136 | the point loops add no key and credit each player each match's points once per time they are listed in it |
| RoomData.UnscoredMeansFresh | server.js:128-130 | while the current round is unscored, every recorded round number is below it |
| RoomData.RecordKeepsScoredOnce | server.js:128-130 | recording the score of a round not yet scored keeps every round scored at most once |
| RoomData.ScoredAtMostOnce | server.js:128-130 | under the invariant, no round number is recorded as scored twice |
| RoomData.PlayerListSpec | server.js:224 | `Array.from(this.players.values())` lists players carrying their own ids; exactly the host is flagged as host, and the host is listed while anyone is |
| RoomData.CompleteIffAllSubmitted | server.js:120 | `submissions.size === players.size` holds exactly when every player has a submission |
| RoomData.WinIffAllAgree | server.js:151-170 | the win condition holds exactly when some player's non-empty word is every player's word |
| RoomData.RoundScoring | server.js:132-136 | a round's matches list only players, and credit each player what the round is worth to them |
| Room.GameRoom.RoundCompleteIffAllSubmitted | server.js:120 | the size test that ends a round holds exactly when every player has submitted |
| Room.GameRoom.GetGameState | server.js:220-230 | the snapshot carries the id, the host, the players in insertion order (exactly the host flagged as host), the state, the round and every player's score in key order |
| Room.GameRoom.constructor | server.js:61-72 | a new room has no players, is waiting at round 0 and has no timer, submissions or results |
| Room.GameRoom.AddPlayer | server.js:74-82 | the player is set (a new one goes last, a present one keeps its place), is flagged as host exactly when it is the host, is marked connected (the `connected` flag is kept as the constant `true` the source writes; nothing reads it), and starts at score 0, which in a waiting room lowers no score; the room stays valid |
| Room.GameRoom.RemovePlayer | server.js:84-93 | the player's entries in players, scores and submission order are deleted; if the host left and players remain, the earliest-inserted remaining player becomes host with `isHost` set; otherwise the host is unchanged |
| Room.GameRoom.StartGame | server.js:95-103 | refused with no change below two players; otherwise playing, round 1, no submissions, and a fresh unscored round |
| Room.GameRoom.StartRound | server.js:105-108 | the next round opens with no submissions and is unscored |
| Room.GameRoom.ArmRoundTimer | server.js:327-329 | the round timer is set |
| Room.GameRoom.ClearRoundTimer | server.js:237 | the round timer is cleared, so it will not fire |
| Room.GameRoom.SetCountdown | server.js:249-250 | the countdown is pending with the value its next tick shows |
| Room.GameRoom.SubmitWord | server.js:115-125 | refused with no change unless playing; otherwise stores the normalised word for the player (last write wins, the first position kept) and reports completion exactly when every player has submitted; no round is ended here |
| Room.GameRoom.SubmitWordAsWritten | server.js:115-125 | the source's `submitWord`: as above, and the completing submission also clears the timer and scores the round; a refused submission changes nothing |
| Room.GameRoom.CloseRound | server.js:237-238 | in a game that has started, the timer is cleared and the round is scored once: one result recorded, each player credited what the round is worth to them |
| Room.GameRoom.CalculateRoundScore | server.js:172-201 | the result carries the round number, the submissions in order, exactly the correct matches and the scores as they stand |
| Room.GameRoom.EndRound | server.js:128-139 | in a game that has started, exactly one result is appended, carrying the scores from before the round; each player gains what the round is worth to them, so no score decreases; no key changes |
| Room.GameRoom.CheckWinCondition | server.js:151-170 | true exactly when some non-empty word was submitted by as many players as the room has, that is, when every player chose it |
| Room.GameRoom.ProcessRoundEnd | server.js:141-149 | a won round finishes the game at the same round number; otherwise the round number goes up by one and the game goes on |
| Room.GameRoom.EndGame | server.js:203-218 | finished; the ranking is exactly the players' scores, highest first, ties in insertion order; ending a finished game again changes nothing and yields the same ranking |
| Server.JoinRefusal | server.js:288-301 | `join-room` refuses in this order: room not found, room full (six or more), game not waiting; it admits exactly when none applies |
| Server.Launch | server.js:318-329 | below two players nothing changes and nothing is sent; otherwise playing round 1 with the round timer set, and "game-started", the state and "round-started" are sent |
| Server.EndOfRound | server.js:237-249 | the round is scored once and its result sent first; a won round finishes and sends the final ranking; otherwise the next round number is set, the state sent, and the countdown starts from 5 |
| Server.Conclude | server.js:239-249 | after the scoring: a won round finishes and sends the final ranking (`endGame` runs twice and changes nothing the second time); otherwise next round, state sent, countdown from 5 |
| Server.RoundEndOnce | server.js:237-241 | the room stays valid, gains exactly one result after the earlier ones, is no longer timed, keeps its score keys and lowers no score, and the result is sent first |
| Server.Tick | server.js:250-264 | each tick sends the value and lowers it by one; below zero the next round opens with no submissions, its number is sent, and the round timer is set |
| Server.Seat | server.js:303 | the joining player is inserted into the key order, set in the players (host flag exactly when host) and given score 0, which in a waiting room lowers no score; host, game state, round, timer, submissions and results are unchanged; the room stays valid |
| Server.Leave | server.js:360 | the leaving player is removed from the key order, the players, the scores and the submissions, the rest kept; a departing host hands over to the first remaining player, otherwise the host is unchanged; game state, round, timer and results are unchanged; `emptied` tells exactly whether nobody is left |
| Server.GameServer.constructor | server.js:54-55 | the server starts with no rooms and no sockets |
| Server.GameServer.RoundsScoredAtMostOnce | server.js:237-238 | in every registered room no round is recorded as scored twice, and there is one record per stored result |
| Server.GameServer.CreateRoom | server.js:272-283 | a room under a fresh id, hosted by the socket and holding it alone, waiting at round 0 with no timer, submissions or results, is registered with the socket; the socket is told the id and the room is sent its state |
| Server.GameServer.JoinRoom | server.js:285-309 | a refusal sends only the error to the socket and changes no room or registry entry; otherwise the socket is added to the room as `Seat` states (host, game, submissions and results unchanged, no score lowered) and registered, told it joined, and the room is sent its state |
| Server.GameServer.Admit | server.js:303-308 | the accepting end of `join-room`: the room changes only by the new player (host, game, submissions and results unchanged; in a waiting room no score lowered), the socket is registered in it, told it joined, and the room is sent its state |
| Server.GameServer.Enrol | server.js:303-304 | the socket is seated in the room as `Seat` states (in a waiting room no score lowered) and registered under the room's id; no other room or registry entry changes |
| Server.GameServer.StartGame | server.js:311-331 | ignored unless the socket is its room's host; with fewer than two players nothing changes; otherwise playing round 1 with no submissions and the round timer set, three events sent to the room; players, scores, host and earlier results are kept either way |
| Server.GameServer.Open | server.js:318-329 | the host's request: below two players nothing changes; otherwise playing round 1 with no submissions, timer set, three events sent; players, scores, host and earlier results are kept |
| Server.GameServer.HandleRoundEnd | server.js:233-267 | a missing room, or a room whose round timer is not set, is left alone and nothing is sent; otherwise exactly one more result is stored after the earlier ones and announced first, the timer is no longer set, the score keys are kept and no score goes down, and the players, host and submissions are unchanged |
| Server.GameServer.Score | server.js:237-249 | the room's part of a round end under the registry: every room stays registered, one more result after the earlier ones, the timer no longer set, score keys kept and no score lowered, and the result is the first event |
| Server.GameServer.CountdownTick | server.js:250-264 | nothing unless the room exists and counts down; otherwise the value is sent and lowered by one, and once below zero the next round opens with no submissions, its number sent and the round timer set; game state, round number, players, scores, host and results are unchanged |
| Server.GameServer.CountOnce | server.js:250-264 | one tick's events: the value shown, then the round number once the countdown is through; the room changes as in `CountdownTick` |
| Server.GameServer.RunCountdown | server.js:249-264 | a countdown left to run sends 5, 4, 3, 2, 1, 0 and then the round number, and the next round opens with no submissions and the round timer set; game state, round number, players, scores, host and results are unchanged |
| Server.GameServer.AcceptWord | server.js:338-344 | in a playing room the word is stored (a new submitter last in the key order) and "word-submitted" sent; `complete` is exactly the size test; otherwise nothing changes; only the submissions ever change |
| Server.GameServer.Store | server.js:338 | a playing room stores the word (a new submitter last in the key order) and `complete` is exactly the size test; otherwise nothing changes; every room stays registered |
| Server.GameServer.SubmitWord | server.js:333-350 | outside a playing game nothing changes; otherwise the word is stored and announced first; the round gains a result only when that submission completes it while the round timer is set, and then exactly one after the earlier ones; score keys are kept and no score goes down; a word that does not end the round leaves scores, timer, state and round alone; players and host never change |
| Server.GameServer.Forget | server.js:369 | the socket leaves the registry and the server stays valid |
| Server.GameServer.Vacate | server.js:358-366 | the socket leaves its room as `Leave` states (its record, score and submission removed, the other records kept, host handed over and flagged if it was host, game untouched); an emptied room is deleted from the registry with nothing sent; otherwise the room is sent its state |
| Server.GameServer.Unseat | server.js:360-362 | the room loses the socket as `Leave` states; `emptied` says whether it is now empty, and exactly then the room is deleted from the registry |
| Server.GameServer.Disconnect | server.js:353-371 | an unknown socket changes nothing; otherwise the socket is forgotten, its room loses it as `Leave` states, and the room is deleted when empty or else sent its state |
| Findings.SubmitAsWritten | server.js:333-350 | the submit handler as written: outside a playing game nothing changes; a completing submission clears the timer, keeps the earlier results, stores two results for the one round and credits every player twice what the round is worth; any other submission only stores the word |
| Findings.SubmitWhilePlaying | server.js:115-125 | the same for a room that is playing: `GameRoom.SubmitWordAsWritten`, then, when the round is complete, `ScoreAgain` |
| Findings.ScoreAgain | server.js:237-238 | `handleRoundEnd`'s `clearTimeout` and `endRound` after `submitWord` has scored the round: the timer is cleared, the round is stored a second time after the earlier results, and every player ends with twice what the round is worth over the scores before it |
| Findings.LoneCatRound | server.js:151-170 | a round where only one of two players submitted "cat" has that one submission and no winner |
| Findings.EndRoundTwiceAsWritten | server.js:120-122 | for two players who both choose "cat", each ends the round with 40 points and the round is stored twice |
| Findings.RescoredInCountdownAsWritten | server.js:115-122 | `a` submits "cat", the timer ends round 1 without a winner, and `b` submits "dog" during the countdown: three results are stored, numbered 1, 2 and 2 |

## Left out

- Socket.IO delivery. `socket.join` and the `io.to(...).emit` recipients are not modelled: an outbound event names the target room id or socket, and the event values are appended to `outbox`.
- Timer and interval scheduling (`setTimeout`, `setInterval`). A fired round timer is a call to `HandleRoundEnd` and a countdown tick a call to `CountdownTick`; nothing models time passing.
- The second timer that `startRound` arms (server.js:110), which only sets `roundTimeExpired` and is then overwritten (server.js:261). It has no effect on the state the model keeps.
- The `roundTimeExpired` flag (server.js:68, 101, 107, 111): it is written and never read.
- `timeLeft` in `getGameState` (server.js:228): `Snapshot` has no such field.
- A restart during a round or a countdown. `start-game` there arms a second round timer without clearing the first, and a running countdown interval keeps ticking. The model's room has one pending clock, so the new round timer replaces whatever was pending: the older timer and the interval do not fire later.
- Ticks of a deleted room's countdown. The source's interval holds the room object, not its id, so after an empty room is deleted it keeps ticking and emitting to a room nobody is in. In the model a tick names a room id, and `CountdownTick` ignores an id with no registered room. The model therefore does not capture an id that is reused for a new room while an old interval still runs.
- Room id generation (`uuidv4().substring(0, 8).toUpperCase()`, server.js:273): `CreateRoom` takes the id as a parameter with the precondition that no room has it.
- Console logging, the Express and CORS setup, and `server.listen`.
- Malformed payloads. The model takes every handler payload to be an object with string fields. A missing or non-string `word` makes `toLowerCase` throw in `submitWord` (server.js:118), and the model has no such case. A missing `data` makes the handlers at server.js:272, 285 and 333 throw on the field access, and the model has no such case either. A missing `nickname` or `roomId` is stored or looked up as `undefined`, which the model's `string` parameters do not represent.
- Case mapping beyond Latin-1. `toLowerCase` is modelled for Basic Latin and Latin-1 letters only. Other scripts, special cases that change a string's length, and UTF-16 surrogate pairs are not modelled.
- The order of the two deletions in `disconnect`. `Disconnect` forgets the socket before it empties the room, while the source deletes the registry entry last. Nothing in between reads the registry, so the final state is the same.
- Server.GameServer.HandleRoundEnd: states the scores only as kept keys and no decrease, the new round number and game state not at all, and only the first event. The complete change is the contract of `Server.EndOfRound`, which it performs.
- Server.GameServer.SubmitWord: for a completing word, states the scores only as kept keys and no decrease, and only the first event. The exact scores and the later events are stated by `Server.EndOfRound`.
- Server.RoundEndOnce: a deliberately reduced view of `Server.EndOfRound`, which states the whole change.
- Findings.SubmitAsWritten: models only the part of the second `handleRoundEnd` call that scores (`clearTimeout` and `endRound`). The second `processRoundEnd`, its events and its extra countdown are not modelled.

## Findings

| source | as written | input that shows it | evidently intended | confidence | as-written member | corrected member |
|---|---|---|---|---|---|---|
| server.js:120-122 | The last submission makes `submitWord` clear the timer and call `endRound`. The handler's size test then holds again (server.js:347-348), so `handleRoundEnd` calls `endRound` a second time (server.js:238). | Two players in round 1: `a` submits "cat", then `b` submits "Cat ". Each player ends with 40 points and the round is stored twice. | The round is scored once: 20 points each and one result. | high, not executed | Findings.EndRoundTwiceAsWritten | Server.GameServer.SubmitWord |
| server.js:115-122 | During the countdown the game is still playing and the submissions are still stored, so a late submission can pass the size test. The leftover words are then scored twice, under the already incremented round number. | Two players in round 1: `a` submits "cat" and `b` submits nothing; the round timer ends the round without a winner and the countdown runs. `b` then submits "dog", and three results are stored, numbered 1, 2 and 2. | Once a round has ended, no further submission scores it. | high, not executed | Findings.RescoredInCountdownAsWritten | Server.GameServer.HandleRoundEnd |
