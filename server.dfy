/** The Socket.IO server (server.js:233-371): the registry of rooms and of connected sockets,
    the handlers of the five client events, and the round-end sequence with its countdown.
    Emitted events are appended to an outbox; timer and interval callbacks are methods the
    environment calls. */
module Server {
  import opened OrderedKeys
  import opened Normalisation
  import opened Scoring
  import opened Ranking
  import opened RoomData
  import opened Room

  /** A room turns a join away once it holds this many players. */
  const MAX_PLAYERS: nat := 6

  /** What the `players` registry keeps for a connected socket. */
  datatype PlayerEntry = PlayerEntry(roomId: string, nickname: string)

  /** An event the server emits, with its payload. */
  datatype Event =
    | RoomCreated(roomId: string)
    | RoomJoined(roomId: string)
    | Error(message: string)
    | GameStateUpdate(state: Snapshot)
    | GameStarted
    | RoundStarted(round: nat, timeLeft: nat)
    | WordSubmitted(playerId: PlayerId, nickname: string)
    | RoundEnded(roundResult: RoundResult)
    | GameEnded(outcome: GameResult)
    | NextRoundCountdown(countdown: int)

  /** `socket.emit` to one socket, or `io.to(roomId).emit` to every socket in a room. */
  datatype Outbound = ToSocket(socket: PlayerId, event: Event) | ToRoom(roomId: string, event: Event)

  /** The given events, each sent to the room `roomId`, in order. */
  function Broadcast(roomId: string, events: seq<Event>): (r: seq<Outbound>)
    ensures |r| == |events|
    ensures forall k :: 0 <= k < |r| ==> r[k] == ToRoom(roomId, events[k])
  {
    seq(|events|, k requires 0 <= k < |events| => ToRoom(roomId, events[k]))
  }

  /** Sending two lists of events one after the other is sending them joined. */
  lemma BroadcastAppend(roomId: string, a: seq<Event>, b: seq<Event>)
    ensures Broadcast(roomId, a + b) == Broadcast(roomId, a) + Broadcast(roomId, b)
  {
    var l, r := Broadcast(roomId, a + b), Broadcast(roomId, a) + Broadcast(roomId, b);
    assert |l| == |r|;
    forall k | 0 <= k < |l| ensures l[k] == r[k] {
      if k < |a| {
        assert r[k] == Broadcast(roomId, a)[k];
      } else {
        assert r[k] == Broadcast(roomId, b)[k - |a|];
      }
    }
  }

  /** Why `join-room` turns a socket away, checked in the handler's order, or `None` when the
      socket may join. */
  function JoinRefusal(found: bool, size: nat, state: GameState): (r: Option<string>)
    ensures r == None <==> found && size < MAX_PLAYERS && state == Waiting
    ensures !found ==> r == Some("Room not found")
    ensures found && size >= MAX_PLAYERS ==> r == Some("Room is full")
    ensures found && size < MAX_PLAYERS && state != Waiting ==> r == Some("Game already in progress")
  {
    if !found then Some("Room not found")
    else if size >= MAX_PLAYERS then Some("Room is full")
    else if state != Waiting then Some("Game already in progress")
    else None
  }

  /** The values a countdown from `n` shows, one per second: `n`, `n - 1`, ..., `0`. */
  function CountdownShown(n: nat): (r: seq<Event>)
    ensures |r| == n + 1
    ensures forall k :: 0 <= k < |r| ==> r[k] == NextRoundCountdown(n - k)
  {
    seq(n + 1, k requires 0 <= k < n + 1 => NextRoundCountdown(n - k))
  }

  /** A room as the registry holds it: under its own id, valid, every round scored at most
      once, between one and six players, and listing every socket seated in it. */
  ghost predicate Registered(key: string, room: GameRoom, seats: map<PlayerId, PlayerEntry>)
    reads room
  {
    && room.id == key && room.Valid() && room.ScoredOnce() && 1 <= |room.order| <= MAX_PLAYERS
    && forall s :: s in seats && seats[s].roomId == key ==> s in room.players
  }

  /** The room's part in `start-game` (server.js:318-329): with fewer than two players the
      game does not start and nothing changes; otherwise it is playing round 1 with no
      submissions and the round timer set, and the room is told the game started, sent its
      state and the round. */
  method Launch(room: GameRoom) returns (events: seq<Event>)
    requires room.Valid() && room.ScoredOnce()
    modifies room`gameState, room`currentRound, room`submissions, room`subOrder, room`roundsStarted, room`clock
    ensures room.Valid() && room.ScoredOnce()
    ensures |room.order| < MIN_PLAYERS ==> unchanged(room) && events == []
    ensures |room.order| >= MIN_PLAYERS ==>
              && room.gameState == Playing && room.currentRound == 1 && room.clock == RoundTimer
              && room.subOrder == [] && room.submissions == map[]
              && room.roundsStarted == old(room.roundsStarted) + 1
              && events == [GameStarted, GameStateUpdate(room.GetGameState()), RoundStarted(1, ROUND_TIME)]
  {
    var ok := room.StartGame();
    if !ok {
      return [];
    }
    events := [GameStarted, GameStateUpdate(room.GetGameState()), RoundStarted(room.currentRound, ROUND_TIME)];
    room.ArmRoundTimer();
  }

  /** The room's part in `handleRoundEnd` (server.js:237-249) while its round timer runs: the
      timer is cleared and the round scored exactly once; the result is sent; a won round
      finishes the game and sends the final ranking (`endGame` runs a second time and
      changes nothing), any other round moves to the next round number, sends the room's
      state and starts the countdown from 5. */
  method EndOfRound(room: GameRoom) returns (events: seq<Event>)
    requires room.Valid() && room.ScoredOnce() && room.clock == RoundTimer
    modifies room`clock, room`roundResults, room`scoredRounds, room`scores, room`gameState, room`currentRound
    ensures room.Valid() && room.ScoredOnce()
    ensures room.scores.Keys == old(room.scores).Keys
    ensures forall q :: q in room.scores ==> room.scores[q] == old(room.scores)[q] + Gain(old(room.Subs()), q)
    ensures var result := old(RoundResult(room.currentRound, room.Subs(), RoundMatches(room.Subs()), room.ScoreEntries()));
            && room.roundResults == old(room.roundResults) + [result]
            && if old(Unanimous(room.Subs(), |room.order|)) then
                 && room.gameState == Finished && room.currentRound == old(room.currentRound) && room.clock == NoTimer
                 && events == [RoundEnded(result), GameEnded(GameResult(SortByScore(room.Standings()), room.roundResults))]
               else
                 && room.gameState == Playing && room.currentRound == old(room.currentRound) + 1
                 && room.clock == Countdown(COUNTDOWN_FROM)
                 && events == [RoundEnded(result), GameStateUpdate(room.GetGameState())]
  {
    var result := room.CloseRound();
    events := Conclude(room, result);
  }

  /** The rest of `handleRoundEnd` (server.js:238-249) once the round is scored: a won round
      finishes the game and sends the final ranking, any other round moves to the next round
      number, sends the room's state and starts the countdown from 5. */
  method Conclude(room: GameRoom, result: RoundResult) returns (events: seq<Event>)
    requires room.Valid() && room.ScoredOnce() && room.clock == NoTimer && room.gameState == Playing
    modifies room`clock, room`gameState, room`currentRound
    ensures room.Valid() && room.ScoredOnce()
    ensures if Unanimous(room.Subs(), |room.order|) then
              && room.gameState == Finished && room.currentRound == old(room.currentRound) && room.clock == NoTimer
              && events == [RoundEnded(result), GameEnded(GameResult(SortByScore(room.Standings()), room.roundResults))]
            else
              && room.gameState == Playing && room.currentRound == old(room.currentRound) + 1
              && room.clock == Countdown(COUNTDOWN_FROM)
              && events == [RoundEnded(result), GameStateUpdate(room.GetGameState())]
  {
    var status := room.ProcessRoundEnd();
    if status == GameWon {
      var final := room.EndGame();
      events := [RoundEnded(result), GameEnded(final)];
    } else {
      events := [RoundEnded(result), GameStateUpdate(room.GetGameState())];
      room.SetCountdown(COUNTDOWN_FROM);
    }
  }

  /** What the registry relies on of `EndOfRound`: the room stays registrable, exactly one
      more round result is stored and announced first, the earlier ones are kept, the round
      timer is no longer set, and no score goes down. */
  method RoundEndOnce(room: GameRoom) returns (events: seq<Event>)
    requires room.Valid() && room.ScoredOnce() && room.clock == RoundTimer
    modifies room`clock, room`roundResults, room`scoredRounds, room`scores, room`gameState, room`currentRound
    ensures room.Valid() && room.ScoredOnce()
    ensures |room.roundResults| == |old(room.roundResults)| + 1 && room.clock != RoundTimer
    ensures room.roundResults[..|old(room.roundResults)|] == old(room.roundResults)
    ensures room.scores.Keys == old(room.scores).Keys && forall q :: q in room.scores ==> old(room.scores)[q] <= room.scores[q]
    ensures |events| > 0 && events[0] == RoundEnded(room.roundResults[|room.roundResults| - 1])
  {
    events := EndOfRound(room);
  }

  /** The room's part in one tick of the countdown interval (server.js:250-264): the value
      shown is sent and goes down by one; once it is below zero the next round opens with
      no submissions, its number is sent and the round timer is set. */
  method Tick(room: GameRoom) returns (events: seq<Event>)
    requires room.Valid() && room.ScoredOnce() && room.clock.Countdown?
    modifies room`clock, room`submissions, room`subOrder, room`roundsStarted
    ensures room.Valid() && room.ScoredOnce()
    ensures var n := old(room.clock.next);
            if n - 1 < 0 then
              && room.clock == RoundTimer && room.subOrder == [] && room.submissions == map[]
              && room.roundsStarted == old(room.roundsStarted) + 1
              && events == [NextRoundCountdown(n), RoundStarted(room.currentRound, ROUND_TIME)]
            else
              && room.clock == Countdown(n - 1)
              && room.subOrder == old(room.subOrder) && room.submissions == old(room.submissions)
              && room.roundsStarted == old(room.roundsStarted)
              && events == [NextRoundCountdown(n)]
  {
    var n := room.clock.next;
    if n - 1 < 0 {
      room.StartRound();
      events := [NextRoundCountdown(n), RoundStarted(room.currentRound, ROUND_TIME)];
      room.ArmRoundTimer();
    } else {
      room.SetCountdown(n - 1);
      events := [NextRoundCountdown(n)];
    }
  }

  /** The room's part in `join-room` (server.js:303): the player is added, so the room is
      still valid and holds at most one player more, and at least one. */
  method Seat(room: GameRoom, socket: PlayerId, nickname: string)
    requires room.Valid() && room.ScoredOnce() && 1 <= |room.order|
    modifies room`order, room`players, room`scores
    ensures room.Valid() && room.ScoredOnce() && 1 <= |room.order| <= |old(room.order)| + 1
    ensures room.order == Insert(old(room.order), socket)
    ensures room.players == old(room.players)[socket := Player(socket, nickname, socket == room.hostId, true)]
    ensures room.scores == old(room.scores)[socket := 0]
    ensures room.Joined(socket, nickname)
    ensures room.gameState == Waiting ==> forall q :: q in old(room.scores) ==> old(room.scores)[q] <= room.scores[q]
  {
    InsertSpec(room.order, socket);
    room.AddPlayer(socket, nickname);
  }

  /** The room's part in `disconnect` (server.js:360): the player is removed, so the
      room is still valid, lists exactly the players it listed but that one, and keeps its key
      order but for that player; its score and its submission are gone and the rest kept; a
      departing host hands over to the earliest remaining player. `emptied` tells whether
      nobody is left. */
  method Leave(room: GameRoom, socket: PlayerId) returns (emptied: bool)
    requires room.Valid() && room.ScoredOnce() && 1 <= |room.order| <= MAX_PLAYERS
    modifies room`order, room`players, room`scores, room`hostId, room`subOrder, room`submissions
    ensures room.Valid() && room.ScoredOnce() && |room.order| <= MAX_PLAYERS
    ensures room.order == Remove(old(room.order), socket)
    ensures forall q :: q in room.players <==> q in old(room.players) && q != socket
    ensures room.scores == old(room.scores) - {socket}
    ensures room.subOrder == Remove(old(room.subOrder), socket) && room.submissions == old(room.submissions) - {socket}
    ensures if socket == old(room.hostId) && room.order != [] then
              && room.hostId == room.order[0]
              && room.players == (old(room.players) - {socket})[room.hostId := old(room.players)[room.hostId].(isHost := true)]
            else
              room.hostId == old(room.hostId) && room.players == old(room.players) - {socket}
    ensures room.Vacated(socket)
    ensures emptied == (room.order == []) && (emptied ==> forall q :: q !in room.players)
  {
    RemoveSpec(room.order, socket);
    room.RemovePlayer(socket);
    emptied := |room.order| == 0;
  }

  class GameServer {
    /** The `rooms` Map, from room id to room. */
    var rooms: map<string, GameRoom>
    /** The `players` Map, from socket id to the room it last entered. */
    var players: map<PlayerId, PlayerEntry>
    /** Every event emitted so far, in order. */
    var outbox: seq<Outbound>

    /** The server's invariant: every room is registered under its own id (so no room object
        is held twice), and every connected socket's room exists and lists that socket. */
    ghost predicate Valid()
      reads this`rooms, this`players, rooms.Values
    {
      && (forall r {:trigger Registered(r, rooms[r], players)} :: r in rooms ==> Registered(r, rooms[r], players))
      && (forall s :: s in players ==> players[s].roomId in rooms)
    }

    /** The room registered under `roomId`, if any, as a frame. */
    function RoomOf(roomId: string): set<GameRoom>
      reads this`rooms
    {
      if roomId in rooms then {rooms[roomId]} else {}
    }

    /** The room a socket is registered in, if any, as a frame. */
    function RoomOfSocket(socket: PlayerId): set<GameRoom>
      reads this`rooms, this`players
    {
      if socket in players then RoomOf(players[socket].roomId) else {}
    }

    /** Why `join-room` would turn a socket away from `roomId` now, or `None`. */
    function Refusal(roomId: string): Option<string>
      reads this`rooms, rooms.Values
    {
      if roomId in rooms then JoinRefusal(true, |rooms[roomId].order|, rooms[roomId].gameState)
      else JoinRefusal(false, 0, Waiting)
    }

    /** A server with no rooms and no sockets (server.js:54-55). */
    constructor ()
      ensures Valid() && rooms == map[] && players == map[] && outbox == []
    {
      rooms, players, outbox := map[], map[], [];
    }

    /** In every registered room, no round was scored twice, and there is one record per
        stored round result. */
    lemma RoundsScoredAtMostOnce(roomId: string, i: nat, j: nat)
      requires Valid() && roomId in rooms
      requires i < j < |rooms[roomId].scoredRounds|
      ensures rooms[roomId].scoredRounds[i] != rooms[roomId].scoredRounds[j]
      ensures |rooms[roomId].scoredRounds| == |rooms[roomId].roundResults|
    {
      var room := rooms[roomId];
      assert Registered(roomId, room, players);
      ScoredAtMostOnce(room.scoredRounds, room.roundsStarted, room.clock, |room.roundResults|, i, j);
    }

    /** `create-room` (server.js:272-283): a new room under the fresh id `roomId`, hosted by
        the socket and holding it alone, waiting at round 0 with no timer, submissions or
        results; the socket is registered in it and told the id, and the room is sent its
        state. */
    method CreateRoom(socket: PlayerId, nickname: string, roomId: string) returns (room: GameRoom)
      requires Valid() && roomId !in rooms
      modifies this`rooms, this`players, this`outbox
      ensures Valid() && fresh(room)
      ensures rooms == old(rooms)[roomId := room]
      ensures players == old(players)[socket := PlayerEntry(roomId, nickname)]
      ensures room.id == roomId && room.hostId == socket && room.order == [socket]
      ensures room.players == map[socket := Player(socket, nickname, true, true)] && room.scores == map[socket := 0]
      ensures room.gameState == Waiting && room.currentRound == 0 && room.clock == NoTimer
      ensures room.subOrder == [] && room.submissions == map[] && room.roundResults == []
      ensures outbox == old(outbox) + [ToSocket(socket, RoomCreated(roomId)), ToRoom(roomId, GameStateUpdate(room.GetGameState()))]
    {
      room := new GameRoom(roomId, socket);
      room.AddPlayer(socket, nickname);
      rooms := rooms[roomId := room];
      players := players[socket := PlayerEntry(roomId, nickname)];
      assert Registered(roomId, room, players);
      forall r | r in rooms && r != roomId ensures Registered(r, rooms[r], players) {
        assert old(Registered(r, rooms[r], players));
      }
      outbox := outbox + [ToSocket(socket, RoomCreated(roomId)), ToRoom(roomId, GameStateUpdate(room.GetGameState()))];
    }

    /** `join-room` (server.js:285-309): refused with the first of "Room not found", "Room is
        full" and "Game already in progress" that applies, changing nothing else; otherwise
        the socket is admitted as `Admit` says. */
    method JoinRoom(socket: PlayerId, roomId: string, nickname: string)
      requires Valid()
      modifies this`players, this`outbox, RoomOf(roomId)`order, RoomOf(roomId)`players, RoomOf(roomId)`scores
      ensures Valid() && rooms == old(rooms)
      ensures old(Refusal(roomId)).Some? ==>
                && players == old(players) && outbox == old(outbox) + [ToSocket(socket, Error(old(Refusal(roomId)).value))]
                && (roomId in rooms ==> unchanged(rooms[roomId]))
      ensures old(Refusal(roomId)) == None ==>
                && roomId in rooms && Registered(roomId, rooms[roomId], players)
                && var room := rooms[roomId];
                && room.Joined(socket, nickname)
                && (forall q :: q in old(room.scores) ==> old(room.scores)[q] <= room.scores[q])
                && players == old(players)[socket := PlayerEntry(roomId, nickname)]
                && outbox == old(outbox) + [ToSocket(socket, RoomJoined(roomId)), ToRoom(roomId, GameStateUpdate(room.GetGameState()))]
    {
      var refusal := Refusal(roomId);
      if refusal.Some? {
        outbox := outbox + [ToSocket(socket, Error(refusal.value))];
        return;
      }
      Admit(socket, roomId, nickname);
    }

    /** The accepting end of `join-room` (server.js:303-308) for a room that has space and is
        waiting: the socket is added to the room and registered in it, told it joined, and
        the room is sent its state. The room changes as `Joined` says: the host, the game and
        the submissions stay as they were. */
    method Admit(socket: PlayerId, roomId: string, nickname: string)
      requires Valid() && roomId in rooms && |rooms[roomId].order| < MAX_PLAYERS
      modifies this`players, this`outbox, RoomOf(roomId)`order, RoomOf(roomId)`players, RoomOf(roomId)`scores
      ensures Valid() && rooms == old(rooms)
      ensures Registered(roomId, rooms[roomId], players)
      ensures var room := rooms[roomId];
              && room.Joined(socket, nickname)
              && (room.gameState == Waiting ==> forall q :: q in old(room.scores) ==> old(room.scores)[q] <= room.scores[q])
              && players == old(players)[socket := PlayerEntry(roomId, nickname)]
              && outbox == old(outbox) + [ToSocket(socket, RoomJoined(roomId)), ToRoom(roomId, GameStateUpdate(room.GetGameState()))]
    {
      Enrol(socket, roomId, nickname);
      var room := rooms[roomId];
      outbox := outbox + [ToSocket(socket, RoomJoined(roomId)), ToRoom(roomId, GameStateUpdate(room.GetGameState()))];
    }

    /** `room.addPlayer` and `players.set` (server.js:303-304): the socket is seated in the
        room and registered in it. */
    method Enrol(socket: PlayerId, roomId: string, nickname: string)
      requires Valid() && roomId in rooms && |rooms[roomId].order| < MAX_PLAYERS
      modifies this`players, RoomOf(roomId)`order, RoomOf(roomId)`players, RoomOf(roomId)`scores
      ensures Valid() && rooms == old(rooms)
      ensures Registered(roomId, rooms[roomId], players)
      ensures rooms[roomId].Joined(socket, nickname)
      ensures var room := rooms[roomId];
              room.gameState == Waiting ==> forall q :: q in old(room.scores) ==> old(room.scores)[q] <= room.scores[q]
      ensures players == old(players)[socket := PlayerEntry(roomId, nickname)]
    {
      var room := rooms[roomId];
      assert Registered(roomId, room, players);
      Seat(room, socket, nickname);
      players := players[socket := PlayerEntry(roomId, nickname)];
      assert Registered(roomId, room, players);
      forall r | r in rooms && r != roomId ensures Registered(r, rooms[r], players) {
        assert old(Registered(r, rooms[r], players));
      }
    }

    /** `start-game` (server.js:311-331): only the host of the socket's room may start it;
        the room's part is that of `Launch`, and its events go to the room. Otherwise
        nothing changes. The players, their scores, the host and the earlier round results
        are kept either way. */
    method StartGame(socket: PlayerId)
      requires Valid()
      modifies this`outbox, RoomOfSocket(socket)`gameState, RoomOfSocket(socket)`currentRound, RoomOfSocket(socket)`submissions, RoomOfSocket(socket)`subOrder, RoomOfSocket(socket)`roundsStarted, RoomOfSocket(socket)`clock
      ensures Valid() && rooms == old(rooms) && players == old(players)
      ensures socket !in players ==> outbox == old(outbox)
      ensures socket in players ==>
                && Registered(players[socket].roomId, rooms[players[socket].roomId], players)
                && var roomId := players[socket].roomId;
                var room: GameRoom := rooms[roomId];
                && unchanged(room`order, room`players, room`scores, room`hostId, room`roundResults)
                && if old(room.hostId) == socket && |old(room.order)| >= MIN_PLAYERS then
                  && room.gameState == Playing && room.currentRound == 1 && room.clock == RoundTimer
                  && room.subOrder == [] && room.submissions == map[]
                  && outbox == old(outbox) + Broadcast(roomId, [GameStarted, GameStateUpdate(room.GetGameState()), RoundStarted(1, ROUND_TIME)])
                else
                  unchanged(room) && outbox == old(outbox)
    {
      if socket !in players {
        return;
      }
      var roomId := players[socket].roomId;
      assert Registered(roomId, rooms[roomId], players);
      if rooms[roomId].hostId == socket {
        Open(roomId);
      }
    }

    /** The part of `start-game` once the host is known to have asked: the room's part is
        that of `Launch`, whose events go to the room; the players, their scores, the host and
        the earlier round results are kept. */
    method Open(roomId: string)
      requires Valid() && roomId in rooms
      modifies this`outbox, RoomOf(roomId)`gameState, RoomOf(roomId)`currentRound, RoomOf(roomId)`submissions, RoomOf(roomId)`subOrder, RoomOf(roomId)`roundsStarted, RoomOf(roomId)`clock
      ensures Valid() && rooms == old(rooms) && players == old(players)
      ensures Registered(roomId, rooms[roomId], players)
      ensures var room: GameRoom := rooms[roomId];
              && unchanged(room`order, room`players, room`scores, room`hostId, room`roundResults)
              && if |old(room.order)| >= MIN_PLAYERS then
                && room.gameState == Playing && room.currentRound == 1 && room.clock == RoundTimer
                && room.subOrder == [] && room.submissions == map[]
                && outbox == old(outbox) + Broadcast(roomId, [GameStarted, GameStateUpdate(room.GetGameState()), RoundStarted(1, ROUND_TIME)])
              else
                unchanged(room) && outbox == old(outbox)
    {
      var room := rooms[roomId];
      assert Registered(roomId, room, players);
      var events := Launch(room);
      assert Registered(roomId, room, players);
      forall r | r in rooms && r != roomId ensures Registered(r, rooms[r], players) {
        assert old(Registered(r, rooms[r], players));
      }
      outbox := outbox + Broadcast(roomId, events);
    }

    /** `handleRoundEnd` (server.js:233-267), run when the round timer fires or when the last
        player submits. It does nothing unless the room exists and its round timer runs, so a
        round that has already ended is never scored again; otherwise the room's part is that
        of `EndOfRound`, whose events go to the room: exactly one more round result, the
        earlier ones kept, the round timer no longer set, no score lower, the players and
        submissions untouched, and the result announced first. */
    method HandleRoundEnd(roomId: string)
      requires Valid()
      modifies this`outbox, RoomOf(roomId)`clock, RoomOf(roomId)`roundResults, RoomOf(roomId)`scoredRounds, RoomOf(roomId)`scores, RoomOf(roomId)`gameState, RoomOf(roomId)`currentRound
      ensures Valid() && rooms == old(rooms) && players == old(players)
      ensures !(roomId in rooms && old(rooms[roomId].clock) == RoundTimer) ==>
                outbox == old(outbox) && (roomId in rooms ==> unchanged(rooms[roomId]))
      ensures roomId in rooms && old(rooms[roomId].clock) == RoundTimer ==>
                var room: GameRoom := rooms[roomId];
                && |room.roundResults| == |old(room.roundResults)| + 1 && room.clock != RoundTimer
                && room.roundResults[..|old(room.roundResults)|] == old(room.roundResults)
                && room.scores.Keys == old(room.scores).Keys
                && (forall q :: q in room.scores ==> old(room.scores)[q] <= room.scores[q])
                && unchanged(room`order, room`players, room`hostId, room`subOrder, room`submissions)
                && |outbox| > |old(outbox)| && outbox[..|old(outbox)|] == old(outbox)
                && outbox[|old(outbox)|] == ToRoom(roomId, RoundEnded(room.roundResults[|room.roundResults| - 1]))
    {
      if roomId !in rooms {
        return;
      }
      var room := rooms[roomId];
      assert Registered(roomId, room, players);
      if room.clock != RoundTimer {
        return;
      }
      var events := Score(roomId);
      outbox := outbox + Broadcast(roomId, events);
    }

    /** The room's part of `handleRoundEnd` once its round timer is known to run
        (server.js:237-249), as `RoundEndOnce` states it, with every room still registered. */
    method Score(roomId: string) returns (events: seq<Event>)
      requires Valid() && roomId in rooms && rooms[roomId].clock == RoundTimer
      modifies RoomOf(roomId)`clock, RoomOf(roomId)`roundResults, RoomOf(roomId)`scoredRounds, RoomOf(roomId)`scores, RoomOf(roomId)`gameState, RoomOf(roomId)`currentRound
      ensures Valid() && rooms == old(rooms) && players == old(players)
      ensures var room: GameRoom := rooms[roomId];
              && |room.roundResults| == |old(room.roundResults)| + 1 && room.clock != RoundTimer
              && room.roundResults[..|old(room.roundResults)|] == old(room.roundResults)
              && room.scores.Keys == old(room.scores).Keys
              && (forall q :: q in room.scores ==> old(room.scores)[q] <= room.scores[q])
              && |events| > 0 && events[0] == RoundEnded(room.roundResults[|room.roundResults| - 1])
    {
      var room := rooms[roomId];
      assert Registered(roomId, room, players);
      events := RoundEndOnce(room);
      assert Registered(roomId, room, players);
      forall r | r in rooms && r != roomId ensures Registered(r, rooms[r], players) {
        assert old(Registered(r, rooms[r], players));
      }
    }

    /** One tick of the countdown interval (server.js:250-264): nothing unless the room
        exists and its countdown runs; otherwise the room's part is that of `Tick`, whose
        events go to the room. A tick keeps the game state, the round number, the players,
        the scores and the round results; only the last one clears the submissions. */
    method CountdownTick(roomId: string)
      requires Valid()
      modifies this`outbox, RoomOf(roomId)`clock, RoomOf(roomId)`submissions, RoomOf(roomId)`subOrder, RoomOf(roomId)`roundsStarted
      ensures Valid() && rooms == old(rooms) && players == old(players)
      ensures !(roomId in rooms && old(rooms[roomId].clock).Countdown?) ==>
                outbox == old(outbox) && (roomId in rooms ==> unchanged(rooms[roomId]))
      ensures roomId in rooms && old(rooms[roomId].clock).Countdown? ==>
                var room: GameRoom := rooms[roomId];
                var n := old(room.clock).next;
                && unchanged(room`gameState, room`currentRound, room`order, room`players, room`scores, room`hostId, room`roundResults)
                && if n - 1 < 0 then
                     && room.clock == RoundTimer && room.subOrder == [] && room.submissions == map[]
                     && outbox == old(outbox) + Broadcast(roomId, [NextRoundCountdown(n), RoundStarted(room.currentRound, ROUND_TIME)])
                   else
                     && room.clock == Countdown(n - 1) && unchanged(room`subOrder, room`submissions)
                     && outbox == old(outbox) + Broadcast(roomId, [NextRoundCountdown(n)])
    {
      if roomId !in rooms {
        return;
      }
      var room := rooms[roomId];
      assert Registered(roomId, room, players);
      if !room.clock.Countdown? {
        return;
      }
      var events := Tick(room);
      assert Registered(roomId, room, players);
      forall r | r in rooms && r != roomId ensures Registered(r, rooms[r], players) {
        assert old(Registered(r, rooms[r], players));
      }
      outbox := outbox + Broadcast(roomId, events);
    }

    /** What `RunCountdown` relies on of one `CountdownTick`: the events it sends, which end
        with the round's number once the countdown is through, and the room kept as
        `CountdownTick` keeps it. */
    method CountOnce(roomId: string) returns (step: seq<Event>)
      requires Valid() && roomId in rooms && rooms[roomId].clock.Countdown?
      modifies this`outbox, RoomOf(roomId)`clock, RoomOf(roomId)`submissions, RoomOf(roomId)`subOrder, RoomOf(roomId)`roundsStarted
      ensures Valid() && rooms == old(rooms) && players == old(players)
      ensures var room: GameRoom := rooms[roomId];
              var n := old(room.clock).next;
              && unchanged(room`gameState, room`currentRound, room`order, room`players, room`scores, room`hostId, room`roundResults)
              && outbox == old(outbox) + Broadcast(roomId, step)
              && step == [NextRoundCountdown(n)] + (if n - 1 < 0 then [RoundStarted(room.currentRound, ROUND_TIME)] else [])
              && if n - 1 < 0 then room.clock == RoundTimer && room.subOrder == [] && room.submissions == map[]
                 else room.clock == Countdown(n - 1) && unchanged(room`subOrder, room`submissions)
    {
      var n := rooms[roomId].clock.next;
      CountdownTick(roomId);
      step := [NextRoundCountdown(n)] + (if n - 1 < 0 then [RoundStarted(rooms[roomId].currentRound, ROUND_TIME)] else []);
    }

    /** A countdown left to run undisturbed: the room is sent 5, 4, 3, 2, 1 and 0, then the
        number of the round that opens, with the round timer set and no submissions; the game
        is still playing the same round number, with the same players, scores and results. */
    method RunCountdown(roomId: string)
      requires Valid() && roomId in rooms && rooms[roomId].clock == Countdown(COUNTDOWN_FROM)
      modifies this`outbox, RoomOf(roomId)`clock, RoomOf(roomId)`submissions, RoomOf(roomId)`subOrder, RoomOf(roomId)`roundsStarted
      ensures Valid() && rooms == old(rooms) && players == old(players)
      ensures rooms[roomId].clock == RoundTimer && rooms[roomId].subOrder == [] && rooms[roomId].submissions == map[]
      ensures rooms[roomId].gameState == Playing
      ensures var room: GameRoom := rooms[roomId];
              unchanged(room`gameState, room`currentRound, room`order, room`players, room`scores, room`hostId, room`roundResults)
      ensures outbox == old(outbox) + Broadcast(roomId, CountdownShown(COUNTDOWN_FROM) +
                                                          [RoundStarted(rooms[roomId].currentRound, ROUND_TIME)])
    {
      var room: GameRoom := rooms[roomId];
      ghost var shown: seq<Event> := [];
      while room.clock.Countdown?
        invariant Valid() && rooms == old(rooms) && players == old(players) && room == rooms[roomId]
        invariant outbox == old(outbox) + Broadcast(roomId, shown)
        invariant room.clock.Countdown? ==>
                    && 0 <= room.clock.next <= COUNTDOWN_FROM && |shown| == COUNTDOWN_FROM - room.clock.next
                    && forall k :: 0 <= k < |shown| ==> shown[k] == NextRoundCountdown(COUNTDOWN_FROM - k)
        invariant !room.clock.Countdown? ==>
                    && room.clock == RoundTimer && room.subOrder == [] && room.submissions == map[]
                    && shown == CountdownShown(COUNTDOWN_FROM) + [RoundStarted(room.currentRound, ROUND_TIME)]
        decreases if room.clock.Countdown? then room.clock.next + 1 else 0
      {
        var n := room.clock.next;
        var step := CountOnce(roomId);
        if n - 1 < 0 {
          assert CountdownShown(COUNTDOWN_FROM) == shown + [NextRoundCountdown(n)];
        }
        BroadcastAppend(roomId, shown, step);
        shown := shown + step;
      }
      assert Registered(roomId, room, players);
    }

    /** The part of `submit-word` (server.js:338-344) before the round may end: in a playing
        room the word is stored (a new submitter goes last in the key order) and announced,
        and `complete` tells whether every player has now submitted; otherwise nothing
        changes. Only the submissions ever change. */
    method AcceptWord(socket: PlayerId, word: string) returns (complete: bool)
      requires Valid() && socket in players && players[socket].roomId in rooms
      modifies this`outbox, RoomOfSocket(socket)`submissions, RoomOfSocket(socket)`subOrder
      ensures Valid() && rooms == old(rooms) && players == old(players)
      ensures var roomId := players[socket].roomId;
              var room: GameRoom := rooms[roomId];
              && unchanged(room`gameState, room`currentRound, room`clock, room`order, room`players, room`scores,
                           room`hostId, room`roundResults)
              && complete == (old(room.gameState) == Playing && |Insert(old(room.subOrder), socket)| == |old(room.order)|)
              && if old(room.gameState) != Playing then
                   unchanged(room) && outbox == old(outbox)
                 else
                   && room.submissions == old(room.submissions)[socket := Normalise(word)]
                   && room.subOrder == Insert(old(room.subOrder), socket)
                   && outbox == old(outbox) + [ToRoom(roomId, WordSubmitted(socket, players[socket].nickname))]
    {
      var entry := players[socket];
      var accepted;
      accepted, complete := Store(socket, word);
      if accepted {
        outbox := outbox + [ToRoom(entry.roomId, WordSubmitted(socket, entry.nickname))];
      }
    }

    /** `room.submitWord` (server.js:338): the socket's room stores the word when it is
        playing and reports whether every player has now submitted; nothing else changes. */
    method Store(socket: PlayerId, word: string) returns (accepted: bool, complete: bool)
      requires Valid() && socket in players && players[socket].roomId in rooms
      modifies RoomOfSocket(socket)`submissions, RoomOfSocket(socket)`subOrder
      ensures Valid() && rooms == old(rooms) && players == old(players)
      ensures var room: GameRoom := rooms[players[socket].roomId];
              && accepted == (old(room.gameState) == Playing)
              && complete == (accepted && |Insert(old(room.subOrder), socket)| == |old(room.order)|)
              && if accepted then
                   room.submissions == old(room.submissions)[socket := Normalise(word)]
                   && room.subOrder == Insert(old(room.subOrder), socket)
                 else
                   unchanged(room)
    {
      var entry := players[socket];
      var room := rooms[entry.roomId];
      assert Registered(entry.roomId, room, players) && socket in room.players;
      accepted, complete := room.SubmitWord(socket, word);
      assert Registered(entry.roomId, room, players);
      forall r | r in rooms && r != entry.roomId ensures Registered(r, rooms[r], players) {
        assert old(Registered(r, rooms[r], players));
      }
    }


    /** `submit-word` (server.js:333-350): a word from a socket whose room is playing is stored
        and announced to the room; when it completes the round, the round ends, and a round
        is scored once whichever of the timer and the last word comes first. The players and
        the host never change; a word that does not end the round changes nothing but the
        submissions, and one that does keeps the earlier results and lowers no score. */
    method SubmitWord(socket: PlayerId, word: string)
      requires Valid()
      modifies this`outbox, RoomOfSocket(socket)`submissions, RoomOfSocket(socket)`subOrder, RoomOfSocket(socket)`clock, RoomOfSocket(socket)`roundResults, RoomOfSocket(socket)`scoredRounds, RoomOfSocket(socket)`scores, RoomOfSocket(socket)`gameState, RoomOfSocket(socket)`currentRound
      ensures Valid() && rooms == old(rooms) && players == old(players)
      ensures socket !in players ==> outbox == old(outbox)
      ensures socket in players ==>
                var roomId := players[socket].roomId;
                var room: GameRoom := rooms[roomId];
                var completes := |Insert(old(room.subOrder), socket)| == |old(room.order)|;
                && unchanged(room`order, room`players, room`hostId)
                && if old(room.gameState) != Playing then
                  unchanged(room) && outbox == old(outbox)
                else
                  && room.submissions == old(room.submissions)[socket := Normalise(word)]
                  && room.subOrder == Insert(old(room.subOrder), socket)
                  && |outbox| > |old(outbox)|
                  && outbox[|old(outbox)|] == ToRoom(roomId, WordSubmitted(socket, players[socket].nickname))
                  && |room.roundResults| == |old(room.roundResults)| + (if completes && old(room.clock) == RoundTimer then 1 else 0)
                  && room.roundResults[..|old(room.roundResults)|] == old(room.roundResults)
                  && room.scores.Keys == old(room.scores).Keys
                  && (forall q :: q in room.scores ==> old(room.scores)[q] <= room.scores[q])
                  && (!(completes && old(room.clock) == RoundTimer) ==>
                        unchanged(room`scores, room`clock, room`gameState, room`currentRound))
    {
      if socket !in players || players[socket].roomId !in rooms {
        return;
      }
      var roomId := players[socket].roomId;
      var complete := AcceptWord(socket, word);
      if complete {
        ghost var mid := outbox;
        HandleRoundEnd(roomId);
        assert outbox[|old(outbox)|] == outbox[..|mid|][|old(outbox)|];
      }
    }

    /** `players.delete(socket.id)` (server.js:369): the socket is forgotten; the registry
        stays valid, since a room need only list the sockets still seated in it. */
    method Forget(socket: PlayerId)
      requires Valid()
      modifies this`players
      ensures Valid() && players == old(players) - {socket}
    {
      players := players - {socket};
      forall r | r in rooms ensures Registered(r, rooms[r], players) {
        assert old(Registered(r, rooms[r], players));
      }
    }

    /** The room's side of `disconnect` (server.js:358-366) for a socket already forgotten:
        the socket leaves the room as `Vacated` says (its score and its submission go with
        it, a departing host hands over to the earliest remaining player, the game itself is
        untouched); the room is deleted once empty and otherwise sent its state. */
    method Vacate(roomId: string, socket: PlayerId)
      requires Valid() && roomId in rooms && socket !in players
      modifies this`rooms, this`outbox, RoomOf(roomId)`order, RoomOf(roomId)`players, RoomOf(roomId)`scores,
               RoomOf(roomId)`hostId, RoomOf(roomId)`subOrder, RoomOf(roomId)`submissions
      ensures Valid() && players == old(players)
      ensures var room := old(rooms[roomId]);
              && room.Vacated(socket)
              && if room.order == [] then
                   rooms == old(rooms) - {roomId} && outbox == old(outbox)
                 else
                   && rooms == old(rooms) && Registered(roomId, room, players)
                   && outbox == old(outbox) + [ToRoom(roomId, GameStateUpdate(room.GetGameState()))]
    {
      var room := rooms[roomId];
      var emptied := Unseat(roomId, socket);
      if !emptied {
        outbox := outbox + [ToRoom(roomId, GameStateUpdate(room.GetGameState()))];
      }
    }

    /** `room.removePlayer` and, once the room is empty, `rooms.delete` (server.js:360-362)
        for a socket already forgotten. */
    method Unseat(roomId: string, socket: PlayerId) returns (emptied: bool)
      requires Valid() && roomId in rooms && socket !in players
      modifies this`rooms, RoomOf(roomId)`order, RoomOf(roomId)`players, RoomOf(roomId)`scores,
               RoomOf(roomId)`hostId, RoomOf(roomId)`subOrder, RoomOf(roomId)`submissions
      ensures Valid() && players == old(players)
      ensures var room := old(rooms[roomId]);
              && room.Vacated(socket) && emptied == (room.order == [])
              && if emptied then rooms == old(rooms) - {roomId}
                 else rooms == old(rooms) && Registered(roomId, room, players)
    {
      var room := rooms[roomId];
      assert Registered(roomId, room, players);
      emptied := Leave(room, socket);
      forall r | r in rooms && r != roomId ensures Registered(r, rooms[r], players) {
        assert old(Registered(r, rooms[r], players));
      }
      if emptied {
        forall s | s in players ensures players[s].roomId != roomId {
          assert s !in room.players;
        }
        rooms := rooms - {roomId};
      } else {
        forall s | s in players && players[s].roomId == roomId ensures s in room.players {
          assert s in old(room.players);
        }
      }
    }

    /** `disconnect` (server.js:353-371): the socket leaves its room as `Vacate` says, the
        room is deleted once empty and otherwise sent its state, and the socket is forgotten. The socket is
        forgotten first here; nothing in between reads the `players` Map. */
    method Disconnect(socket: PlayerId)
      requires Valid()
      modifies this`rooms, this`players, this`outbox, RoomOfSocket(socket)`order, RoomOfSocket(socket)`players,
               RoomOfSocket(socket)`scores, RoomOfSocket(socket)`hostId, RoomOfSocket(socket)`subOrder,
               RoomOfSocket(socket)`submissions
      ensures Valid()
      ensures players == old(players) - {socket}
      ensures socket !in old(players) ==> rooms == old(rooms) && outbox == old(outbox)
      ensures socket in old(players) ==>
                var roomId := old(players[socket].roomId);
                var room := old(rooms[roomId]);
                && room.Vacated(socket)
                && if room.order == [] then
                     rooms == old(rooms) - {roomId} && outbox == old(outbox)
                   else
                     && rooms == old(rooms) && Registered(roomId, room, players)
                     && outbox == old(outbox) + [ToRoom(roomId, GameStateUpdate(room.GetGameState()))]
    {
      if socket !in players {
        return;
      }
      var roomId := players[socket].roomId;
      Forget(socket);
      Vacate(roomId, socket);
    }
  }
}
