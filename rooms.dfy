/**
  The room table of server/server.js as values: one transition function per
  Socket.IO handler, from the old table to the new table and the messages the
  handler emits, the invariant every handler keeps, and lemmas relating
  several handlers.
*/
module Rooms {
  import opened Board
  import opened Protocol

  /** The Socket.IO connection id (`socket.id`). */
  type SessionId = string

  /** Inactivity after which the sweep closes a room: 30 minutes in milliseconds. */
  const IdleLimit: int := 30 * 60 * 1000

  /** One entry of `rooms` (server/server.js:144-151). */
  datatype Room = Room(
    id: string,
    players: seq<SessionId>,
    gameState: seq<Cell>,
    currentPlayer: Symbol,
    createdAt: int,
    lastActivity: int)

  /** The `rooms` object: room id to room. */
  type Table = map<string, Room>

  /** Who receives a message: the socket that sent the request, or every socket joined to a room. */
  datatype Recipient = Requester | RoomMembers(roomId: string)

  datatype Message = Message(to: Recipient, event: Event)

  /** What a handler leaves behind: the new table and what it emitted, in order. */
  datatype Outcome = Outcome(rooms: Table, out: seq<Message>)

  function Reply(e: Event): Message { Message(Requester, e) }

  function Broadcast(roomId: string, e: Event): Message { Message(RoomMembers(roomId), e) }

  // ---------------------------------------------------------------------------
  // The invariant

  /** X has moved as often as O, or once more exactly when it is O's turn. */
  predicate Balanced(r: Room)
  {
    Count(r.gameState, Mark(X)) == Count(r.gameState, Mark(O)) + (if r.currentPlayer == O then 1 else 0)
  }

  /** A stored room: keyed by its own id, one or two players, a nine-cell board, turns alternating. */
  predicate RoomOk(k: string, r: Room)
  {
    && r.id == k
    && 1 <= |r.players| <= 2
    && |r.gameState| == Cells
    && Balanced(r)
  }

  predicate TableOk(t: Table)
  {
    forall k :: k in t ==> RoomOk(k, t[k])
  }

  /** The room createRoom stores (server/server.js:144-151). */
  function NewRoom(roomId: string, sid: SessionId, now: int): Room
  {
    Room(roomId, [sid], EmptyBoard(), X, now, now)
  }

  lemma NewRoomOk(roomId: string, sid: SessionId, now: int)
    ensures RoomOk(roomId, NewRoom(roomId, sid, now))
  {
    EmptyBoardUnmarked(X);
    EmptyBoardUnmarked(O);
  }

  /** A room cleared to the empty board with X to move is still well formed. */
  lemma ClearedOk(k: string, r: Room, now: int)
    ensures RoomOk(k, r) ==> RoomOk(k, r.(gameState := EmptyBoard(), currentPlayer := X, lastActivity := now))
  {
    EmptyBoardUnmarked(X);
    EmptyBoardUnmarked(O);
  }

  /** Storing a well-formed room under its key keeps the table well formed. */
  lemma StoreOk(t: Table, k: string, r: Room)
    ensures TableOk(t) && RoomOk(k, r) ==> TableOk(t[k := r])
  {
  }

  // ---------------------------------------------------------------------------
  // createRoom

  /** createRoom(roomId) from socket `sid` at time `now`. */
  function Create(rooms: Table, roomId: string, sid: SessionId, now: int): (o: Outcome)
    ensures forall m :: m in o.out ==> m.to == Requester
    ensures roomId in rooms ==> o.rooms == rooms && o.out == [Reply(Error(RoomExistsText))]
    ensures roomId !in rooms ==>
      && o.rooms.Keys == rooms.Keys + {roomId}
      && (forall k :: k in rooms ==> o.rooms[k] == rooms[k])
      && o.rooms[roomId].id == roomId
      && o.rooms[roomId].players == [sid]
      && |o.rooms[roomId].gameState| == Cells
      && (forall i :: 0 <= i < Cells ==> o.rooms[roomId].gameState[i] == Empty)
      && o.rooms[roomId].currentPlayer == X
      && o.rooms[roomId].createdAt == now == o.rooms[roomId].lastActivity
      && o.out == [Reply(RoomCreated(roomId, X))]
    ensures TableOk(rooms) ==> TableOk(o.rooms)
  {
    if roomId !in rooms then
      NewRoomOk(roomId, sid, now);
      Outcome(rooms[roomId := NewRoom(roomId, sid, now)], [Reply(RoomCreated(roomId, X))])
    else
      Outcome(rooms, [Reply(Error(RoomExistsText))])
  }

  // ---------------------------------------------------------------------------
  // joinRoom

  /** The guard of joinRoom: the room exists and holds exactly one player. */
  predicate CanJoin(rooms: Table, roomId: string)
  {
    roomId in rooms && |rooms[roomId].players| == 1
  }

  /** joinRoom(roomId) from socket `sid` at time `now`. */
  function Join(rooms: Table, roomId: string, sid: SessionId, now: int): (o: Outcome)
    ensures CanJoin(rooms, roomId) ==>
      && o.rooms.Keys == rooms.Keys
      && (forall k :: k in rooms && k != roomId ==> o.rooms[k] == rooms[k])
      && o.rooms[roomId].players == rooms[roomId].players + [sid]
      && |o.rooms[roomId].players| == 2
      && o.rooms[roomId] == rooms[roomId].(players := o.rooms[roomId].players, lastActivity := now)
      && o.out == [Reply(RoomJoined(roomId, O)),
                   Broadcast(roomId, GameStart(roomId, rooms[roomId].gameState, rooms[roomId].currentPlayer))]
    ensures !CanJoin(rooms, roomId) ==>
      && o.rooms == rooms
      && o.out == [Reply(Error(if roomId in rooms then RoomFullText else RoomMissingText))]
    ensures TableOk(rooms) ==> TableOk(o.rooms)
  {
    if CanJoin(rooms, roomId) then
      var r := rooms[roomId];
      var r' := r.(players := r.players + [sid], lastActivity := now);
      Outcome(rooms[roomId := r'],
              [Reply(RoomJoined(roomId, O)), Broadcast(roomId, GameStart(roomId, r'.gameState, r'.currentPlayer))])
    else if roomId !in rooms then
      Outcome(rooms, [Reply(Error(RoomMissingText))])
    else
      Outcome(rooms, [Reply(Error(RoomFullText))])
  }

  // ---------------------------------------------------------------------------
  // makeMove

  /**
    The guard of makeMove: the room exists, the indexed cell is '' (an index
    outside the board reads `undefined`, which is not ''), and the payload's
    `player` string equals the room's current symbol.
  */
  predicate MoveAccepted(rooms: Table, roomId: string, cellIndex: int, player: string)
  {
    && roomId in rooms
    && 0 <= cellIndex < |rooms[roomId].gameState|
    && rooms[roomId].gameState[cellIndex] == Empty
    && Text(rooms[roomId].currentPlayer) == player
  }

  /** makeMove({roomId, cellIndex, player}) at time `now`. */
  function Move(rooms: Table, roomId: string, cellIndex: int, player: string, now: int): (o: Outcome)
    ensures !MoveAccepted(rooms, roomId, cellIndex, player) ==> o.rooms == rooms && o.out == []
    ensures MoveAccepted(rooms, roomId, cellIndex, player) ==>
      var r := rooms[roomId];
      && o.rooms.Keys == rooms.Keys
      && (forall k :: k in rooms && k != roomId ==> o.rooms[k] == rooms[k])
      && var r' := o.rooms[roomId];
      && |r'.gameState| == |r.gameState|
      && r'.gameState[cellIndex] == Mark(r.currentPlayer)
      && Text(r'.gameState[cellIndex].symbol) == player
      && (forall i :: 0 <= i < |r.gameState| && i != cellIndex ==> r'.gameState[i] == r.gameState[i])
      && r'.currentPlayer == Other(r.currentPlayer)
      && r'.lastActivity == now
      && r' == r.(gameState := r'.gameState, currentPlayer := r'.currentPlayer, lastActivity := now)
      && o.out == [Broadcast(roomId, GameUpdate(r'.gameState, r'.currentPlayer, cellIndex, player))]
    ensures TableOk(rooms) ==> TableOk(o.rooms)
  {
    if MoveAccepted(rooms, roomId, cellIndex, player) then
      var r := rooms[roomId];
      var r' := r.(gameState := r.gameState[cellIndex := Mark(r.currentPlayer)],
                   currentPlayer := Other(r.currentPlayer),
                   lastActivity := now);
      MoveKeepsBalance(r, cellIndex);
      Outcome(rooms[roomId := r'], [Broadcast(roomId, GameUpdate(r'.gameState, r'.currentPlayer, cellIndex, player))])
    else
      Outcome(rooms, [])
  }

  /** Marking an empty cell with the current symbol and passing the turn keeps the marks balanced. */
  lemma MoveKeepsBalance(r: Room, i: nat)
    requires i < |r.gameState| && r.gameState[i] == Empty
    ensures Balanced(r) ==> Balanced(r.(gameState := r.gameState[i := Mark(r.currentPlayer)], currentPlayer := Other(r.currentPlayer)))
  {
    CountUpdate(r.gameState, i, Mark(r.currentPlayer), Mark(X));
    CountUpdate(r.gameState, i, Mark(r.currentPlayer), Mark(O));
  }

  // ---------------------------------------------------------------------------
  // restartGame

  /** restartGame(roomId) at time `now`. */
  function Restart(rooms: Table, roomId: string, now: int): (o: Outcome)
    ensures roomId !in rooms ==> o.rooms == rooms && o.out == []
    ensures roomId in rooms ==>
      && o.rooms.Keys == rooms.Keys
      && (forall k :: k in rooms && k != roomId ==> o.rooms[k] == rooms[k])
      && |o.rooms[roomId].gameState| == Cells
      && (forall i :: 0 <= i < Cells ==> o.rooms[roomId].gameState[i] == Empty)
      && o.rooms[roomId].currentPlayer == X
      && o.rooms[roomId] == rooms[roomId].(gameState := o.rooms[roomId].gameState, currentPlayer := X, lastActivity := now)
      && o.out == [Broadcast(roomId, GameRestart(o.rooms[roomId].gameState, X))]
    ensures TableOk(rooms) ==> TableOk(o.rooms)
  {
    if roomId in rooms then
      var r' := rooms[roomId].(gameState := EmptyBoard(), currentPlayer := X, lastActivity := now);
      ClearedOk(roomId, rooms[roomId], now);
      StoreOk(rooms, roomId, r');
      Outcome(rooms[roomId := r'], [Broadcast(roomId, GameRestart(r'.gameState, r'.currentPlayer))])
    else
      Outcome(rooms, [])
  }

  // ---------------------------------------------------------------------------
  // getRooms

  /** The lobby list getRooms sends: every room with exactly one player. */
  function Available(rooms: Table): (a: map<string, RoomSummary>)
    ensures forall k :: k in a <==> k in rooms && |rooms[k].players| == 1
    ensures forall k :: k in a ==> a[k] == RoomSummary(k, 1, rooms[k].createdAt)
  {
    map k | k in rooms && |rooms[k].players| == 1 :: RoomSummary(k, |rooms[k].players|, rooms[k].createdAt)
  }

  // ---------------------------------------------------------------------------
  // ping

  /**
    ping({roomId}) at time `now`. An absent roomId and the empty string are
    both falsy in the source, so both are written "" here.
  */
  function KeepAlive(rooms: Table, roomId: string, now: int): (o: Outcome)
    ensures o.rooms.Keys == rooms.Keys
    ensures forall k :: k in rooms ==> o.rooms[k] == rooms[k].(lastActivity := o.rooms[k].lastActivity)
    ensures forall k :: k in rooms ==>
      o.rooms[k].lastActivity == if k == roomId && roomId != "" then now else rooms[k].lastActivity
    ensures o.out == [Reply(Pong(now))]
    ensures TableOk(rooms) ==> TableOk(o.rooms)
  {
    if roomId != "" && roomId in rooms then
      Outcome(rooms[roomId := rooms[roomId].(lastActivity := now)], [Reply(Pong(now))])
    else
      Outcome(rooms, [Reply(Pong(now))])
  }

  // ---------------------------------------------------------------------------
  // disconnect

  /** The first position of `x` in `s`, or -1 when it is absent, as indexOf answers. */
  function IndexOf(s: seq<SessionId>, x: SessionId): (i: int)
    ensures -1 <= i < |s|
    ensures i == -1 <==> x !in s
    ensures 0 <= i ==> s[i] == x && forall j :: 0 <= j < i ==> s[j] != x
  {
    if s == [] then -1
    else if s[0] == x then 0
    else
      var j := IndexOf(s[1..], x);
      assert s == [s[0]] + s[1..];
      if j == -1 then -1 else j + 1
  }

  /** The room after the first entry of sid is cut out of its players, when sid is listed. */
  function Leave(r: Room, sid: SessionId): (r': Room)
    ensures sid !in r.players ==> r' == r
    ensures r' == r.(players := r'.players)
    ensures multiset(r'.players) == multiset(r.players) - multiset{sid}
    ensures sid in r.players ==> |r'.players| == |r.players| - 1
  {
    var i := IndexOf(r.players, sid);
    if i == -1 then r
    else
      CutOut(r.players, i);
      r.(players := r.players[..i] + r.players[i + 1..])
  }

  /** Cutting out position i removes one occurrence of the value there. */
  lemma CutOut(p: seq<SessionId>, i: nat)
    requires i < |p|
    ensures multiset(p[..i] + p[i + 1..]) == multiset(p) - multiset{p[i]}
  {
    assert p == p[..i] + [p[i]] + p[i + 1..];
  }

  /** A room disconnect keeps: sid is not listed, or someone stays after it leaves. */
  predicate Survives(r: Room, sid: SessionId)
  {
    sid !in r.players || |r.players| > 1
  }

  /** The table after the disconnect loop has visited the keys in `done`. */
  function DisconnectIn(rooms: Table, sid: SessionId, done: set<string>): Table
  {
    map k | k in rooms && (k !in done || Survives(rooms[k], sid)) ::
      if k in done then Leave(rooms[k], sid) else rooms[k]
  }

  /** Visiting one more key in the disconnect loop. */
  lemma DisconnectStep(rooms: Table, sid: SessionId, done: set<string>, k: string)
    requires k in rooms && k !in done
    ensures DisconnectIn(rooms, sid, done + {k}) ==
      if Survives(rooms[k], sid) then DisconnectIn(rooms, sid, done)[k := Leave(rooms[k], sid)]
      else DisconnectIn(rooms, sid, done) - {k}
  {
  }

  /** disconnect of socket `sid`: the table after every room has been visited. */
  function AfterDisconnect(rooms: Table, sid: SessionId): (t: Table)
    ensures forall k :: k in t <==> k in rooms && rooms[k].players != [sid]
    ensures forall k :: k in t && sid !in rooms[k].players ==> t[k] == rooms[k]
    ensures forall k :: k in t && sid in rooms[k].players ==>
      && t[k] == rooms[k].(players := t[k].players)
      && multiset(t[k].players) == multiset(rooms[k].players) - multiset{sid}
      && |t[k].players| == |rooms[k].players| - 1
    ensures TableOk(rooms) ==> TableOk(t)
  {
    var t := DisconnectIn(rooms, sid, rooms.Keys);
    assert forall k :: k in rooms ==> (Survives(rooms[k], sid) <==> rooms[k].players != [sid]) by {
      forall k | k in rooms ensures Survives(rooms[k], sid) <==> rooms[k].players != [sid] {
        var p := rooms[k].players;
        if sid in p && |p| <= 1 { assert p == [sid]; }
      }
    }
    assert TableOk(rooms) ==> TableOk(t) by {
      if TableOk(rooms) {
        forall k | k in t ensures RoomOk(k, t[k]) {
          LeaveOk(k, rooms[k], sid);
        }
      }
    }
    t
  }

  /** A room that survives the disconnect stays well formed. */
  lemma LeaveOk(k: string, r: Room, sid: SessionId)
    requires RoomOk(k, r) && Survives(r, sid)
    ensures RoomOk(k, Leave(r, sid))
  {
    var r' := Leave(r, sid);
    assert r'.gameState == r.gameState && r'.currentPlayer == r.currentPlayer;
  }

  /** The finished disconnect loop computes AfterDisconnect, so it keeps the invariant. */
  lemma DisconnectKeepsInvariant(rooms: Table, sid: SessionId)
    ensures DisconnectIn(rooms, sid, rooms.Keys) == AfterDisconnect(rooms, sid)
    ensures TableOk(rooms) ==> TableOk(DisconnectIn(rooms, sid, rooms.Keys))
  {
  }

  /** The rooms that receive playerDisconnected: they listed sid and someone remains. */
  function Abandoned(rooms: Table, sid: SessionId): set<string>
  {
    set k | k in rooms && sid in rooms[k].players && |rooms[k].players| > 1
  }

  // ---------------------------------------------------------------------------
  // Notices sent by the loops over every room

  /** `out` tells each room in `ids` event `e`, once each, and says nothing else. */
  predicate Notified(out: seq<Message>, e: Event, ids: set<string>)
  {
    && (forall m :: m in out ==> m.event == e && m.to.RoomMembers? && m.to.roomId in ids)
    && (forall k :: k in ids ==> Broadcast(k, e) in out)
    && (forall i, j :: 0 <= i < j < |out| ==> out[i] != out[j])
  }

  /** Telling one more room. */
  lemma NotifyOneMore(out: seq<Message>, e: Event, ids: set<string>, k: string)
    requires Notified(out, e, ids) && k !in ids
    ensures Notified(out + [Broadcast(k, e)], e, ids + {k})
  {
    assert Broadcast(k, e) !in out;
  }

  /**
    One visit of the disconnect loop, from (`before`, `sent`) to (`after`,
    `sent'`), keeps the loop's invariant with `k` added to the visited keys.
  */
  lemma DisconnectVisit(rooms: Table, sid: SessionId, done: set<string>, k: string,
                        before: Table, sent: seq<Message>, after: Table, sent': seq<Message>)
    requires k in rooms && k !in done
    requires before == DisconnectIn(rooms, sid, done)
    requires Notified(sent, PlayerDisconnected, Abandoned(rooms, sid) * done)
    requires k in before
    requires sid !in before[k].players ==> after == before && sent' == sent
    requires sid in before[k].players && |before[k].players| == 1 ==> after == before - {k} && sent' == sent
    requires sid in before[k].players && |before[k].players| != 1 ==>
      after == before[k := Leave(before[k], sid)] && sent' == sent + [Broadcast(k, PlayerDisconnected)]
    ensures after == DisconnectIn(rooms, sid, done + {k})
    ensures Notified(sent', PlayerDisconnected, Abandoned(rooms, sid) * (done + {k}))
  {
    assert before[k] == rooms[k];
    DisconnectStep(rooms, sid, done, k);
    VisitedStep(Abandoned(rooms, sid), done, k);
    if sid in rooms[k].players && |rooms[k].players| != 1 {
      assert k in Abandoned(rooms, sid);
      NotifyOneMore(sent, PlayerDisconnected, Abandoned(rooms, sid) * done, k);
    }
  }

  /** A key the disconnect loop has not visited yet is still in the table. */
  lemma DisconnectVisitable(rooms: Table, sid: SessionId, done: set<string>, k: string)
    requires k in rooms && k !in done
    ensures k in DisconnectIn(rooms, sid, done)
  {
  }

  /** The notified part of `ids` grows by `k` exactly when `k` belongs to `ids`. */
  lemma VisitedStep(ids: set<string>, done: set<string>, k: string)
    requires k !in done
    ensures k !in ids * done
    ensures ids * (done + {k}) == if k in ids then ids * done + {k} else ids * done
  {
  }

  // ---------------------------------------------------------------------------
  // idle sweep

  /** The room has a non-zero last activity (0 counts as unset) more than the idle limit before `now`. */
  predicate Idle(r: Room, now: int)
  {
    r.lastActivity != 0 && now - r.lastActivity > IdleLimit
  }

  /** The table after the sweep loop has visited the keys in `done`. */
  function SweepIn(rooms: Table, now: int, done: set<string>): Table
  {
    map k | k in rooms && (k !in done || !Idle(rooms[k], now)) :: rooms[k]
  }

  /** Visiting one more key in the sweep loop. */
  lemma SweepStep(rooms: Table, now: int, done: set<string>, k: string)
    requires k in rooms && k !in done
    ensures SweepIn(rooms, now, done + {k}) ==
      if Idle(rooms[k], now) then SweepIn(rooms, now, done) - {k} else SweepIn(rooms, now, done)
  {
  }

  /** One visit of the sweep loop keeps the loop's invariant with `k` added to the visited keys. */
  lemma SweepVisit(rooms: Table, now: int, done: set<string>, k: string,
                   before: Table, sent: seq<Message>, after: Table, sent': seq<Message>)
    requires k in rooms && k !in done
    requires before == SweepIn(rooms, now, done)
    requires Notified(sent, RoomClosed(RoomClosedText), IdleRooms(rooms, now) * done)
    requires !Idle(rooms[k], now) ==> after == before && sent' == sent
    requires Idle(rooms[k], now) ==>
      after == before - {k} && sent' == sent + [Broadcast(k, RoomClosed(RoomClosedText))]
    ensures after == SweepIn(rooms, now, done + {k})
    ensures Notified(sent', RoomClosed(RoomClosedText), IdleRooms(rooms, now) * (done + {k}))
  {
    SweepStep(rooms, now, done, k);
    VisitedStep(IdleRooms(rooms, now), done, k);
    if Idle(rooms[k], now) {
      NotifyOneMore(sent, RoomClosed(RoomClosedText), IdleRooms(rooms, now) * done, k);
    }
  }

  /** The sweep at time `now`: exactly the idle rooms go. */
  function AfterSweep(rooms: Table, now: int): (t: Table)
    ensures forall k :: k in t <==> k in rooms && !Idle(rooms[k], now)
    ensures forall k :: k in t ==> t[k] == rooms[k]
    ensures TableOk(rooms) ==> TableOk(t)
  {
    SweepIn(rooms, now, rooms.Keys)
  }

  /** The rooms the sweep closes (and notifies with roomClosed). */
  function IdleRooms(rooms: Table, now: int): set<string>
  {
    set k | k in rooms && Idle(rooms[k], now)
  }

  // ---------------------------------------------------------------------------
  // Properties that relate several handlers

  /** The same id cannot be created twice without a deletion in between. */
  lemma CreateTwiceFails(rooms: Table, roomId: string, s1: SessionId, t1: int, s2: SessionId, t2: int)
    ensures var o1 := Create(rooms, roomId, s1, t1);
            Create(o1.rooms, roomId, s2, t2) == Outcome(o1.rooms, [Reply(Error(RoomExistsText))])
  {
  }

  /** Of two joins on a waiting room, the first succeeds and the second sees a full room. */
  lemma SecondJoinSeesFull(rooms: Table, roomId: string, s1: SessionId, t1: int, s2: SessionId, t2: int)
    requires CanJoin(rooms, roomId)
    ensures var o1 := Join(rooms, roomId, s1, t1);
            && o1.out[0] == Reply(RoomJoined(roomId, O))
            && Join(o1.rooms, roomId, s2, t2) == Outcome(o1.rooms, [Reply(Error(RoomFullText))])
  {
  }

  /** Two accepted moves in a row in one room are made by different symbols. */
  lemma MovesAlternate(rooms: Table, roomId: string, i: int, p: string, t1: int, j: int, q: string)
    requires MoveAccepted(rooms, roomId, i, p)
    requires MoveAccepted(Move(rooms, roomId, i, p, t1).rooms, roomId, j, q)
    ensures p != q
    ensures i != j
  {
    var r := rooms[roomId];
    assert q == Text(Other(r.currentPlayer));
    assert p == Text(r.currentPlayer);
  }

  /** A room pinged at `now` survives every sweep up to the idle limit later. */
  lemma PingKeepsRoomAlive(rooms: Table, roomId: string, now: int, later: int)
    requires roomId != "" && roomId in rooms
    requires later - now <= IdleLimit
    ensures roomId in AfterSweep(KeepAlive(rooms, roomId, now).rooms, later)
  {
  }

  /** Sweeping twice at the same time is sweeping once. */
  lemma SweepIdempotent(rooms: Table, now: int)
    ensures AfterSweep(AfterSweep(rooms, now), now) == AfterSweep(rooms, now)
  {
  }

  /** sid occurs at most once in every room. */
  predicate ListedAtMostOnce(rooms: Table, sid: SessionId)
  {
    forall k :: k in rooms ==> multiset(rooms[k].players)[sid] <= 1
  }

  /** If sid occurs at most once per room, disconnect removes it from every room. */
  lemma {:induction false} DisconnectRemovesSession(rooms: Table, sid: SessionId)
    requires ListedAtMostOnce(rooms, sid)
    ensures forall k :: k in AfterDisconnect(rooms, sid) ==> sid !in AfterDisconnect(rooms, sid)[k].players
  {
    var t := AfterDisconnect(rooms, sid);
    forall k | k in t ensures sid !in t[k].players {
      if sid in rooms[k].players {
        assert multiset(t[k].players)[sid] == multiset(rooms[k].players)[sid] - 1;
      }
    }
  }

  /** Disconnecting a socket no room lists changes nothing. */
  lemma DisconnectUnlisted(rooms: Table, sid: SessionId)
    requires forall k :: k in rooms ==> sid !in rooms[k].players
    ensures AfterDisconnect(rooms, sid) == rooms
  {
    var t := AfterDisconnect(rooms, sid);
    forall k | k in rooms ensures k in t && t[k] == rooms[k] {
      assert sid !in rooms[k].players;
      assert [sid][0] == sid;
    }
  }

  /** Under the same condition a second disconnect of the same socket changes nothing. */
  lemma DisconnectIdempotent(rooms: Table, sid: SessionId)
    requires ListedAtMostOnce(rooms, sid)
    ensures AfterDisconnect(AfterDisconnect(rooms, sid), sid) == AfterDisconnect(rooms, sid)
  {
    DisconnectRemovesSession(rooms, sid);
    DisconnectUnlisted(AfterDisconnect(rooms, sid), sid);
  }

  /**
    A socket that joins its own room is listed twice; its disconnect removes
    only the first entry, so the room survives with the departed socket in it
    and is offered again by getRooms.
  */
  lemma SelfJoinLeavesStaleEntry(roomId: string, sid: SessionId, t1: int, t2: int)
    ensures var o1 := Create(map[], roomId, sid, t1);
            var o2 := Join(o1.rooms, roomId, sid, t2);
            var t := AfterDisconnect(o2.rooms, sid);
            && roomId in t && t[roomId].players == [sid]
            && roomId in Available(t)
  {
    var o1 := Create(map[], roomId, sid, t1);
    var o2 := Join(o1.rooms, roomId, sid, t2);
    assert o2.rooms[roomId].players == [sid, sid];
    var t := AfterDisconnect(o2.rooms, sid);
    assert multiset(t[roomId].players) == multiset{sid};
    assert |t[roomId].players| == 1;
    assert t[roomId].players[0] in multiset(t[roomId].players);
  }

  /**
    A room told playerDisconnected keeps its one remaining player, so it is
    offered by getRooms and a third socket may join it; nothing marks it closed.
  */
  lemma AbandonedRoomJoinable(rooms: Table, sid: SessionId, k: string)
    requires TableOk(rooms) && k in Abandoned(rooms, sid)
    ensures CanJoin(AfterDisconnect(rooms, sid), k)
    ensures k in Available(AfterDisconnect(rooms, sid))
  {
    assert rooms[k].players != [sid];
  }

  /**
    A socket that joins a room whose opponent left mid-game is sent gameStart
    with the board as it was left and the turn as it stood, not an empty board
    with X to move.
  */
  lemma RejoinSeesOldBoard(roomId: string, s1: SessionId, s2: SessionId, s3: SessionId)
    requires s1 != s2
    ensures var o1 := Create(map[], roomId, s1, 1);
            var o2 := Join(o1.rooms, roomId, s2, 2);
            var o3 := Move(o2.rooms, roomId, 4, "X", 3);
            var t := AfterDisconnect(o3.rooms, s2);
            var o4 := Join(t, roomId, s3, 4);
            o4.out[1] == Broadcast(roomId, GameStart(roomId, EmptyBoard()[4 := Mark(X)], O))
  {
    var o1 := Create(map[], roomId, s1, 1);
    var o2 := Join(o1.rooms, roomId, s2, 2);
    assert o2.rooms[roomId].players == [s1, s2];
    var o3 := Move(o2.rooms, roomId, 4, "X", 3);
    assert o3.rooms[roomId].gameState == EmptyBoard()[4 := Mark(X)];
    var t := AfterDisconnect(o3.rooms, s2);
    assert o3.rooms[roomId].players == [s1, s2] != [s2];
    assert |t[roomId].players| == 1;
  }
}
