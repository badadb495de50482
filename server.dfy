/**
  The Socket.IO handlers of server/server.js over the shared `rooms` object.
  Each method changes `rooms` as its handler does and returns what the
  handler emits; its postcondition ties both to the transition function of
  the same handler in module Rooms, and every method keeps TableOk.
*/
module Server {
  import opened Board
  import opened Protocol
  import opened Rooms

  class RoomServer {
    /** `const rooms = {}` (server/server.js:76). */
    var rooms: Table

    ghost predicate Valid()
      reads this
    {
      TableOk(rooms)
    }

    constructor ()
      ensures Valid() && rooms == map[]
    {
      rooms := map[];
    }

    /** socket.on('createRoom', roomId) */
    method CreateRoom(roomId: string, sid: SessionId, now: int) returns (out: seq<Message>)
      requires Valid()
      modifies this
      ensures Valid()
      ensures Outcome(rooms, out) == Rooms.Create(old(rooms), roomId, sid, now)
    {
      if roomId !in rooms {
        NewRoomOk(roomId, sid, now);
        rooms := rooms[roomId := NewRoom(roomId, sid, now)];
        out := [Reply(RoomCreated(roomId, X))];
      } else {
        out := [Reply(Error(RoomExistsText))];
      }
    }

    /** socket.on('joinRoom', roomId) */
    method JoinRoom(roomId: string, sid: SessionId, now: int) returns (out: seq<Message>)
      requires Valid()
      modifies this
      ensures Valid()
      ensures Outcome(rooms, out) == Rooms.Join(old(rooms), roomId, sid, now)
    {
      if roomId in rooms && |rooms[roomId].players| == 1 {
        var room := rooms[roomId];
        room := room.(players := room.players + [sid]);
        room := room.(lastActivity := now);
        rooms := rooms[roomId := room];
        out := [Reply(RoomJoined(roomId, O)),
                Broadcast(roomId, GameStart(roomId, rooms[roomId].gameState, rooms[roomId].currentPlayer))];
      } else if roomId !in rooms {
        out := [Reply(Error(RoomMissingText))];
      } else {
        out := [Reply(Error(RoomFullText))];
      }
    }

    /** socket.on('makeMove', {roomId, cellIndex, player}) */
    method MakeMove(roomId: string, cellIndex: int, player: string, now: int) returns (out: seq<Message>)
      requires Valid()
      modifies this
      ensures Valid()
      ensures Outcome(rooms, out) == Rooms.Move(old(rooms), roomId, cellIndex, player, now)
    {
      out := [];
      if roomId in rooms && 0 <= cellIndex < |rooms[roomId].gameState|
         && rooms[roomId].gameState[cellIndex] == Empty && Text(rooms[roomId].currentPlayer) == player
      {
        var room := rooms[roomId];
        MoveKeepsBalance(room, cellIndex);
        // `player` is the text of the current symbol here, so the cell receives that symbol.
        room := room.(gameState := room.gameState[cellIndex := Mark(room.currentPlayer)]);
        room := room.(currentPlayer := Other(room.currentPlayer));
        room := room.(lastActivity := now);
        rooms := rooms[roomId := room];
        out := [Broadcast(roomId, GameUpdate(rooms[roomId].gameState, rooms[roomId].currentPlayer, cellIndex, player))];
      }
    }

    /** socket.on('restartGame', roomId) */
    method RestartGame(roomId: string, now: int) returns (out: seq<Message>)
      requires Valid()
      modifies this
      ensures Valid()
      ensures Outcome(rooms, out) == Rooms.Restart(old(rooms), roomId, now)
    {
      out := [];
      if roomId in rooms {
        ClearedOk(roomId, rooms[roomId], now);
        var room := rooms[roomId].(gameState := EmptyBoard(), currentPlayer := X, lastActivity := now);
        rooms := rooms[roomId := room];
        out := [Broadcast(roomId, GameRestart(rooms[roomId].gameState, rooms[roomId].currentPlayer))];
      }
    }

    /** socket.on('getRooms'): one visit per key, collecting the rooms with exactly one player. */
    method GetRooms() returns (out: seq<Message>)
      ensures out == [Reply(RoomsList(Available(rooms)))]
    {
      var available: map<string, RoomSummary> := map[];
      var pending := rooms.Keys;
      while pending != {}
        invariant pending <= rooms.Keys
        invariant forall k :: k in available <==> k in rooms && k !in pending && |rooms[k].players| == 1
        invariant forall k :: k in available ==> available[k] == RoomSummary(k, 1, rooms[k].createdAt)
        decreases pending
      {
        var roomId :| roomId in pending;
        pending := pending - {roomId};
        if |rooms[roomId].players| == 1 {
          available := available[roomId := RoomSummary(roomId, |rooms[roomId].players|, rooms[roomId].createdAt)];
        }
      }
      assert available == Available(rooms);
      out := [Reply(RoomsList(available))];
    }

    /** socket.on('ping', {roomId}); a missing roomId is passed as "". */
    method Ping(roomId: string, now: int) returns (out: seq<Message>)
      requires Valid()
      modifies this
      ensures Valid()
      ensures Outcome(rooms, out) == KeepAlive(old(rooms), roomId, now)
    {
      if roomId != "" && roomId in rooms {
        rooms := rooms[roomId := rooms[roomId].(lastActivity := now)];
      }
      out := [Reply(Pong(now))];
    }

    /**
      socket.on('disconnect'): visits every key once; where the socket is
      listed, its first entry is spliced out, and the room is deleted when
      nobody remains or told playerDisconnected otherwise.
    */
    method Disconnect(sid: SessionId) returns (out: seq<Message>)
      requires Valid()
      modifies this
      ensures Valid()
      ensures rooms == AfterDisconnect(old(rooms), sid)
      ensures Notified(out, PlayerDisconnected, Abandoned(old(rooms), sid))
    {
      ghost var start := rooms;
      ghost var done: set<string> := {};
      var pending := rooms.Keys;
      out := [];
      while pending != {}
        invariant done !! pending && done + pending == start.Keys
        invariant rooms == DisconnectIn(start, sid, done)
        invariant Notified(out, PlayerDisconnected, Abandoned(start, sid) * done)
        decreases pending
      {
        var roomId :| roomId in pending;
        ghost var before, sent := rooms, out;
        pending := pending - {roomId};
        DisconnectVisitable(start, sid, done, roomId);
        var notice := LeaveRoom(roomId, sid);
        out := out + notice;
        DisconnectVisit(start, sid, done, roomId, before, sent, rooms, out);
        done := done + {roomId};
      }
      assert done == start.Keys;
      assert Abandoned(start, sid) * start.Keys == Abandoned(start, sid);
      DisconnectKeepsInvariant(start, sid);
    }

    /**
      The disconnect handler's visit of one room: the first entry of `sid`, if
      any, is cut out of its players (indexOf, then splice); the room is
      deleted when nobody remains, and otherwise told playerDisconnected.
    */
    method LeaveRoom(roomId: string, sid: SessionId) returns (notice: seq<Message>)
      requires roomId in rooms
      modifies this
      ensures var r := old(rooms)[roomId];
        && (sid !in r.players ==> rooms == old(rooms) && notice == [])
        && (sid in r.players && |r.players| == 1 ==> rooms == old(rooms) - {roomId} && notice == [])
        && (sid in r.players && |r.players| != 1 ==>
              rooms == old(rooms)[roomId := Leave(r, sid)] && notice == [Broadcast(roomId, PlayerDisconnected)])
    {
      notice := [];
      var room := rooms[roomId];
      var playerIndex := IndexOf(room.players, sid);
      if playerIndex != -1 {
        room := room.(players := room.players[..playerIndex] + room.players[playerIndex + 1..]);
        assert room == Leave(rooms[roomId], sid);
        if |room.players| == 0 {
          rooms := rooms - {roomId};
        } else {
          rooms := rooms[roomId := room];
          notice := [Broadcast(roomId, PlayerDisconnected)];
        }
      }
    }

    /**
      The idle sweep run every 30 minutes (server/server.js:114-128): every
      idle room is told roomClosed and deleted.
    */
    method SweepIdleRooms(now: int) returns (out: seq<Message>)
      requires Valid()
      modifies this
      ensures Valid()
      ensures rooms == AfterSweep(old(rooms), now)
      ensures Notified(out, RoomClosed(RoomClosedText), IdleRooms(old(rooms), now))
    {
      ghost var start := rooms;
      ghost var done: set<string> := {};
      var pending := rooms.Keys;
      out := [];
      while pending != {}
        invariant done !! pending && done + pending == start.Keys
        invariant rooms == SweepIn(start, now, done)
        invariant Notified(out, RoomClosed(RoomClosedText), IdleRooms(start, now) * done)
        decreases pending
      {
        var roomId :| roomId in pending;
        ghost var before, sent := rooms, out;
        pending := pending - {roomId};
        assert rooms[roomId] == start[roomId];
        if rooms[roomId].lastActivity != 0 && now - rooms[roomId].lastActivity > IdleLimit {
          out := out + [Broadcast(roomId, RoomClosed(RoomClosedText))];
          rooms := rooms - {roomId};
        }
        SweepVisit(start, now, done, roomId, before, sent, rooms, out);
        done := done + {roomId};
      }
      assert done == start.Keys;
      assert IdleRooms(start, now) * start.Keys == IdleRooms(start, now);
    }
  }
}
