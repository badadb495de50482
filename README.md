# Online tic-tac-toe: room server and client rules

This project models the two halves of a browser tic-tac-toe game that is
played over Socket.IO.

The server (server/server.js) keeps one in-memory object, `rooms`, that maps
a room id to the room's players, its nine-cell board, whose turn it is, and
two timestamps. It answers seven socket events (createRoom, joinRoom,
makeMove, restartGame, getRooms, ping, disconnect). Every 30 minutes it also
sweeps away idle rooms. The model is the class `Server.RoomServer`: it has a
`rooms: map<string, Room>` field and one method per handler. Each method
returns the messages the handler emits, as values `Message(to, event)`. A
message goes either to the requesting socket (`Requester`) or to everyone in
a room (`RoomMembers(id)`). Each method's postcondition ties the new table
and the messages to a transition function of the same handler in module
`Rooms`. Those functions state what the handler promises. Every handler
keeps the table invariant `TableOk`:

- each room is stored under its own id;
- it has one or two players;
- its board has nine cells;
- X has moved as often as O, plus one exactly when it is O's turn.

Lemmas in `Rooms` relate several handlers.

The client (script.js) keeps its game state in globals. The model is the
class `Client.GameClient` with those globals as fields. Its methods are the
handlers that read or change them, without their page writes. The result
check, a cell click, starting a local game, going home and the reconnect
counter change them; the status line only reads them and returns what is
shown. The pure parts are in module `GameRules`:

- the eight winning lines;
- the relative "created ... ago" text;
- the newest-first order of the lobby list.

Modules: `Wrappers` (Option), `Board` (symbols, cells, mark counts),
`Protocol` (outbound events and their texts), `Rooms`, `Server`,
`GameRules`, `Client`.

Conventions of the model:

- The clock is a parameter `now` (milliseconds). Each handler reads the clock
  once: both `Date.now()` calls in createRoom, and both in ping (the new
  lastActivity and the pong timestamp), see the same `now`.
- The makeMove payload's `player` stays a string. A move is accepted only
  when it equals the text of the room's current symbol.
- An index outside the board is rejected, because the cell it reads is not
  the empty string.
- A ping without a room id is passed as `""`, which is falsy like a missing
  one.
- A `lastActivity` of 0 counts as unset, as the sweep's truthiness test
  treats it.
- Disconnect removes only the first entry of the socket in each room, as
  `indexOf` plus `splice` does.

Three behaviours of the code worth knowing:

- joinRoom's gameStart carries the room's board and turn as they stand. That
  is not always an empty board with X to move: `Rooms.RejoinSeesOldBoard`
  shows a join after a mid-game disconnect.
- Nothing marks a room as closed after playerDisconnected. Such a room is
  listed by getRooms and can be joined again (`Rooms.AbandonedRoomJoinable`).
- joinRoom refuses every room whose player count is not exactly one.

## Model

| member | source | states |
|---|---|---|
| Board.Other | server/server.js:194 | the symbol that moves next is never the one that just moved |
| Board.Text | server/server.js:190 | the string compared with the payload's player is one character: "X" exactly for X and "O" exactly for O |
| Board.EmptyBoard | server/server.js:147 | nine cells, all empty (the same board as at server/server.js:209 and script.js:5, 319) |
| Server.RoomServer.constructor | server/server.js:76 | the server starts with no rooms |
| Rooms.MoveAccepted | server/server.js:188-190 | the move guard: the room exists, the index is on its board, that cell is empty and the payload names the current symbol |
| Rooms.NewRoom | server/server.js:144-151 | the stored room: its own id, only the creator as player, nine empty cells, X to move, both timestamps `now` |
| Rooms.NewRoomOk | server/server.js:144-151 | a new room meets the room invariant |
| Rooms.Create | server/server.js:139-159 | an unused id gains exactly one room holding only the requester, with nine empty cells, X to move and both timestamps `now`, and only the requester is told it plays X; a taken id leaves the table unchanged and only the requester gets "La sala ya existe"; the invariant is kept |
| Server.RoomServer.CreateRoom | server/server.js:139-159 | the new table and the emitted messages are those of `Rooms.Create`; the invariant is kept |
| Rooms.CanJoin | server/server.js:166 | the joinRoom guard: the room exists and holds exactly one player |
| Rooms.Join | server/server.js:162-182 | on a room with exactly one player the requester is appended (two players now), lastActivity is set, no other room changes, the joiner is told O and then the room gets gameStart with its board and turn; otherwise nothing changes and the requester gets "La sala no existe" for a missing id and "La sala está llena" for any other count; the invariant is kept |
| Server.RoomServer.JoinRoom | server/server.js:162-182 | the new table and the emitted messages are those of `Rooms.Join`; the invariant is kept |
| Rooms.Move | server/server.js:185-204 | a move is applied only when the room exists, the index is on the board, the cell is empty and the payload names the current symbol; it then sets that one cell to the payload's symbol, leaves every other cell and room alone, flips the turn, sets lastActivity and broadcasts gameUpdate; otherwise nothing changes and nothing is sent; the invariant is kept |
| Rooms.MoveKeepsBalance | server/server.js:193-194 | marking an empty cell with the current symbol and passing the turn keeps X's and O's mark counts in step with the turn |
| Server.RoomServer.MakeMove | server/server.js:185-204 | the new table and the emitted messages are those of `Rooms.Move`; the invariant is kept |
| Rooms.Restart | server/server.js:207-218 | an existing room gets nine empty cells and X to move whatever it held, keeps its players and creation time, and its members get gameRestart; a missing room is a no-op that sends nothing |
| Server.RoomServer.RestartGame | server/server.js:207-218 | the new table and the emitted messages are those of `Rooms.Restart`; the invariant is kept |
| Rooms.Available | server/server.js:224-231 | the lobby lists exactly the rooms with one player, each as its id, count 1 and creation time |
| Server.RoomServer.GetRooms | server/server.js:221-236 | the loop over every key replies exactly `Available(rooms)` to the requester, and the method changes nothing |
| Rooms.KeepAlive | server/server.js:239-245 | a non-empty id naming a room moves only that room's lastActivity to `now`; every other field and room stays; the requester always gets pong with `now` |
| Server.RoomServer.Ping | server/server.js:239-245 | the new table and the reply are those of `Rooms.KeepAlive` |
| Rooms.IndexOf | server/server.js:254 | -1 exactly when the socket is not listed, and otherwise its first position |
| Rooms.Leave | server/server.js:256-257 | a listed socket loses one entry, so the player count drops by one; nothing else in the room changes |
| Rooms.Abandoned | server/server.js:253-265 | the rooms told playerDisconnected: they list the socket and keep a player once one entry is removed |
| Rooms.AfterDisconnect | server/server.js:248-269 | a room disappears exactly when the socket was its only player; rooms that do not list it are unchanged; the others lose one entry of it and keep their board; the invariant is kept |
| Rooms.DisconnectVisit | server/server.js:252-268 | one visit of the disconnect loop keeps the loop's invariant: the table is the one after the visited keys, and exactly the visited abandoned rooms have been told playerDisconnected |
| Server.RoomServer.LeaveRoom | server/server.js:253-267 | the visit of one room: an unlisted socket changes nothing; a sole player's room is deleted; otherwise the socket's first entry is cut out and the room is told playerDisconnected |
| Server.RoomServer.Disconnect | server/server.js:248-269 | after visiting every key the table is `AfterDisconnect`; each room that listed the socket and still has a player gets playerDisconnected once, and nothing else is sent |
| Rooms.Idle | server/server.js:117 | a room is idle when its lastActivity is set (non-zero) and more than 30 minutes before `now` |
| Rooms.IdleRooms | server/server.js:117-120 | the rooms told roomClosed: exactly the idle ones |
| Rooms.AfterSweep | server/server.js:114-128 | the sweep removes exactly the rooms with a non-zero lastActivity more than 30 minutes before `now`, and keeps the others unchanged |
| Rooms.SweepVisit | server/server.js:116-127 | one visit of the sweep loop keeps the loop's invariant on the table and on the roomClosed notices |
| Server.RoomServer.SweepIdleRooms | server/server.js:114-128 | the table becomes `AfterSweep`, and each removed room gets roomClosed "Sala cerrada por inactividad" once |
| Rooms.CreateTwiceFails | server/server.js:143-158 | a second createRoom on the same id fails with "La sala ya existe" and changes nothing |
| Rooms.SecondJoinSeesFull | server/server.js:166-181 | of two joins on a waiting room the first is told O and the second gets "La sala está llena" |
| Rooms.MovesAlternate | server/server.js:188-194 | two moves accepted in a row in one room name different symbols and different cells |
| Rooms.PingKeepsRoomAlive | server/server.js:117 | a pinged room survives every sweep up to 30 minutes later |
| Rooms.SweepIdempotent | server/server.js:116-126 | a second sweep at the same time removes nothing more |
| Rooms.DisconnectRemovesSession | server/server.js:252-257 | when a socket is listed at most once per room, no remaining room lists it after its disconnect |
| Rooms.DisconnectIdempotent | server/server.js:252-257 | under the same condition a second disconnect of the socket changes nothing |
| Rooms.SelfJoinLeavesStaleEntry | server/server.js:166-167 | a socket that joins its own room is listed twice, and after its disconnect the room survives with that departed socket and is offered in the lobby |
| Rooms.AbandonedRoomJoinable | server/server.js:260-266 | a room told playerDisconnected can be joined and is listed by getRooms |
| Rooms.RejoinSeesOldBoard | server/server.js:173 | a join after a mid-game disconnect is sent gameStart with the board as it was left and O to move |
| GameRules.WinningLinesOnBoard | script.js:457-461 | there are eight lines, each of three distinct cells of the board |
| GameRules.Won | script.js:466-467 | line `i` holds three equal non-empty marks |
| GameRules.HasWin | script.js:465-471 | some line is won |
| GameRules.LineOwner | script.js:498 | the winner reported for a won line is the mark on its first cell |
| GameRules.Full | script.js:479 | no cell is empty |
| GameRules.Decimal | script.js:305 | the count is written as decimal digits, at least one, with no leading zero, and "0" exactly for 0 (as at script.js:308 and 311) |
| GameRules.TimeAgo | script.js:299-312 | whole seconds below 60 are "a few seconds", below an hour are minutes, below a day are hours, and otherwise days, with the counts rounded down and in range |
| GameRules.TimeAgoMonotone | script.js:299-312 | an older timestamp never gets a younger bucket, nor a smaller count in the same bucket |
| GameRules.AgoText | script.js:302-311 | the seconds bucket and only it reads "hace unos segundos"; every text starts with "hace "; a counted text goes on with the count's digits, a space and the bucket's own unit word (minuto(s), hora(s), día(s)), which ends in "s" exactly when the count is not 1 |
| GameRules.DecimalRoundTrip | script.js:305 | the digits written for a count read back as that count |
| GameRules.InsertNewest | script.js:274-276 | inserting one id into a newest-first list keeps it newest first and adds exactly that id |
| GameRules.SortNewestFirst | script.js:274-276 | the lobby order is a permutation of the received ids with creation times never increasing |
| Client.GameClient.constructor | script.js:3-11 | the globals start inactive, X to move, an empty board, no symbol, no room, online, no attempts |
| Client.GameClient.CheckGameResult | script.js:456-482 | the game stays active exactly when it was active, no line holds three equal marks, and some cell is empty |
| Client.GameClient.UpdateStatus | script.js:485-525 | a winner is reported exactly when some line is won, and it is the owner of the first won line in the listed order; a draw exactly when no line is won and the board is full; otherwise the turn of the current player, with "your turn" or "waiting" in online mode by comparing with this browser's symbol |
| Client.GameClient.HandleCellClick | script.js:405-439 | an occupied cell, a finished game, or an online click out of turn changes nothing and sends nothing; online the move is sent for this room, cell and symbol; locally exactly that cell gets the current symbol, the game stays active exactly when nothing is won and a cell is empty, and the turn passes only then |
| Client.GameClient.StartLocalGame | script.js:315-333 | local mode, nine empty cells, X to move, this browser plays X, the game is active |
| Client.GameClient.ResetToHome | script.js:550-570 | the room and the symbol are cleared and the game is inactive; the board, turn, mode and counter stay |
| Client.GameClient.OnConnect | script.js:102-107 | a connection resets the reconnect counter to 0 |
| Client.GameClient.OnDisconnect | script.js:124-145 | a disconnect during an active online game adds one attempt; up to 3 attempts a reconnect is scheduled and the game continues; past 3 the decision is always to give up and the client goes home; otherwise the decision is to leave things as they are and nothing changes; the counter never exceeds 4 |

## Left out

- HTTP setup, middleware, static files and the `/health`, `/stats` and `/config` endpoints of server/server.js, and its process, signal and logging code: plumbing over libraries outside this model.
- Socket.IO transport, `socket.join` and the delivery of emits: an emit is a returned `Message`, and delivery is not modelled.
- Timers: the 30-minute sweep interval, the client's ping interval and the reconnect timeout. The sweep and the reconnect decision are plain methods of `now` and of the counter.
- Object.keys order: JavaScript fixes it (integer-like keys ascending, then the others in insertion order), but the model does not follow it: the loops pick keys in any order, so the order of notices across rooms is not fixed. The postconditions say which rooms are told, once each, and nothing else.
- Room records are values in a map, so aliasing of a room object between handlers is not modelled. Each handler reads and writes the room within one step, so the source does not depend on aliasing.
- Malformed payloads: a non-integer `cellIndex` such as `"4"` or `1.5`, a missing payload object, and room ids that name built-in object properties. The model takes an integer index and plain string ids.
- The client's DOM work (screens, the board's cells, alerts, innerHTML) and its socket set-up.
- The client's socket handlers roomCreated, roomJoined, gameStart, gameUpdate, gameRestart, error, roomClosed and playerDisconnected: they copy the received board, turn, room and symbol into the globals, set gameActive, and call checkGameResult, updateStatus or resetToHome, which are modelled; the invariant `Client.GameClient.Valid` is not proved for them.
- refreshRooms: the getRooms request that the connect handler and resetToHome send to the server is an emit, and emits from the client are not returned by `OnConnect` and `ResetToHome`; the server's answer is `Server.RoomServer.GetRooms`.
- The text of the status line: `UpdateStatus` returns which message is shown (winner, draw, or turn with a hint), not the Spanish sentence.
- GameRules.SortNewestFirst: does not state the relative order of rooms created at the same millisecond. Since ES2019 the sort is stable, so such rooms keep their Object.keys order, and that order is not modelled (see above).
- Client.GameClient.OnDisconnect: the bound on the counter rests on the class invariant. The invariant says an active online game has at most 3 attempts. The handlers that start an online game are not modelled, so the invariant is kept only by the handlers that are.
