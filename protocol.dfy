/** The events the server sends to browsers (server/server.js), as values. */
module Protocol {
  import opened Board

  /** One entry of the lobby list sent by getRooms: id, player count, creation time. */
  datatype RoomSummary = RoomSummary(id: string, players: nat, createdAt: int)

  /** Outbound Socket.IO events with their payloads. */
  datatype Event =
    | RoomCreated(roomId: string, player: Symbol)
    | RoomJoined(roomId: string, player: Symbol)
    | GameStart(roomId: string, gameState: seq<Cell>, currentPlayer: Symbol)
    | GameUpdate(gameState: seq<Cell>, currentPlayer: Symbol, lastCell: int, lastPlayer: string)
    | GameRestart(gameState: seq<Cell>, currentPlayer: Symbol)
    | RoomsList(rooms: map<string, RoomSummary>)
    | PlayerDisconnected
    | RoomClosed(message: string)
    | Error(message: string)
    | Pong(timestamp: int)

  /** Error text for createRoom on a taken id. */
  const RoomExistsText: string := "La sala ya existe"
  /** Error text for joinRoom on an unknown id. */
  const RoomMissingText: string := "La sala no existe"
  /** Error text for joinRoom on a room that does not have exactly one player. */
  const RoomFullText: string := "La sala está llena"
  /** Notice sent to a room the idle sweep closes. */
  const RoomClosedText: string := "Sala cerrada por inactividad"
}
