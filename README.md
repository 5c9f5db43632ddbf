# chessweb room server, modelled in Dafny

This project models the room and session state machine of the chessweb relay
server (`server.js`). The server pairs two WebSocket clients in a room, relays
their moves and tears the room down when either side goes away. The model
covers:

- the message dispatch on `type` (`create_room`, `join_room`, `move`,
  `get_rooms`; anything else is ignored);
- the four handlers and the close-cleanup loop;
- `notifyPlayer`, the room-code generator and `initializeGame`.

The model has four modules plus a small `Wrappers` module for `Option`:

- `Game` (`game.dfy`): the game state of a room. It holds the 8x8 board of
  one-character piece codes, the side to move and the never-set `gameOver`
  flag. It also holds the ownership test behind a move and the move itself:
  copy the origin cell to the target, clear the origin, toggle the turn.
  No chess rule is checked, and none is modelled.
- `Protocol` (`protocol.dfy`): connections, rooms and the inbound and
  outbound messages as datatypes. It also holds the room-code formatting and
  the rule for which slot may move a piece.
- `Store` (`store.dfy`): the room table as values (a `map` plus the code
  sequence that gives the JavaScript `Map`'s insertion order). It holds the
  specification functions the handlers are proved against: the room listing,
  the join refusal, and the survivors and notices of a close. It also holds
  `EvictConnection`, the close handler's `forEach` loop.
- `Server` (`server.dfy`): the class `RoomServer`. Its fields are the room
  table, its iteration order and the outbound traffic. Each handler is a
  method that updates them. The module ends with the end-to-end session
  (create, join as "Bob", e2-e4, disconnect, list) proved message by message.

Modelling choices:

- A connection is an identity (`ConnId`). Which connections are open
  (`readyState === OPEN`) is a parameter `open` of every handler that calls
  `notifyPlayer`. Direct `ws.send` replies to the sender are always recorded.
- `Math.random()` is replaced by the drawn integer `draw` in 1000..9999 that
  `Math.floor(1000 + Math.random() * 9000)` yields. `RoomCode` formats it as
  `toString()` does.
- `rooms.set` on a code already present replaces the room in place. It keeps
  the code's position in the iteration order; a new code goes to the end.
- Rooms are values inside the map. An in-place update such as
  `room.players.black = ws` or a board write becomes a reassignment of that
  map entry.

### Behaviour of the code worth knowing

The model follows the code on each of these points:

- **Room-code collisions.** `handleCreateRoom` does not check for a collision.
  A draw that hits an existing code replaces that room, players included
  (`Server.RoomServer.CreateRoom`, first `rooms` clause).
- **Name echo.** `join_room` echoes the joiner's own name as `opponentName` to
  both players (`Server.RoomServer.JoinRoom`).
- **Self-join.** Nothing stops the white connection from joining its own room
  as black. The model allows it, as the code does, so one connection can then
  hold both slots of a room: the accepted-join postcondition of
  `Server.RoomServer.JoinRoom` has no `sender != room.white` condition.
- **Ownership ignores the turn.** A move is checked against the piece on
  `from`, never against `turn` (`Protocol.TurnNotConsulted`). An empty origin
  square counts as white's (`Protocol.WhiteMayMoveEmptySquare`).

## Model

| member | source | states |
|---|---|---|
| Game.Opposite | server.js:115 | the turn toggle always gives the other colour |
| Game.ToUpper | server.js:104 | upper-casing keeps the length, maps each character by itself and leaves no lower-case letter |
| Game.OwnedByWhite | server.js:104 | an empty cell and a single upper-case piece count as white's; a single lower-case piece does not |
| Game.InitialGame | server.js:155-170 | the starting position is an 8x8 board: rows 0-1 hold single lower-case pieces, rows 2-5 are empty, rows 6-7 hold single upper-case pieces mirroring rows 1-0; white to move, not over |
| Game.InitialOwnership | server.js:104 | in the starting position white owns exactly rows 2 to 7, the empty middle included |
| Game.OwnedByWhiteIff | server.js:104 | a cell equals its upper-case form exactly when it holds no lower-case letter |
| Game.ApplyMove | server.js:109-115 | an accepted move clears `from`, puts the old `from` piece on `to` when they differ, leaves all other cells alone, flips the turn and keeps `gameOver` |
| Game.PerformMove | server.js:110-115 | the handler's three assignments (copy to `to`, clear `from`, toggle the turn) produce exactly `ApplyMove` |
| Game.TurnParity | server.js:115 | after N accepted moves the turn is back where it began iff N is even, and `gameOver` never changes |
| Game.InitialTurnParity | server.js:115 | from the starting position it is white's turn exactly after an even number of accepted moves, and the game is never over |
| Protocol.Notice | server.js:145-149 | notifying a slot sends one message to its connection when the slot is filled and open, nothing otherwise |
| Protocol.PrivacyOf | server.js:55 | a room is private exactly when the request says `isPrivate: true`; absent means public |
| Protocol.NewRoom | server.js:51-56 | a new room has the creator as white, an empty black slot, the starting position and the requested privacy |
| Protocol.DecimalText | server.js:152 | a number's decimal text is all digits, has no leading zero and reads back as the number |
| Protocol.RoomCode | server.js:151-153 | every room code is four digits with no leading zero and reads back as the number drawn |
| Protocol.RoomCodeCollision | server.js:151-153 | two draws give the same room code only when they are the same number |
| Protocol.MoverSlot | server.js:104-105 | the slot entitled to move the piece on `from` is one of the room's own seats; there is none only while black is empty |
| Protocol.MayMove | server.js:107 | only a connection seated in the room, as white or as black, may move |
| Protocol.MayMoveIff | server.js:103-107 | the white slot may move a cell with no lower-case letter; any other cell may be moved only by the seated black slot |
| Protocol.WhiteMayMoveEmptySquare | server.js:103-115 | white passes the ownership check on an empty square; the move then leaves `to` empty and still flips the turn |
| Protocol.TurnNotConsulted | server.js:103-107 | whose turn it is makes no difference to who may move a piece |
| Protocol.NoBlackMoverBeforeJoin | server.js:103-107 | before anyone joins, nobody may move a black piece |
| Store.ReplaceKeepsInv | server.js:78 | replacing a room by one with the same code and an 8x8 board keeps the table consistent |
| Store.RoomsInOrder | server.js:131 | the rooms in iteration order, one per code, position by position |
| Store.Joinable | server.js:132 | a joinable room is summarised as a public room with one player |
| Store.Summary | server.js:133-137 | a summary keeps the room's code and privacy and reports one player exactly when black is empty, two exactly when it is taken |
| Store.Listing | server.js:131-137 | a listing is no longer than the table and every entry reports one player and a public room |
| Store.ListingCodes | server.js:131-137 | a code is listed exactly when some joinable room carries it |
| Store.ListedIff | server.js:130-143 | a code is listed exactly when it names a stored public room with an empty black slot |
| Store.JoinRefusal | server.js:68-76 | a join is refused with "Room not found" iff the code is unknown, with "Room is full" iff black is taken, and accepted otherwise; the cases are exclusive |
| Store.JoinedRoomNotListed | server.js:78 | after a join the room is no longer listed, and every other room's listing status is unchanged |
| Store.CreatedPublicRoomListed | server.js:49-58 | a public room just created under a fresh code is listed |
| Store.Partner | server.js:38-43 | a room names a slot to tell about a close only when it references the closer; a room without the closer names nobody |
| Store.Survivors | server.js:37-45 | a close never leaves more codes than were scanned |
| Store.DisconnectNotices | server.js:37-45 | a close sends at most one notice per scanned room |
| Store.SurvivorsSpec | server.js:37-45 | the codes surviving a close are exactly the scanned codes whose rooms do not reference the closer, each once |
| Store.Unreferencing | server.js:37-45 | after a close the table holds exactly the rooms that do not reference the closer, unchanged |
| Store.DisconnectKeepsInv | server.js:37-45 | the cleanup keeps the table consistent |
| Store.NoticesSpec | server.js:37-45 | a close sends at most one notice per room, each an `opponent_disconnected` to an open connection |
| Store.EvictConnection | server.js:37-45 | the `forEach` scan with in-loop deletes leaves exactly the survivors in order and the unreferencing table, and sends exactly the close notices |
| Store.NoticesGoToPartners | server.js:37-45 | every close notice goes to the partner of the closer in some room that references it |
| Store.NoReferenceNoNotice | server.js:37-45 | closing a connection that no room references sends nothing |
| Store.NoticesOfOneRoom | server.js:37-45 | when exactly one room references the closer, the close sends just that room's partner one notice, if the partner is present and open |
| Server.RoomServer.constructor | server.js:13 | the server starts with an empty room table and nothing sent |
| Server.RoomServer.Send | server.js:60-64 | a direct reply appends exactly one message to the sender |
| Server.RoomServer.NotifyPlayer | server.js:145-149 | a notification appends the slot's notice and nothing else |
| Server.RoomServer.CreateRoom | server.js:49-65 | create_room stores the new room under the drawn code, replacing any room already there; other rooms are untouched; a new code goes last in iteration order; exactly one `room_created` goes to the sender |
| Server.RoomServer.JoinRoom | server.js:67-96 | a refused join changes nothing and sends the refusal to the sender alone; an accepted join seats the sender as black, tells white if open, and replies to the sender, both with the joiner's own name |
| Server.RoomServer.MakeMove | server.js:98-128 | a move in an unknown room or by a non-owner changes nothing and sends nothing; an accepted one replaces the room's game by `ApplyMove` and sends `move_made` to white then black, each only if present and open |
| Server.RoomServer.GetRooms | server.js:130-143 | get_rooms sends the sender alone the listing of the table in iteration order |
| Server.RoomServer.Disconnect | server.js:35-46 | a close removes exactly the rooms referencing the connection, keeps the others in order, sends the close notices and keeps the table consistent |
| Server.RoomServer.Handle | server.js:16-33 | each recognised type has exactly its handler's outcome (create: the stored room, the iteration order and the `room_created` reply; join: the refusal reply or the seating and both messages; move: the no-op or the applied move and both notices; get_rooms: the listing reply, the table untouched); an unrecognised type changes nothing and sends nothing |
| Server.Seating | server.js:49-96 | create then join as "Bob": one room with both players and the three messages, in order |
| Server.Opening | server.js:98-128 | after the seating, white's e2-e4 sends both players `move_made` with the new state |
| Server.Session | server.js:15-143 | the whole two-player session yields exactly seven messages; after the move it is black's turn, e4 holds "P" and e2 is empty; after B closes, A is told and the listing is empty |

## Left out

- The HTTP server, Express static file serving and `listen` (server.js:1-10, 172-175) are not part of this model.
- The WebSocket transport and `JSON.parse`/`JSON.stringify` are not modelled. Inbound messages arrive as the decoded `Inbound` datatype, and outbound messages are recorded as `Envelope`s. Malformed JSON, which throws in the source, is not modelled.
- `readyState` is represented by the `open` set that the caller passes in. Which connections are open is never derived.
- `Math.random` is replaced by the `draw` parameter, which is required to lie in 1000..9999 as the source's expression guarantees.
- Protocol.PrivacyOf: only boolean `isPrivate` values are modelled. The source's `data.isPrivate || false` also keeps other truthy values, such as a non-empty string, as the room's flag.
- The `roomCode` of a join or move request is always a string. A `roomCode` of another type (a number, a missing field) is not modelled; a JavaScript `Map` lookup on it simply misses.
- A missing `playerName` (sent as `undefined` in the source) is not modelled. The name is always a string.
- Game.ToUpper upper-cases ASCII letters only, which are the only letters the board ever holds. JavaScript's full Unicode `toUpperCase` is not modelled.
- Server.RoomServer.MakeMove: when the room exists, `from` is required to be on the board, and `to` is required to be on the board only when the sender passes the ownership check. These throws and writes of the source are not modelled: an off-board `from.row` throws at server.js:103; an off-board `from.col` makes `fromPiece` undefined and throws at server.js:104; on an accepted move an off-board `to.row` throws at server.js:111, `to.col >= 8` grows the row, and a negative `to.col` adds a property that is not a cell. An off-board `to` from a sender who fails the ownership check is a no-op in the source and in the model, because `to` is never read.
- `promotion` is relayed as given. No promotion is applied to the board, as in the source.
- Server.RoomServer.Disconnect: the cleanup scans a snapshot of the iteration order and then replaces the table with the result. This matches `Map.prototype.forEach` here because only the entry being visited is ever deleted. It requires the closing connection not to be open, as a closed socket is not.
- Aliasing of the shared `gameState` object is not modelled. Messages carry a copy of the game state at the time of sending, as the source's `JSON.stringify` at send time does.
- Concurrency is not modelled. Node runs each event handler to completion, so each handler is one method call.
