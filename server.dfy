/**
 * The session protocol handler: one object holding the process-wide room
 * table and the outbound traffic, with one method per inbound message kind
 * and one for a connection closing. Each handler runs to completion before
 * the next event, so each is one method call.
 */
module Server {
  import opened Wrappers
  import opened Game
  import opened Protocol
  import opened Store

  /** Whether a move request gets past both checks: the room exists and the sender owns the piece. */
  predicate MoveAccepted(rooms: map<string, Room>, sender: ConnId, code: string, from: Square)
  {
    && code in rooms
    && WellFormed(rooms[code].game.board)
    && OnBoard(from)
    && MayMove(rooms[code], sender, from)
  }

  class RoomServer {
    /** The room codes in the table's iteration (insertion) order. */
    var order: seq<string>
    /** The room table, from room code to room. */
    var rooms: map<string, Room>
    /** Every message sent so far, in sending order. */
    var outbox: seq<Envelope>

    ghost predicate Valid()
      reads this
    {
      StoreInv(order, rooms)
    }

    constructor ()
      ensures Valid() && order == [] && rooms == map[] && outbox == []
    {
      order, rooms, outbox := [], map[], [];
    }

    /** A direct reply on a connection. */
    method Send(recipient: ConnId, m: Outbound)
      modifies this`outbox
      ensures outbox == old(outbox) + [Envelope(recipient, m)]
    {
      outbox := outbox + [Envelope(recipient, m)];
    }

    /** Sends to a slot only when it is filled and its connection is open. */
    method NotifyPlayer(player: Option<ConnId>, m: Outbound, open: set<ConnId>)
      modifies this`outbox
      ensures outbox == old(outbox) + Notice(player, open, m)
    {
      if player.Some? && player.value in open {
        outbox := outbox + [Envelope(player.value, m)];
      }
    }

    /**
     * create_room: registers a room under the code of the drawn number with the
     * sender as white, and tells the sender its code. A room already under that
     * code is replaced, keeping its place in the iteration order.
     */
    method CreateRoom(sender: ConnId, draw: nat, isPrivate: Option<bool>)
      requires Valid() && 1000 <= draw <= 9999
      modifies this
      ensures Valid()
      ensures rooms == old(rooms)[RoomCode(draw) := NewRoom(RoomCode(draw), sender, isPrivate)]
      ensures order == if RoomCode(draw) in old(rooms) then old(order) else old(order) + [RoomCode(draw)]
      ensures outbox == old(outbox) + [Envelope(sender, RoomCreated(RoomCode(draw), PrivacyOf(isPrivate)))]
    {
      var code := RoomCode(draw);
      var room := NewRoom(code, sender, isPrivate);
      if code !in rooms {
        order := order + [code];
      }
      rooms := rooms[code := room];
      assert forall k :: k in order <==> k in old(order) || k == code;
      Send(sender, RoomCreated(code, room.isPrivate));
    }

    /**
     * join_room: refuses an unknown or full room with an error to the sender
     * alone; otherwise seats the sender as black, tells white (if open), and
     * replies to the sender. Both messages carry the joiner's own name as the
     * opponent's name. Privacy is not checked.
     */
    method JoinRoom(sender: ConnId, roomCode: string, playerName: string, open: set<ConnId>)
      requires Valid()
      modifies this
      ensures Valid() && order == old(order)
      ensures JoinRefusal(old(rooms), roomCode).Some? ==>
                && rooms == old(rooms)
                && outbox == old(outbox) + [Envelope(sender, JoinError(JoinRefusal(old(rooms), roomCode).value))]
      ensures JoinRefusal(old(rooms), roomCode) == None ==>
                var room := old(rooms)[roomCode];
                && rooms == old(rooms)[roomCode := room.(black := Some(sender))]
                && outbox == old(outbox)
                             + Notice(Some(room.white), open, PlayerJoined(playerName, Black))
                             + [Envelope(sender, RoomJoined(roomCode, playerName, Black, playerName, White, room.game))]
    {
      if roomCode !in rooms || rooms[roomCode].black.Some? {
        Send(sender, JoinError(if roomCode in rooms then "Room is full" else "Room not found"));
        return;
      }
      var room := rooms[roomCode].(black := Some(sender));
      ReplaceKeepsInv(order, rooms, roomCode, room);
      rooms := rooms[roomCode := room];
      NotifyPlayer(Some(room.white), PlayerJoined(playerName, Black), open);
      Send(sender, RoomJoined(roomCode, playerName, Black, playerName, White, room.game));
    }

    /**
     * move: dropped silently when the room is unknown or the sender is not the
     * slot owning the piece on `from`. Otherwise the piece is written to `to`,
     * `from` is cleared, the turn flips, and both slots are sent the new state.
     */
    method MakeMove(sender: ConnId, roomCode: string, from: Square, to: Square,
                    promotion: Option<string>, open: set<ConnId>)
      requires Valid()
      requires roomCode in rooms ==> OnBoard(from)
      requires roomCode in rooms && OnBoard(from) && MayMove(rooms[roomCode], sender, from) ==> OnBoard(to)
      modifies this
      ensures Valid() && order == old(order)
      ensures !MoveAccepted(old(rooms), sender, roomCode, from) ==>
                rooms == old(rooms) && outbox == old(outbox)
      ensures MoveAccepted(old(rooms), sender, roomCode, from) ==>
                var room := old(rooms)[roomCode];
                var game := ApplyMove(room.game, from, to);
                && rooms == old(rooms)[roomCode := room.(game := game)]
                && outbox == old(outbox)
                             + Notice(Some(room.white), open, MoveMade(from, to, promotion, game))
                             + Notice(room.black, open, MoveMade(from, to, promotion, game))
    {
      if roomCode !in rooms {
        return;
      }
      var room := rooms[roomCode];
      var fromPiece := room.game.board[from.row][from.col];
      var currentPlayer := if OwnedByWhite(fromPiece) then Some(room.white) else room.black;
      if currentPlayer != Some(sender) {
        return;
      }
      var game := PerformMove(room.game, from, to);
      room := room.(game := game);
      ReplaceKeepsInv(order, rooms, roomCode, room);
      rooms := rooms[roomCode := room];
      var moveMessage := MoveMade(from, to, promotion, room.game);
      NotifyPlayer(Some(room.white), moveMessage, open);
      NotifyPlayer(room.black, moveMessage, open);
    }

    /** get_rooms: replies to the sender alone with the joinable rooms in iteration order. */
    method GetRooms(sender: ConnId)
      requires Valid()
      modifies this`outbox
      ensures outbox == old(outbox) + [Envelope(sender, RoomList(Listing(RoomsInOrder(order, rooms))))]
    {
      var available := Listing(RoomsInOrder(order, rooms));
      Send(sender, RoomList(available));
    }

    /**
     * A connection closing: every room holding it in either slot is deleted,
     * in iteration order, and the other slot of each is told, when present and
     * open. The white slot is checked first. The scan runs over a snapshot of
     * the table and its outcome replaces the table once it is over.
     */
    method Disconnect(c: ConnId, open: set<ConnId>)
      requires Valid() && c !in open
      modifies this
      ensures Valid()
      ensures order == Survivors(old(order), old(rooms), c)
      ensures rooms == Unreferencing(old(rooms), c)
      ensures outbox == old(outbox) + DisconnectNotices(old(order), old(rooms), c, open)
    {
      DisconnectKeepsInv(order, rooms, c);
      var live, table, sent := EvictConnection(order, rooms, c, open);
      order, rooms, outbox := live, table, outbox + sent;
    }

    /**
     * The inbound message dispatch: each recognised kind goes to its handler;
     * an unrecognised kind changes nothing and sends nothing.
     */
    method Handle(sender: ConnId, msg: Inbound, draw: nat, open: set<ConnId>)
      requires Valid()
      requires msg.CreateRoom? ==> 1000 <= draw <= 9999
      requires msg.Move? && msg.roomCode in rooms ==> OnBoard(msg.from)
      requires msg.Move? && msg.roomCode in rooms && OnBoard(msg.from) && MayMove(rooms[msg.roomCode], sender, msg.from) ==>
                 OnBoard(msg.to)
      modifies this
      ensures Valid()
      ensures msg.CreateRoom? ==>
                && rooms == old(rooms)[RoomCode(draw) := NewRoom(RoomCode(draw), sender, msg.isPrivate)]
                && order == (if RoomCode(draw) in old(rooms) then old(order) else old(order) + [RoomCode(draw)])
                && outbox == old(outbox) + [Envelope(sender, RoomCreated(RoomCode(draw), PrivacyOf(msg.isPrivate)))]
      ensures !msg.CreateRoom? ==> order == old(order)
      ensures msg.JoinRoom? && JoinRefusal(old(rooms), msg.roomCode).Some? ==>
                && rooms == old(rooms)
                && outbox == old(outbox) + [Envelope(sender, JoinError(JoinRefusal(old(rooms), msg.roomCode).value))]
      ensures msg.JoinRoom? && JoinRefusal(old(rooms), msg.roomCode) == None ==>
                var room := old(rooms)[msg.roomCode];
                && rooms == old(rooms)[msg.roomCode := room.(black := Some(sender))]
                && outbox == old(outbox)
                             + Notice(Some(room.white), open, PlayerJoined(msg.playerName, Black))
                             + [Envelope(sender, RoomJoined(msg.roomCode, msg.playerName, Black, msg.playerName, White, room.game))]
      ensures msg.Move? && !MoveAccepted(old(rooms), sender, msg.roomCode, msg.from) ==>
                rooms == old(rooms) && outbox == old(outbox)
      ensures msg.Move? && MoveAccepted(old(rooms), sender, msg.roomCode, msg.from) ==>
                var room := old(rooms)[msg.roomCode];
                var game := ApplyMove(room.game, msg.from, msg.to);
                && rooms == old(rooms)[msg.roomCode := room.(game := game)]
                && outbox == old(outbox)
                             + Notice(Some(room.white), open, MoveMade(msg.from, msg.to, msg.promotion, game))
                             + Notice(room.black, open, MoveMade(msg.from, msg.to, msg.promotion, game))
      ensures msg.GetRooms? ==>
                rooms == old(rooms) && outbox == old(outbox) + [Envelope(sender, RoomList(Listing(RoomsInOrder(order, rooms))))]
      ensures msg.Unrecognised? ==> rooms == old(rooms) && outbox == old(outbox)
    {
      match msg
      case CreateRoom(isPrivate) => CreateRoom(sender, draw, isPrivate);
      case JoinRoom(roomCode, playerName) => JoinRoom(sender, roomCode, playerName, open);
      case Move(roomCode, from, to, promotion) => MakeMove(sender, roomCode, from, to, promotion, open);
      case GetRooms => GetRooms(sender);
      case Unrecognised =>
    }
  }

  /** The start of a two-player session: A creates a public room and B joins it as "Bob". */
  method Seating(a: ConnId, b: ConnId, draw: nat) returns (server: RoomServer)
    requires a != b && 1000 <= draw <= 9999
    ensures fresh(server) && server.Valid()
    ensures
      var code := RoomCode(draw);
      && server.order == [code]
      && server.rooms == map[code := Room(code, a, Some(b), InitialGame(), false)]
      && server.outbox == [ Envelope(a, RoomCreated(code, false)),
                            Envelope(a, PlayerJoined("Bob", Black)),
                            Envelope(b, RoomJoined(code, "Bob", Black, "Bob", White, InitialGame())) ]
  {
    server := new RoomServer();
    var code := RoomCode(draw);
    var created := NewRoom(code, a, Some(false));
    server.CreateRoom(a, draw, Some(false));
    assert server.rooms == map[code := created];
    assert server.outbox == [Envelope(a, RoomCreated(code, false))];
    server.JoinRoom(b, code, "Bob", {a, b});
  }

  /**
   * The opening of a two-player session: after the seating, A moves the pawn
   * in front of its king two squares and both players are sent the new state.
   */
  method Opening(a: ConnId, b: ConnId, draw: nat) returns (server: RoomServer)
    requires a != b && 1000 <= draw <= 9999
    ensures fresh(server) && server.Valid()
    ensures
      var code := RoomCode(draw);
      var moved := ApplyMove(InitialGame(), Square(6, 4), Square(4, 4));
      && server.order == [code]
      && server.rooms == map[code := Room(code, a, Some(b), moved, false)]
      && server.outbox == [ Envelope(a, RoomCreated(code, false)),
                            Envelope(a, PlayerJoined("Bob", Black)),
                            Envelope(b, RoomJoined(code, "Bob", Black, "Bob", White, InitialGame())),
                            Envelope(a, MoveMade(Square(6, 4), Square(4, 4), None, moved)),
                            Envelope(b, MoveMade(Square(6, 4), Square(4, 4), None, moved)) ]
  {
    server := Seating(a, b, draw);
    var code := RoomCode(draw);
    var seated := Room(code, a, Some(b), InitialGame(), false);
    InitialOwnership(Square(6, 4));
    assert MayMove(seated, a, Square(6, 4));
    var prefix := server.outbox;
    var moved := ApplyMove(InitialGame(), Square(6, 4), Square(4, 4));
    server.MakeMove(a, code, Square(6, 4), Square(4, 4), None, {a, b});
    assert server.rooms == map[code := seated.(game := moved)];
    assert server.outbox == prefix + [ Envelope(a, MoveMade(Square(6, 4), Square(4, 4), None, moved)),
                                       Envelope(b, MoveMade(Square(6, 4), Square(4, 4), None, moved)) ];
  }

  /**
   * The two-player session from start to finish: after the opening, B's
   * connection closes, A is told, and the room list A then asks for is empty.
   */
  method Session(a: ConnId, b: ConnId, draw: nat) returns (sent: seq<Envelope>)
    requires a != b && 1000 <= draw <= 9999
    ensures
      var code := RoomCode(draw);
      var moved := ApplyMove(InitialGame(), Square(6, 4), Square(4, 4));
      sent == [ Envelope(a, RoomCreated(code, false)),
                Envelope(a, PlayerJoined("Bob", Black)),
                Envelope(b, RoomJoined(code, "Bob", Black, "Bob", White, InitialGame())),
                Envelope(a, MoveMade(Square(6, 4), Square(4, 4), None, moved)),
                Envelope(b, MoveMade(Square(6, 4), Square(4, 4), None, moved)),
                Envelope(a, OpponentDisconnected),
                Envelope(a, RoomList([])) ]
    ensures
      var moved := ApplyMove(InitialGame(), Square(6, 4), Square(4, 4));
      moved.turn == Black && Cell(moved.board, Square(4, 4)) == "P" && Cell(moved.board, Square(6, 4)) == ""
  {
    var server := Opening(a, b, draw);
    var code := RoomCode(draw);
    var moved := ApplyMove(InitialGame(), Square(6, 4), Square(4, 4));
    var prefix := server.outbox;
    server.Disconnect(b, {a});
    NoticesOfOneRoom([code], map[code := Room(code, a, Some(b), moved, false)], b, {a}, code);
    assert server.rooms == map[];
    assert server.order == [];
    assert server.outbox == prefix + [Envelope(a, OpponentDisconnected)];
    prefix := server.outbox;
    server.GetRooms(a);
    assert server.outbox == prefix + [Envelope(a, RoomList([]))];
    sent := server.outbox;
  }
}
