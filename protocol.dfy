/**
 * The entities and messages of the session protocol: connections, rooms, the
 * inbound message kinds the server dispatches on, the outbound messages it
 * sends, and the rule that decides who may move a piece.
 */
module Protocol {
  import opened Wrappers
  import opened Game

  /** An opaque handle on a client connection, compared by identity only. */
  type ConnId = nat

  /**
   * A room: the white slot always holds its creator, the black slot holds the
   * joiner once there is one.
   */
  datatype Room = Room(code: string, white: ConnId, black: Option<ConnId>, game: GameState, isPrivate: bool)

  /** One entry of a room listing. */
  datatype RoomSummary = RoomSummary(code: string, players: nat, isPrivate: bool)

  /** The inbound message kinds, after decoding; anything else is `Unrecognised`. */
  datatype Inbound =
    | CreateRoom(isPrivate: Option<bool>)
    | JoinRoom(roomCode: string, playerName: string)
    | Move(roomCode: string, from: Square, to: Square, promotion: Option<string>)
    | GetRooms
    | Unrecognised

  datatype Outbound =
    | RoomCreated(roomCode: string, isPrivate: bool)
    | JoinError(message: string)
    | PlayerJoined(opponentName: string, playerColor: Color)
    | RoomJoined(roomCode: string, playerName: string, playerColor: Color,
                 opponentName: string, opponentColor: Color, gameState: GameState)
    | MoveMade(from: Square, to: Square, promotion: Option<string>, gameState: GameState)
    | RoomList(rooms: seq<RoomSummary>)
    | OpponentDisconnected

  /** One outbound message addressed to one connection. */
  datatype Envelope = Envelope(recipient: ConnId, message: Outbound)

  /**
   * What notifying a slot sends: one message to the slot's connection when the
   * slot is filled and that connection is open, nothing otherwise.
   */
  function Notice(player: Option<ConnId>, open: set<ConnId>, m: Outbound): (r: seq<Envelope>)
    ensures |r| <= 1
    ensures r != [] <==> player.Some? && player.value in open
    ensures forall e | e in r :: player.Some? && e == Envelope(player.value, m)
  {
    if player.Some? && player.value in open then [Envelope(player.value, m)] else []
  }

  /** The privacy flag a create request yields: the supplied flag, or false when absent. */
  function PrivacyOf(isPrivate: Option<bool>): (b: bool)
    ensures b <==> isPrivate == Some(true)
  {
    match isPrivate
    case Some(flag) => flag
    case None => false
  }

  /** A freshly created room: its creator in the white slot, no black player, the starting position. */
  function NewRoom(code: string, creator: ConnId, isPrivate: Option<bool>): (room: Room)
    ensures room.code == code && room.white == creator && room.black == None
    ensures room.game == InitialGame() && room.isPrivate == PrivacyOf(isPrivate)
  {
    Room(code, creator, None, InitialGame(), PrivacyOf(isPrivate))
  }

  predicate IsDigit(ch: char) { '0' <= ch <= '9' }

  function DigitChar(d: nat): (ch: char)
    requires d < 10
    ensures IsDigit(ch)
  {
    ('0' as int + d) as char
  }

  function DigitValue(ch: char): nat
    requires IsDigit(ch)
  {
    ch as int - '0' as int
  }

  /** The number a string of decimal digits denotes. */
  function DecimalValue(s: string): nat
    requires forall i | 0 <= i < |s| :: IsDigit(s[i])
  {
    if s == [] then 0 else 10 * DecimalValue(s[..|s| - 1]) + DigitValue(s[|s| - 1])
  }

  /**
   * The decimal text of a number, as a number's string conversion writes it:
   * digits only, no leading zero (except for zero itself), and it reads back
   * as the number it was made from.
   */
  function DecimalText(n: nat): (s: string)
    ensures |s| >= 1 && forall i | 0 <= i < |s| :: IsDigit(s[i])
    ensures s[0] != '0' || n == 0
    ensures DecimalValue(s) == n
    decreases n
  {
    if n < 10 then [DigitChar(n)]
    else
      var prefix := DecimalText(n / 10);
      var s := prefix + [DigitChar(n % 10)];
      assert s[..|s| - 1] == prefix;
      s
  }

  /**
   * The room code of a drawn number. The number is drawn from 1000..9999, so
   * every code is four digits with no leading zero, and it reads back as the
   * number drawn.
   */
  function RoomCode(n: nat): (s: string)
    requires 1000 <= n <= 9999
    ensures |s| == 4 && s[0] != '0'
    ensures forall i | 0 <= i < |s| :: IsDigit(s[i])
    ensures DecimalValue(s) == n
  {
    assert |DecimalText(n / 1000)| == 1;
    assert |DecimalText(n / 100)| == 2 by {
      assert n / 100 / 10 == n / 1000;
    }
    assert |DecimalText(n / 10)| == 3 by {
      assert n / 10 / 10 == n / 100;
    }
    DecimalText(n)
  }

  /** Two draws give the same room code only when they are the same number. */
  lemma RoomCodeCollision(a: nat, b: nat)
    requires 1000 <= a <= 9999 && 1000 <= b <= 9999
    ensures RoomCode(a) == RoomCode(b) <==> a == b
  {
    if RoomCode(a) == RoomCode(b) {
      assert DecimalValue(RoomCode(a)) == DecimalValue(RoomCode(b));
    }
  }

  /**
   * The slot allowed to move the piece on `from`: white for a cell equal to its
   * upper-case form (the empty cell included), black otherwise. The turn field
   * is not consulted.
   */
  function MoverSlot(room: Room, from: Square): (r: Option<ConnId>)
    requires WellFormed(room.game.board) && OnBoard(from)
    ensures r.Some? ==> r.value == room.white || room.black == r
    ensures r == None ==> room.black == None
  {
    if OwnedByWhite(Cell(room.game.board, from)) then Some(room.white) else room.black
  }

  /** Whether `sender` passes the ownership check for the piece on `from`. */
  predicate MayMove(room: Room, sender: ConnId, from: Square)
    requires WellFormed(room.game.board) && OnBoard(from)
    ensures MayMove(room, sender, from) ==> sender == room.white || room.black == Some(sender)
  {
    MoverSlot(room, from) == Some(sender)
  }

  /**
   * The ownership check in terms of the piece: the white player may move a
   * cell without lower-case letters, the black player, once seated, any other.
   */
  lemma MayMoveIff(room: Room, sender: ConnId, from: Square)
    requires WellFormed(room.game.board) && OnBoard(from)
    ensures MayMove(room, sender, from) <==>
              if forall i | 0 <= i < |Cell(room.game.board, from)| :: !IsLower(Cell(room.game.board, from)[i])
              then sender == room.white
              else room.black == Some(sender)
  {
    OwnedByWhiteIff(Cell(room.game.board, from));
  }

  /**
   * The white player passes the ownership check on an empty square, and the
   * move it then makes clears the target square and still flips the turn.
   */
  lemma WhiteMayMoveEmptySquare(room: Room, from: Square, to: Square)
    requires WellFormed(room.game.board) && OnBoard(from) && OnBoard(to)
    requires Cell(room.game.board, from) == ""
    ensures MayMove(room, room.white, from)
    ensures Cell(ApplyMove(room.game, from, to).board, to) == ""
    ensures ApplyMove(room.game, from, to).turn != room.game.turn
  {
    assert ToUpper("") == "";
  }

  /** Whose move it is plays no part in the ownership check: only the piece on `from` does. */
  lemma TurnNotConsulted(room: Room, sender: ConnId, from: Square, turn: Color)
    requires WellFormed(room.game.board) && OnBoard(from)
    ensures MayMove(room.(game := room.game.(turn := turn)), sender, from) <==> MayMove(room, sender, from)
  {
  }

  /** Before anyone has joined, a black piece can be moved by nobody. */
  lemma NoBlackMoverBeforeJoin(room: Room, sender: ConnId, from: Square)
    requires WellFormed(room.game.board) && OnBoard(from) && room.black == None
    requires exists i | 0 <= i < |Cell(room.game.board, from)| :: IsLower(Cell(room.game.board, from)[i])
    ensures !MayMove(room, sender, from)
  {
    OwnedByWhiteIff(Cell(room.game.board, from));
  }
}
