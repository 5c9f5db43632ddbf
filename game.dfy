/**
 * The game state each room owns: an 8x8 board whose cells are one-character
 * piece codes ("" for an empty square, lower case for black pieces, upper case
 * for white ones), the side to move next, and a game-over flag that nothing in
 * the server ever sets. No chess rule is checked: a move simply relocates
 * whatever stands on its origin square.
 */
module Game {

  /** The side to move next. */
  datatype Color = White | Black

  datatype GameState = GameState(board: seq<seq<string>>, turn: Color, gameOver: bool)

  /** A board coordinate as the client sends it. */
  datatype Square = Square(row: int, col: int)

  const Size: nat := 8

  predicate WellFormed(board: seq<seq<string>>)
  {
    |board| == Size && forall r | 0 <= r < |board| :: |board[r]| == Size
  }

  predicate OnBoard(sq: Square)
  {
    0 <= sq.row < Size && 0 <= sq.col < Size
  }

  function Cell(board: seq<seq<string>>, sq: Square): string
    requires WellFormed(board) && OnBoard(sq)
  {
    board[sq.row][sq.col]
  }

  /** The turn toggle of a move: white becomes black and black becomes white. */
  function Opposite(c: Color): (r: Color)
    ensures r != c
  {
    if c == White then Black else White
  }

  predicate IsLower(ch: char) { 'a' <= ch <= 'z' }

  predicate IsUpper(ch: char) { 'A' <= ch <= 'Z' }

  /** Upper-casing of one character, for the ASCII letters the board holds. */
  function UpperChar(ch: char): char
  {
    if IsLower(ch) then (ch as int - 32) as char else ch
  }

  /** Upper-casing of a string, character by character. */
  function ToUpper(s: string): (r: string)
    ensures |r| == |s|
    ensures forall i | 0 <= i < |s| :: r[i] == UpperChar(s[i]) && !IsLower(r[i])
  {
    if s == [] then [] else [UpperChar(s[0])] + ToUpper(s[1..])
  }

  /**
   * The ownership test of a move: a cell belongs to white when it equals its
   * own upper-case form. The empty cell passes this test, so it belongs to white.
   */
  predicate OwnedByWhite(piece: string)
    ensures piece == "" ==> OwnedByWhite(piece)
    ensures |piece| == 1 && IsUpper(piece[0]) ==> OwnedByWhite(piece)
    ensures |piece| == 1 && IsLower(piece[0]) ==> !OwnedByWhite(piece)
  {
    piece == ToUpper(piece)
  }

  /** A cell is white's exactly when it holds no lower-case letter. */
  lemma {:induction false} OwnedByWhiteIff(piece: string)
    ensures OwnedByWhite(piece) <==> forall i | 0 <= i < |piece| :: !IsLower(piece[i])
  {
    if piece != [] {
      var head, tail := piece[0], piece[1..];
      OwnedByWhiteIff(tail);
      assert piece == [head] + tail;
      assert ToUpper(piece) == [UpperChar(head)] + ToUpper(tail);
      assert OwnedByWhite(piece) <==> UpperChar(head) == head && OwnedByWhite(tail);
      assert UpperChar(head) == head <==> !IsLower(head);
      assert (forall i | 0 <= i < |piece| :: !IsLower(piece[i])) <==>
             !IsLower(head) && forall i | 0 <= i < |tail| :: !IsLower(tail[i]);
    }
  }

  /** The starting position, white to move. */
  function InitialGame(): (g: GameState)
    ensures WellFormed(g.board) && g.turn == White && !g.gameOver
    ensures forall r, c | 0 <= r < 2 && 0 <= c < Size ::
              |g.board[r][c]| == 1 && IsLower(g.board[r][c][0])
    ensures forall r, c | 2 <= r < 6 && 0 <= c < Size :: g.board[r][c] == ""
    ensures forall r, c | 6 <= r < Size && 0 <= c < Size ::
              |g.board[r][c]| == 1 && IsUpper(g.board[r][c][0])
    ensures forall r, c | 0 <= r < 2 && 0 <= c < Size ::
              g.board[Size - 1 - r][c] == ToUpper(g.board[r][c])
  {
    var empty := ["", "", "", "", "", "", "", ""];
    GameState(
      [ ["r", "n", "b", "q", "k", "b", "n", "r"],
        ["p", "p", "p", "p", "p", "p", "p", "p"],
        empty, empty, empty, empty,
        ["P", "P", "P", "P", "P", "P", "P", "P"],
        ["R", "N", "B", "Q", "K", "B", "N", "R"] ],
      White, false)
  }

  /** In the starting position white owns rows 2 to 7 (the empty middle included), black rows 0 and 1. */
  lemma InitialOwnership(sq: Square)
    requires OnBoard(sq)
    ensures OwnedByWhite(Cell(InitialGame().board, sq)) <==> sq.row >= 2
  {
    var piece := Cell(InitialGame().board, sq);
    OwnedByWhiteIff(piece);
    if sq.row < 2 {
      assert IsLower(piece[0]);
    }
  }

  /** The board with one cell replaced. */
  function Place(board: seq<seq<string>>, sq: Square, v: string): (r: seq<seq<string>>)
    requires WellFormed(board) && OnBoard(sq)
    ensures WellFormed(r) && Cell(r, sq) == v
    ensures forall i, j | 0 <= i < Size && 0 <= j < Size && Square(i, j) != sq :: r[i][j] == board[i][j]
  {
    board[sq.row := board[sq.row][sq.col := v]]
  }

  /**
   * An accepted move: the piece on `from` is written to `to`, then `from` is
   * cleared (so a move onto its own square erases the piece), and the turn flips.
   */
  function ApplyMove(g: GameState, from: Square, to: Square): (r: GameState)
    requires WellFormed(g.board) && OnBoard(from) && OnBoard(to)
    ensures WellFormed(r.board)
    ensures Cell(r.board, from) == ""
    ensures from != to ==> Cell(r.board, to) == Cell(g.board, from)
    ensures forall i, j | 0 <= i < Size && 0 <= j < Size && Square(i, j) != from && Square(i, j) != to ::
              r.board[i][j] == g.board[i][j]
    ensures r.turn == Opposite(g.turn) && r.gameOver == g.gameOver
  {
    var piece := Cell(g.board, from);
    GameState(Place(Place(g.board, to, piece), from, ""), Opposite(g.turn), g.gameOver)
  }

  /**
   * The move as the handler performs it, one assignment at a time: copy the
   * origin cell to the target, clear the origin, toggle the turn.
   */
  method PerformMove(g: GameState, from: Square, to: Square) returns (r: GameState)
    requires WellFormed(g.board) && OnBoard(from) && OnBoard(to)
    ensures r == ApplyMove(g, from, to)
  {
    var board := g.board;
    var piece := board[from.row][from.col];
    board := board[to.row := board[to.row][to.col := piece]];
    board := board[from.row := board[from.row][from.col := ""]];
    var turn := if g.turn == White then Black else White;
    r := g.(board := board, turn := turn);
  }

  predicate AllOnBoard(moves: seq<(Square, Square)>)
  {
    forall k | 0 <= k < |moves| :: OnBoard(moves[k].0) && OnBoard(moves[k].1)
  }

  /** The game state after a run of accepted moves, applied in order. */
  function ApplyMoves(g: GameState, moves: seq<(Square, Square)>): (r: GameState)
    requires WellFormed(g.board) && AllOnBoard(moves)
    ensures WellFormed(r.board)
    decreases |moves|
  {
    if moves == [] then g
    else ApplyMoves(ApplyMove(g, moves[0].0, moves[0].1), moves[1..])
  }

  /** The turn strictly alternates: after N accepted moves it is back where it began iff N is even. */
  lemma {:induction false} TurnParity(g: GameState, moves: seq<(Square, Square)>)
    requires WellFormed(g.board) && AllOnBoard(moves)
    ensures ApplyMoves(g, moves).turn == if |moves| % 2 == 0 then g.turn else Opposite(g.turn)
    ensures ApplyMoves(g, moves).gameOver == g.gameOver
    decreases |moves|
  {
    if moves != [] {
      var g' := ApplyMove(g, moves[0].0, moves[0].1);
      TurnParity(g', moves[1..]);
      assert Opposite(Opposite(g.turn)) == g.turn;
    }
  }

  /** From the starting position it is white's turn exactly after an even number of accepted moves. */
  lemma InitialTurnParity(moves: seq<(Square, Square)>)
    requires AllOnBoard(moves)
    ensures ApplyMoves(InitialGame(), moves).turn == White <==> |moves| % 2 == 0
    ensures !ApplyMoves(InitialGame(), moves).gameOver
  {
    TurnParity(InitialGame(), moves);
  }
}
