/** Square contents, coordinates and the board value shared by the engine and the bot.
    Row 0 is black's back rank and row 7 is white's; column 0 is file a. */
module Pieces {
  /** Python's empty tuple `()` for "no square" is `None`. */
  datatype Option<T> = None | Some(value: T)

  datatype Color = White | Black {
    function Opponent(): (o: Color)
      ensures o != this
    {
      if this == White then Black else White
    }
  }

  datatype Kind = Pawn | Knight | Bishop | Rook | Queen | King

  /** A square holds "--" or a two-letter code such as "wK": its colour and its kind. */
  datatype Square = Empty | Piece(color: Color, kind: Kind)

  /** A row or a column number. */
  type Index = i: int | 0 <= i < 8

  datatype Coord = Coord(row: Index, col: Index)

  /** The 8x8 grid, stored row by row. */
  type Board = b: seq<Square> | |b| == 64 witness seq(64, _ => Empty)

  /** Position of square (r, c) in the row-by-row layout. */
  function Idx(r: Index, c: Index): (i: nat)
    ensures i < 64
  {
    8 * r + c
  }

  function At(b: Board, r: Index, c: Index): Square
  {
    b[Idx(r, c)]
  }

  function AtSq(b: Board, s: Coord): Square
  {
    b[Idx(s.row, s.col)]
  }

  /** The first letter of the square's code is the given colour ('w' or 'b'). */
  predicate HasColor(s: Square, c: Color)
  {
    s.Piece? && s.color == c
  }

  /** The colour whose turn it is, as the `whiteToMove` flag encodes it. */
  function SideColor(whiteToMove: bool): Color
  {
    if whiteToMove then White else Black
  }

  predicate OnBoard(r: int, c: int)
  {
    0 <= r < 8 && 0 <= c < 8
  }

  function Abs(x: int): nat { if x < 0 then -x else x }

  /** -1, 0 or 1, as x is negative, zero or positive. */
  function Sign(x: int): int { if x < 0 then -1 else if x > 0 then 1 else 0 }
}
