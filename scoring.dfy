/** The material-and-placement evaluation of Chess/ChessBot.py. Every score there is a
    multiple of one half, so the model counts in half-points: a score of s here is s / 2
    there, and sums and comparisons agree exactly. */
module Scoring {
  import opened Pieces

  /** `pieceScore`, in half-points. The king counts for nothing. */
  function PieceScore(k: Kind): int
  {
    match k
    case King => 0
    case Queen => 16
    case Rook => 10
    case Bishop => 6
    case Knight => 6
    case Pawn => 2
  }

  // The placement tables, in half-points, row 0 first.
  const PawnValues: seq<seq<int>> := [
    [0, 0, 0, 0, 0, 0, 0, 0],
    [10, 10, 10, 10, 10, 10, 10, 10],
    [2, 2, 4, 6, 6, 4, 2, 2],
    [1, 1, 2, 5, 5, 2, 1, 1],
    [0, 0, 0, 4, 4, 0, 0, 0],
    [1, -1, -2, 0, 0, -2, -1, 1],
    [1, 2, 2, -4, -4, 2, 2, 1],
    [0, 0, 0, 0, 0, 0, 0, 0]]

  /** The knight table has seven rows only. */
  const KnightValues: seq<seq<int>> := [
    [-10, -8, -6, -6, -6, -6, -8, -10],
    [-8, -4, 0, 0, 0, 0, -4, -8],
    [-6, 0, 2, 3, 3, 2, 0, -6],
    [-6, 1, 3, 4, 4, 3, 1, -6],
    [-6, 0, 3, 4, 4, 3, 0, -6],
    [-8, -4, 0, 1, 1, 0, -4, -8],
    [-10, -8, -6, -6, -6, -6, -8, -10]]

  const BishopValues: seq<seq<int>> := [
    [-4, -2, -2, -2, -2, -2, -2, -4],
    [-2, 0, 0, 0, 0, 0, 0, -2],
    [-2, 0, 1, 2, 2, 1, 0, -2],
    [-2, 1, 1, 2, 2, 1, 1, -2],
    [-2, 0, 2, 2, 2, 2, 0, -2],
    [-2, 2, 2, 2, 2, 2, 2, -2],
    [-2, 1, 0, 0, 0, 0, 1, -2],
    [-4, -2, -2, -2, -2, -2, -2, -4]]

  const RookValues: seq<seq<int>> := [
    [0, 0, 0, 0, 0, 0, 0, 0],
    [1, 2, 2, 2, 2, 2, 2, 1],
    [-1, 0, 0, 0, 0, 0, 0, -1],
    [-1, 0, 0, 0, 0, 0, 0, -1],
    [-1, 0, 0, 0, 0, 0, 0, -1],
    [-1, 0, 0, 0, 0, 0, 0, -1],
    [-1, 0, 0, 0, 0, 0, 0, -1],
    [0, 0, 0, 1, 1, 0, 0, 0]]

  const QueenValues: seq<seq<int>> := [
    [-4, -2, -2, -1, -1, -2, -2, -4],
    [-2, 0, 0, 0, 0, 0, 0, -2],
    [-2, 0, 1, 1, 1, 1, 0, -2],
    [-1, 0, 1, 1, 1, 1, 0, -1],
    [0, 0, 1, 1, 1, 1, 0, -1],
    [-2, 1, 1, 1, 1, 1, 0, -2],
    [-2, 0, 1, 0, 0, 0, 0, -2],
    [-4, -2, -2, -1, -1, -2, -2, -4]]

  /** The `values` dictionary: the table of each kind; the king's is all zeros. */
  function Table(k: Kind): seq<seq<int>>
  {
    match k
    case King => seq(8, _ => seq(8, _ => 0))
    case Queen => QueenValues
    case Rook => RookValues
    case Bishop => BishopValues
    case Knight => KnightValues
    case Pawn => PawnValues
  }

  /** Every table has at least seven rows of eight entries, which is all the evaluation
      reads; all but the knight's have eight rows. */
  lemma TablesShape(k: Kind)
    ensures |Table(k)| == (if k == Knight then 7 else 8)
    ensures forall r | 0 <= r < |Table(k)| :: |Table(k)[r]| == 8
  {
  }

  /** The placement bonus of kind k on (row, col), for the rows the evaluation visits. */
  function Value(k: Kind, row: Index, col: Index): int
    requires row < 7
  {
    TablesShape(k);
    Table(k)[row][col]
  }

  /** What one square adds to the score: a white piece its base score and its bonus, a
      black piece minus the same, read from the same unmirrored cell. */
  function SquareScore(s: Square, row: Index, col: Index): int
    requires row < 7
  {
    match s
    case Empty => 0
    case Piece(White, k) => PieceScore(k) + Value(k, row, col)
    case Piece(Black, k) => -(PieceScore(k) + Value(k, row, col))
  }

  /** The inner loop of `scorePieces` over the first n columns of a row. */
  function RowScore(b: Board, row: Index, n: nat): int
    requires row < 7 && n <= 7
  {
    if n == 0 then 0 else RowScore(b, row, n - 1) + SquareScore(At(b, row, n - 1), row, n - 1)
  }

  /** The outer loop of `scorePieces` over the first n rows. */
  function RowsScore(b: Board, n: nat): int
    requires n <= 7
  {
    if n == 0 then 0 else RowsScore(b, n - 1) + RowScore(b, n - 1, 7)
  }

  /** `scorePieces`: both loops run over `range(7)`, so row 7 and column 7 are never read. */
  function BoardScore(b: Board): int
  {
    RowsScore(b, 7)
  }

  /** `scorePieces`, with its two nested loops. */
  method ScorePieces(board: array<Square>) returns (score: int)
    requires board.Length == 64
    ensures score == BoardScore(board[..])
  {
    score := 0;
    for row := 0 to 7
      invariant score == RowsScore(board[..], row)
    {
      ghost var before := score;
      for colo := 0 to 7
        invariant score == before + RowScore(board[..], row, colo)
      {
        var square := board[Idx(row, colo)];
        assert square == At(board[..], row, colo);
        if square.Piece? && square.color == White {
          score := score + PieceScore(square.kind);
          score := score + Value(square.kind, row, colo);
        } else if square.Piece? && square.color == Black {
          score := score - PieceScore(square.kind);
          score := score - Value(square.kind, row, colo);
        }
      }
    }
  }

  /** The largest amount one square can add or take away: a queen, 16 plus at most 1. */
  const MaxSquareScore: int := 17

  /** The largest score a board can have: 49 squares are read. */
  const MaxScore: int := 49 * MaxSquareScore

  /** No table entry of the rows read exceeds 10 in size, and a queen's bonus lies in
      [-4, 1]; so no square moves the score by more than a queen does. */
  lemma SquareScoreBound(s: Square, row: Index, col: Index)
    requires row < 7
    ensures -MaxSquareScore <= SquareScore(s, row, col) <= MaxSquareScore
  {
    if s.Piece? {
      var t := Table(s.kind)[row];
      assert -10 <= t[col] && t[col] <= 10 && (s.kind == Queen ==> t[col] <= 1) by {
        assert t == Table(s.kind)[row];
        assert col in {0, 1, 2, 3, 4, 5, 6, 7};
      }
    }
  }

  lemma {:induction false} RowScoreBound(b: Board, row: Index, n: nat)
    requires row < 7 && n <= 7
    ensures -(n as int) * MaxSquareScore <= RowScore(b, row, n) <= (n as int) * MaxSquareScore
  {
    if n > 0 {
      RowScoreBound(b, row, n - 1);
      SquareScoreBound(At(b, row, n - 1), row, n - 1);
    }
  }

  lemma {:induction false} RowsScoreBound(b: Board, n: nat)
    requires n <= 7
    ensures -(n as int) * 7 * MaxSquareScore <= RowsScore(b, n) <= (n as int) * 7 * MaxSquareScore
  {
    if n > 0 {
      RowsScoreBound(b, n - 1);
      RowScoreBound(b, n - 1, 7);
    }
  }

  /** The score of any board lies within MaxScore of zero. */
  lemma ScoreBound(b: Board)
    ensures -MaxScore <= BoardScore(b) <= MaxScore
  {
    RowsScoreBound(b, 7);
  }

  /** The board with no piece on it. */
  const EmptyBoard: Board := seq(64, _ => Empty)

  lemma {:induction false} RowScoreEmpty(row: Index, n: nat)
    requires row < 7 && n <= 7
    ensures RowScore(EmptyBoard, row, n) == 0
  {
    if n > 0 {
      RowScoreEmpty(row, n - 1);
      assert At(EmptyBoard, row, n - 1) == Empty;
    }
  }

  lemma {:induction false} RowsScoreEmpty(n: nat)
    requires n <= 7
    ensures RowsScore(EmptyBoard, n) == 0
  {
    if n > 0 {
      RowsScoreEmpty(n - 1);
      RowScoreEmpty(n - 1, 7);
    }
  }

  /** An empty board scores 0. */
  lemma ScoreEmpty()
    ensures BoardScore(EmptyBoard) == 0
  {
    RowsScoreEmpty(7);
  }

  /** The same piece in the other colour. */
  function Recolored(s: Square): Square
  {
    match s
    case Empty => Empty
    case Piece(c, k) => Piece(c.Opponent(), k)
  }

  /** The board with every piece's colour swapped. */
  function Recolor(b: Board): (r: Board)
    ensures forall i | 0 <= i < 64 :: r[i] == Recolored(b[i])
  {
    seq(64, i requires 0 <= i < 64 => Recolored(b[i]))
  }

  lemma {:induction false} RowScoreRecolor(b: Board, row: Index, n: nat)
    requires row < 7 && n <= 7
    ensures RowScore(Recolor(b), row, n) == -RowScore(b, row, n)
  {
    if n > 0 {
      RowScoreRecolor(b, row, n - 1);
      assert At(Recolor(b), row, n - 1) == Recolored(At(b, row, n - 1));
    }
  }

  lemma {:induction false} RowsScoreRecolor(b: Board, n: nat)
    requires n <= 7
    ensures RowsScore(Recolor(b), n) == -RowsScore(b, n)
  {
    if n > 0 {
      RowsScoreRecolor(b, n - 1);
      RowScoreRecolor(b, n - 1, 7);
    }
  }

  /** White adds and black subtracts the same amounts: swapping every piece's colour
      negates the score. */
  lemma ScoreRecolor(b: Board)
    ensures BoardScore(Recolor(b)) == -BoardScore(b)
  {
    RowsScoreRecolor(b, 7);
  }

  /** b and b' agree on every square the evaluation reads: rows 0 to 6, columns 0 to 6. */
  predicate SameReadSquares(b: Board, b': Board)
  {
    forall r: Index, c: Index | r < 7 && c < 7 :: At(b, r, c) == At(b', r, c)
  }

  lemma {:induction false} RowScoreReads(b: Board, b': Board, row: Index, n: nat)
    requires row < 7 && n <= 7 && SameReadSquares(b, b')
    ensures RowScore(b, row, n) == RowScore(b', row, n)
  {
    if n > 0 {
      RowScoreReads(b, b', row, n - 1);
    }
  }

  lemma {:induction false} RowsScoreReads(b: Board, b': Board, n: nat)
    requires n <= 7 && SameReadSquares(b, b')
    ensures RowsScore(b, n) == RowsScore(b', n)
  {
    if n > 0 {
      RowsScoreReads(b, b', n - 1);
      RowScoreReads(b, b', n - 1, 7);
    }
  }

  /** Pieces on row 7 (white's back rank) and on column 7 (the h-file) do not count:
      boards that differ only there score the same. */
  lemma ScoreIgnoresLastRowAndColumn(b: Board, b': Board)
    requires SameReadSquares(b, b')
    ensures BoardScore(b) == BoardScore(b')
  {
    RowsScoreReads(b, b', 7);
  }
}
