/** The `Move` value and the `CastleRights` record of Chess/ChessEngine.py. */
module Moves {
  import opened Pieces

  /** Four castling flags, in the constructor order (wks, bks, wqs, bqs). */
  datatype CastleRights = CastleRights(whiteKingSide: bool, blackKingSide: bool,
                                       whiteQueenSide: bool, blackQueenSide: bool)

  /** One ply. `pieceMoved` and `pieceCaptured` are snapshots of the board taken
      when the move was built; the promotion flag and the identity are derived. */
  datatype Move = Move(startRow: Index, startCol: Index, endRow: Index, endCol: Index,
                       pieceMoved: Square, pieceCaptured: Square,
                       isEnPassant: bool, isCastleMove: bool)
  {
    function Start(): Coord { Coord(startRow, startCol) }
    function End(): Coord { Coord(endRow, endCol) }

    /** The packed identity: the four coordinates as the digits of one number. */
    function MoveID(): (id: nat)
      ensures id <= 7777
      ensures id % 10 == endCol && (id / 10) % 10 == endRow
      ensures (id / 100) % 10 == startCol && id / 1000 == startRow
    {
      LastDigit(startRow * 100 + startCol * 10 + endRow, endCol);
      LastDigit(startRow * 10 + startCol, endRow);
      LastDigit(startRow, startCol);
      startRow * 1000 + startCol * 100 + endRow * 10 + endCol
    }

    /** `__eq__`: two moves are equal when their identities are. */
    function Equals(other: Move): (same: bool)
      ensures same <==> Start() == other.Start() && End() == other.End()
    {
      MoveID() == other.MoveID()
    }

    /** A pawn that reaches the far rank is promoted (always to a queen). */
    predicate IsPawnPromo()
    {
      (pieceMoved == Piece(White, Pawn) && endRow == 0) ||
      (pieceMoved == Piece(Black, Pawn) && endRow == 7)
    }

    /** Rank-file notation of both ends, such as "e2 to e4". */
    function GetChessNotation(): (s: string)
      ensures |s| == 8 && s[2..6] == " to "
      ensures DecodesTo(s[0], s[1], startRow, startCol)
      ensures DecodesTo(s[6], s[7], endRow, endCol)
    {
      GetRankFile(startRow, startCol) + " to " + GetRankFile(endRow, endCol)
    }
  }

  /** A pawn advanced two rows: the only move that sets an en-passant target. */
  predicate IsDoubleStep(m: Move)
  {
    m.pieceMoved.Piece? && m.pieceMoved.kind == Pawn && Abs(m.startRow - m.endRow) == 2
  }

  /** Appending a decimal digit d to q gives a number whose last digit is d and whose
      other digits spell q. */
  lemma LastDigit(q: nat, d: nat)
    requires d < 10
    ensures (10 * q + d) % 10 == d && (10 * q + d) / 10 == q
  {
  }

  /** The constructor: the moved and captured pieces are read from the board.
      An en-passant capture records the opposing pawn as captured, although the
      destination square is empty. */
  function NewMove(start: Coord, end: Coord, board: Board, enpassantMove: bool, isCastleMove: bool): (m: Move)
    ensures m.Start() == start && m.End() == end
    ensures m.pieceMoved == AtSq(board, start)
    ensures !enpassantMove ==> m.pieceCaptured == AtSq(board, end)
    ensures enpassantMove ==>
              m.pieceCaptured == (if AtSq(board, start) == Piece(Black, Pawn) then Piece(White, Pawn) else Piece(Black, Pawn))
    ensures m.isEnPassant == enpassantMove && m.isCastleMove == isCastleMove
  {
    var moved := AtSq(board, start);
    var captured := if enpassantMove then (if moved == Piece(Black, Pawn) then Piece(White, Pawn) else Piece(Black, Pawn))
                    else AtSq(board, end);
    Move(start.row, start.col, end.row, end.col, moved, captured, enpassantMove, isCastleMove)
  }

  // The notation tables: rank characters to rows and file characters to columns, and
  // the two tables that swap their keys and values.
  const RanksToRows: map<char, Index> :=
    map['1' := 7, '2' := 6, '3' := 5, '4' := 4, '5' := 3, '6' := 2, '7' := 1, '8' := 0]
  const RowsToRanks: map<Index, char> :=
    map[7 := '1', 6 := '2', 5 := '3', 4 := '4', 3 := '5', 2 := '6', 1 := '7', 0 := '8']
  const FilesToCols: map<char, Index> :=
    map['a' := 0, 'b' := 1, 'c' := 2, 'd' := 3, 'e' := 4, 'f' := 5, 'g' := 6, 'h' := 7]
  const ColsToFiles: map<Index, char> :=
    map[0 := 'a', 1 := 'b', 2 := 'c', 3 := 'd', 4 := 'e', 5 := 'f', 6 := 'g', 7 := 'h']

  /** The file character and rank character decode, through the forward tables, to (r, c). */
  predicate DecodesTo(file: char, rank: char, r: Index, c: Index)
  {
    file in FilesToCols && FilesToCols[file] == c && rank in RanksToRows && RanksToRows[rank] == r
  }

  /** `rowsToRanks` is exactly `ranksToRows` with keys and values swapped. */
  lemma RankTablesInverse()
    ensures forall k :: k in RanksToRows ==> RanksToRows[k] in RowsToRanks && RowsToRanks[RanksToRows[k]] == k
    ensures forall v :: v in RowsToRanks ==> RowsToRanks[v] in RanksToRows && RanksToRows[RowsToRanks[v]] == v
  {
    forall k | k in RanksToRows
      ensures RanksToRows[k] in RowsToRanks && RowsToRanks[RanksToRows[k]] == k
    {
      assert k in "12345678";
      RowTablesAt(RanksToRows[k]);
    }
    forall v | v in RowsToRanks
      ensures RowsToRanks[v] in RanksToRows && RanksToRows[RowsToRanks[v]] == v
    {
      RowTablesAt(v);
    }
  }

  /** `colsToFiles` is exactly `filesToCols` with keys and values swapped. */
  lemma FileTablesInverse()
    ensures forall k :: k in FilesToCols ==> FilesToCols[k] in ColsToFiles && ColsToFiles[FilesToCols[k]] == k
    ensures forall v :: v in ColsToFiles ==> ColsToFiles[v] in FilesToCols && FilesToCols[ColsToFiles[v]] == v
  {
    forall k | k in FilesToCols
      ensures FilesToCols[k] in ColsToFiles && ColsToFiles[FilesToCols[k]] == k
    {
      assert k in "abcdefgh";
      ColTablesAt(FilesToCols[k]);
    }
    forall v | v in ColsToFiles
      ensures ColsToFiles[v] in FilesToCols && FilesToCols[ColsToFiles[v]] == v
    {
      ColTablesAt(v);
    }
  }

  /** Rank-file notation of one square: file letter 'a' + c, then rank digit 8 - r. */
  function GetRankFile(r: Index, c: Index): (s: string)
    ensures |s| == 2
    ensures s[0] == (('a' as int) + c) as char && s[1] == (('8' as int) - r) as char
    ensures DecodesTo(s[0], s[1], r, c)
  {
    RowTablesAt(r);
    ColTablesAt(c);
    [ColsToFiles[c], RowsToRanks[r]]
  }

  /** `rowsToRanks` is defined on every row, gives the digit 8 - r, and `ranksToRows` undoes it. */
  lemma RowTablesAt(r: Index)
    ensures r in RowsToRanks && RowsToRanks[r] == (('8' as int) - r) as char
    ensures RowsToRanks[r] in RanksToRows && RanksToRows[RowsToRanks[r]] == r
  {
  }

  /** `colsToFiles` is defined on every column, gives the letter 'a' + c, and `filesToCols` undoes it. */
  lemma ColTablesAt(c: Index)
    ensures c in ColsToFiles && ColsToFiles[c] == (('a' as int) + c) as char
    ensures ColsToFiles[c] in FilesToCols && FilesToCols[ColsToFiles[c]] == c
  {
  }
}
