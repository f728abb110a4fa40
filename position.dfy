/** The state of `GameState` as a value, and what `makeMove` and `undoMove`
    (Chess/ChessEngine.py) do to it. The class in engine.dfy is proved against these. */
module Position {
  import opened Pieces
  import opened Moves

  /** Everything `makeMove` and `undoMove` read or write, apart from the two logs. */
  datatype Position = Position(board: Board, whiteToMove: bool, wKingLoc: Coord, bKingLoc: Coord,
                               enpassantPossible: Option<Coord>, castleRights: CastleRights)
  {
    /** The cached king square of one side. */
    function KingLoc(white: bool): Coord
    {
      if white then wKingLoc else bKingLoc
    }
  }

  /** The squares a castle move writes lie on the board. The code reads a distance of two
      columns as king-side and anything else as queen-side. */
  predicate CastleInBounds(m: Move)
  {
    m.isCastleMove ==>
      if m.endCol - m.startCol == 2 then m.endCol <= 6 else 2 <= m.endCol <= 6
  }

  /** `updateCastleRights`: a king move clears both rights of its colour; a rook leaving
      its home corner clears the right of that corner; capturing a rook clears nothing. */
  function UpdatedRights(cr: CastleRights, m: Move): (r: CastleRights)
    ensures r.whiteKingSide ==> cr.whiteKingSide
    ensures r.whiteQueenSide ==> cr.whiteQueenSide
    ensures r.blackKingSide ==> cr.blackKingSide
    ensures r.blackQueenSide ==> cr.blackQueenSide
    ensures m.pieceMoved == Piece(White, King) ==>
              r == cr.(whiteKingSide := false, whiteQueenSide := false)
    ensures m.pieceMoved == Piece(Black, King) ==>
              r == cr.(blackKingSide := false, blackQueenSide := false)
    ensures m.pieceMoved == Piece(White, Rook) && m.Start() == Coord(7, 0) ==> r == cr.(whiteQueenSide := false)
    ensures m.pieceMoved == Piece(White, Rook) && m.Start() == Coord(7, 7) ==> r == cr.(whiteKingSide := false)
    ensures m.pieceMoved == Piece(Black, Rook) && m.Start() == Coord(0, 0) ==> r == cr.(blackQueenSide := false)
    ensures m.pieceMoved == Piece(Black, Rook) && m.Start() == Coord(0, 7) ==> r == cr.(blackKingSide := false)
    ensures !(m.pieceMoved.Piece? && m.pieceMoved.kind in {King, Rook}) ==> r == cr
    ensures (m.pieceMoved.Piece? && m.pieceMoved.kind == Rook &&
             m.Start() !in {Coord(7, 0), Coord(7, 7), Coord(0, 0), Coord(0, 7)}) ==> r == cr
  {
    if m.pieceMoved == Piece(White, King) then
      cr.(whiteKingSide := false, whiteQueenSide := false)
    else if m.pieceMoved == Piece(Black, King) then
      cr.(blackKingSide := false, blackQueenSide := false)
    else if m.pieceMoved == Piece(White, Rook) then
      if m.startRow == 7 then
        if m.startCol == 0 then cr.(whiteQueenSide := false)
        else if m.startCol == 7 then cr.(whiteKingSide := false)
        else cr
      else cr
    else if m.pieceMoved == Piece(Black, Rook) then
      if m.startRow == 0 then
        if m.startCol == 0 then cr.(blackQueenSide := false)
        else if m.startCol == 7 then cr.(blackKingSide := false)
        else cr
      else cr
    else cr
  }

  /** The rook relocation of a castle move: king-side copies the square right of the
      king's destination to its left, queen-side copies the square two to the left of
      the destination to its right. Whatever stands there is copied; nothing checks
      that it is a rook. */
  function CastleRook(b: Board, m: Move): Board
    requires m.isCastleMove && CastleInBounds(m)
  {
    if m.endCol - m.startCol == 2 then
      b[Idx(m.endRow, m.endCol - 1) := At(b, m.endRow, m.endCol + 1)][Idx(m.endRow, m.endCol + 1) := Empty]
    else
      b[Idx(m.endRow, m.endCol + 1) := At(b, m.endRow, m.endCol - 2)][Idx(m.endRow, m.endCol - 2) := Empty]
  }

  /** The rook relocation reversed, as `undoMove` does it. */
  function UncastleRook(b: Board, m: Move): Board
    requires m.isCastleMove && CastleInBounds(m)
  {
    if m.endCol - m.startCol == 2 then
      b[Idx(m.endRow, m.endCol + 1) := At(b, m.endRow, m.endCol - 1)][Idx(m.endRow, m.endCol - 1) := Empty]
    else
      b[Idx(m.endRow, m.endCol - 2) := At(b, m.endRow, m.endCol + 1)][Idx(m.endRow, m.endCol + 1) := Empty]
  }

  /** The board writes of `makeMove`, in the order the code makes them: vacate the start,
      place the piece, promote a pawn that reached the far row to a queen, clear the pawn
      taken en passant, and move the castling rook. */
  function MovedBoard(b: Board, m: Move): Board
    requires CastleInBounds(m)
  {
    var b1 := b[Idx(m.startRow, m.startCol) := Empty][Idx(m.endRow, m.endCol) := m.pieceMoved];
    var b2 := if m.IsPawnPromo() then b1[Idx(m.endRow, m.endCol) := Piece(m.pieceMoved.color, Queen)] else b1;
    var b3 := if m.isEnPassant then b2[Idx(m.startRow, m.endCol) := Empty] else b2;
    if m.isCastleMove then CastleRook(b3, m) else b3
  }

  /** The en-passant target after m: the square a double step skipped, otherwise none. */
  function TargetAfter(m: Move): Option<Coord>
  {
    if IsDoubleStep(m) then Some(Coord((m.startRow + m.endRow) / 2, m.startCol)) else None
  }

  /** `makeMove`, apart from the logs. No legality check is made. */
  function ApplyMove(p: Position, m: Move): Position
    requires CastleInBounds(m)
  {
    var wk := if m.pieceMoved == Piece(White, King) then m.End() else p.wKingLoc;
    var bk := if m.pieceMoved != Piece(White, King) && m.pieceMoved == Piece(Black, King) then m.End() else p.bKingLoc;
    Position(MovedBoard(p.board, m), !p.whiteToMove, wk, bk, TargetAfter(m), UpdatedRights(p.castleRights, m))
  }

  /** What stands on the destination after `makeMove`: a pawn reaching the far row
      becomes a queen of its colour, any other piece arrives as it was. The castling rook
      never lands there; only an en-passant clear on the destination's own row would. */
  lemma PieceLands(p: Position, m: Move)
    requires CastleInBounds(m)
    ensures AtSq(ApplyMove(p, m).board, m.End()) ==
              if m.isEnPassant && m.startRow == m.endRow then Empty
              else if m.IsPawnPromo() then Piece(m.pieceMoved.color, Queen)
              else m.pieceMoved
  {
  }

  /** `makeMove` turns a pawn that reaches the far row into a queen of its colour. */
  lemma PromotesToQueen(p: Position, m: Move)
    requires CastleInBounds(m) && m.IsPawnPromo() && m.startRow != m.endRow
    ensures AtSq(ApplyMove(p, m).board, m.End()) == Piece(m.pieceMoved.color, Queen)
  {
    PieceLands(p, m);
  }

  /** The board writes of `undoMove`: put back the moved and the captured piece, move a
      pawn taken en passant back beside the capturer, and put the castling rook back. */
  function UnmovedBoard(b: Board, m: Move): Board
    requires CastleInBounds(m)
  {
    var b1 := b[Idx(m.startRow, m.startCol) := m.pieceMoved][Idx(m.endRow, m.endCol) := m.pieceCaptured];
    var b2 := if m.isEnPassant then b1[Idx(m.endRow, m.endCol) := Empty][Idx(m.startRow, m.endCol) := m.pieceCaptured] else b1;
    if m.isCastleMove then UncastleRook(b2, m) else b2
  }

  /** `undoMove` of m, apart from the logs; `below` is the rights entry that becomes the
      top of the log once m's entry is popped. The en-passant target is set only when
      m itself was an en-passant capture, and cleared when m was a double step. */
  function UndoPosition(p: Position, m: Move, below: CastleRights): Position
    requires CastleInBounds(m)
  {
    var wk := if m.pieceMoved == Piece(White, King) then m.Start() else p.wKingLoc;
    var bk := if m.pieceMoved != Piece(White, King) && m.pieceMoved == Piece(Black, King) then m.Start() else p.bKingLoc;
    var ep1 := if m.isEnPassant then Some(m.End()) else p.enpassantPossible;
    var ep2 := if IsDoubleStep(m) then None else ep1;
    Position(UnmovedBoard(p.board, m), !p.whiteToMove, wk, bk, ep2, below)
  }

  /** What a move produced by the generators guarantees about the position it was
      generated in, and all that the make/undo round trip needs. */
  predicate Fits(p: Position, m: Move)
  {
    var b := p.board;
    && m.Start() != m.End()
    && CastleInBounds(m)
    && AtSq(b, m.Start()) == m.pieceMoved
    && (m.pieceMoved == Piece(White, King) ==> p.wKingLoc == m.Start())
    && (m.pieceMoved == Piece(Black, King) ==> p.bKingLoc == m.Start())
    && (if m.isEnPassant then
          && !m.isCastleMove
          && AtSq(b, m.End()) == Empty
          && Abs(m.startRow - m.endRow) == 1 && m.startCol != m.endCol
          && At(b, m.startRow, m.endCol) == m.pieceCaptured
        else
          AtSq(b, m.End()) == m.pieceCaptured)
    && (m.isCastleMove ==>
          && m.startRow == m.endRow
          && (if m.endCol - m.startCol == 2 then At(b, m.endRow, m.endCol - 1) == Empty
              else m.startCol - m.endCol == 2 && At(b, m.endRow, m.endCol + 1) == Empty))
  }

  /** The make/undo round trip: `undoMove()` after `makeMove(m)` restores the board, the
      turn, both king squares and the castling rights. The en-passant target comes back
      as m's own destination if m was an en-passant capture and empty otherwise, so the
      whole position is restored exactly when that is what it was. */
  lemma UndoAfterApply(p: Position, m: Move)
    requires Fits(p, m)
    ensures UndoPosition(ApplyMove(p, m), m, p.castleRights)
            == p.(enpassantPossible := if m.isEnPassant then Some(m.End()) else None)
    ensures UndoPosition(ApplyMove(p, m), m, p.castleRights) == p <==>
            p.enpassantPossible == (if m.isEnPassant then Some(m.End()) else None)
  {
    var q := ApplyMove(p, m);
    var u := UndoPosition(q, m, p.castleRights);
    assert u.board == p.board by {
      forall i | 0 <= i < 64 ensures u.board[i] == p.board[i] {
      }
    }
  }
}
