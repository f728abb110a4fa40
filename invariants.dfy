/** What stays true of a position from one valid move to the next: the invariants the
    rest of the model assumes (pawns off their last row, the cached king squares, a
    consistent en-passant target, kings at home while they may castle), and that the
    side which has just moved has not left its own king attacked. */
module Invariants {
  import opened Pieces
  import opened Moves
  import opened Position
  import opened Generation
  import opened Legality

  /** The side that has just moved does not have its king attacked. */
  predicate MoverSafe(p: Position)
    requires PawnsInRange(p.board)
  {
    !Attacked(p.board, p.whiteToMove, p.enpassantPossible, p.KingLoc(!p.whiteToMove))
  }

  /** The positions play reaches: well-formed, with the mover's king safe. */
  predicate Playable(p: Position)
  {
    Wellformed(p) && MoverSafe(p)
  }

  /** m takes no king off the board: neither the square it lands on, nor the pawn it
      takes en passant, nor the square a castle copies its rook from holds a king. */
  predicate SparesKings(p: Position, m: Move)
  {
    var b := p.board;
    && !(AtSq(b, m.End()).Piece? && AtSq(b, m.End()).kind == King)
    && (m.isEnPassant ==> !(At(b, m.startRow, m.endCol).Piece? && At(b, m.startRow, m.endCol).kind == King))
    && (m.isCastleMove && CastleInBounds(m) ==>
          var src := if m.endCol - m.startCol == 2 then m.endCol + 1 else m.endCol - 2;
          !(At(b, m.endRow, src).Piece? && At(b, m.endRow, src).kind == King))
  }

  /** A valid move is a candidate that fits the make/undo round trip and does not leave
      the mover in check. */
  lemma ValidMoveIsSafeCandidate(p: Position, m: Move)
    requires Wellformed(p) && m in ValidMoves(p)
    ensures CastleReadable(p, p.KingLoc(p.whiteToMove).col)
    ensures exists i | 0 <= i < |Candidates(p)| :: Candidates(p)[i] == m
    ensures Fits(p, m) && !LeavesInCheck(p, m)
  {
    CandidatesFit(p);
    KeepMembers(Verdict(p), Candidates(p), m);
    var i :| 0 <= i < |Candidates(p)| && Candidates(p)[i] == m;
    assert Fits(p, Candidates(p)[i]);
  }

  /** After m, the mover is safe exactly when m did not leave it in check. */
  lemma MoverSafeAfter(p: Position, m: Move)
    requires PawnsInRange(p.board) && CastleInBounds(m)
    ensures PawnsInRange(ApplyMove(p, m).board)
    ensures MoverSafe(ApplyMove(p, m)) <==> !LeavesInCheck(p, m)
  {
    MovedPawnsInRange(p.board, m);
  }

  /** A move keeps each side's king on its home square while that side may still castle. */
  lemma CastleHomeAfter(p: Position, m: Move)
    requires CastleHome(p) && Fits(p, m)
    ensures CastleHome(ApplyMove(p, m))
  {
  }

  /** A move that takes no king off the board keeps the cached king squares right. */
  lemma KingsAfter(p: Position, m: Move)
    requires KingsCached(p) && Fits(p, m) && SparesKings(p, m)
    ensures KingsCached(ApplyMove(p, m))
  {
    if m.isCastleMove {
      KingsAfterCastle(p, m);
    } else {
      KingsAfterPlain(p, m);
    }
  }

  lemma KingsAfterPlain(p: Position, m: Move)
    requires KingsCached(p) && Fits(p, m) && SparesKings(p, m) && !m.isCastleMove
    ensures KingsCached(ApplyMove(p, m))
  {
    var b := p.board;
    var q := ApplyMove(p, m);
    assert b[Idx(m.endRow, m.endCol)] == AtSq(b, m.End());
    assert b[Idx(m.startRow, m.startCol)] == AtSq(b, m.Start());
    forall i | 0 <= i < 64
      ensures && (q.board[i] == Piece(White, King) <==> i == Idx(q.wKingLoc.row, q.wKingLoc.col))
              && (q.board[i] == Piece(Black, King) <==> i == Idx(q.bKingLoc.row, q.bKingLoc.col))
    {
    }
  }

  lemma KingsAfterCastle(p: Position, m: Move)
    requires KingsCached(p) && Fits(p, m) && SparesKings(p, m) && m.isCastleMove
    ensures KingsCached(ApplyMove(p, m))
  {
    var b := p.board;
    var q := ApplyMove(p, m);
    var src := if m.endCol - m.startCol == 2 then m.endCol + 1 else m.endCol - 2;
    var dst := if m.endCol - m.startCol == 2 then m.endCol - 1 else m.endCol + 1;
    assert b[Idx(m.endRow, m.endCol)] == AtSq(b, m.End());
    assert b[Idx(m.startRow, m.startCol)] == AtSq(b, m.Start());
    assert b[Idx(m.endRow, src)] == At(b, m.endRow, src);
    CastleCells(b, m);
    forall i | 0 <= i < 64
      ensures && (q.board[i] == Piece(White, King) <==> i == Idx(q.wKingLoc.row, q.wKingLoc.col))
              && (q.board[i] == Piece(Black, King) <==> i == Idx(q.bKingLoc.row, q.bKingLoc.col))
    {
    }
  }

  /** The board after a castle, square by square: the king's start and the copied square
      are emptied, the moved piece (or its promotion) lands on the destination, the
      copied square's piece lands beside it, and nothing else changes. */
  lemma CastleCells(b: Board, m: Move)
    requires m.isCastleMove && !m.isEnPassant && CastleInBounds(m)
    requires m.endRow == m.startRow && Abs(m.endCol - m.startCol) == 2
    ensures var src := if m.endCol - m.startCol == 2 then m.endCol + 1 else m.endCol - 2;
            var dst := if m.endCol - m.startCol == 2 then m.endCol - 1 else m.endCol + 1;
            forall i | 0 <= i < 64 ::
              MovedBoard(b, m)[i] ==
                if i == Idx(m.endRow, dst) then b[Idx(m.endRow, src)]
                else if i == Idx(m.endRow, m.endCol) then
                  (if m.IsPawnPromo() then Piece(m.pieceMoved.color, Queen) else m.pieceMoved)
                else if i == Idx(m.startRow, m.startCol) || i == Idx(m.endRow, src) then Empty
                else b[i]
  {
  }

  /** A move whose two-row pawn advances are double steps of the mover's own pawn leaves
      a consistent en-passant target. */
  lemma TargetAfterMove(p: Position, m: Move)
    requires Fits(p, m)
    requires IsDoubleStep(m) ==>
               DoubleStepShape(p.board, p.whiteToMove, m) && m.pieceMoved == Piece(SideColor(p.whiteToMove), Pawn)
    ensures TargetConsistent(ApplyMove(p, m))
  {
  }

  /** A generated move of a playable position spares the kings, and a two-row pawn move
      among them is a double step of the mover's pawn. */
  lemma PlainMoveSafe(p: Position, i: nat)
    requires Playable(p) && i < |AllMoves(p.board, p.whiteToMove, p.enpassantPossible)|
    ensures var m := AllMoves(p.board, p.whiteToMove, p.enpassantPossible)[i];
            && SparesKings(p, m) && Fits(p, m)
            && (IsDoubleStep(m) ==>
                  DoubleStepShape(p.board, p.whiteToMove, m) && m.pieceMoved == Piece(SideColor(p.whiteToMove), Pawn))
  {
    var b := p.board;
    var all := AllMoves(b, p.whiteToMove, p.enpassantPossible);
    var m := all[i];
    AllMovesSound(b, p.whiteToMove, p.enpassantPossible);
    AllMovesDoubleStep(b, p.whiteToMove, p.enpassantPossible);
    GeneratedFits(p, m);
  }

  /** A castle that does not leave the king attacked spares the kings: an enemy king on
      the rook's corner would be copied next to the castled king and attack it. */
  lemma CastleSafe(p: Position, m: Move)
    requires Wellformed(p) && Fits(p, m) && m.isCastleMove && AtSq(p.board, m.End()) == Empty
    requires m.Start() == p.KingLoc(p.whiteToMove) && m.endRow == m.startRow && Abs(m.endCol - m.startCol) == 2
    requires !LeavesInCheck(p, m)
    ensures SparesKings(p, m)
  {
    var b := p.board;
    var src := if m.endCol - m.startCol == 2 then m.endCol + 1 else m.endCol - 2;
    var dst := if m.endCol - m.startCol == 2 then m.endCol - 1 else m.endCol + 1;
    KingOnCachedSquare(p);
    if At(b, m.endRow, src).Piece? && At(b, m.endRow, src).kind == King {
      var q := ApplyMove(p, m);
      MovedPawnsInRange(b, m);
      CastleCells(b, m);
      var k := p.KingLoc(p.whiteToMove);
      assert Idx(m.endRow, src) != Idx(k.row, k.col);
      assert b[Idx(m.endRow, src)] == At(b, m.endRow, src);
      assert At(b, m.endRow, src) != Piece(SideColor(p.whiteToMove), King);
      assert At(b, m.endRow, src).color != SideColor(p.whiteToMove);
      assert if p.whiteToMove then SideColor(!p.whiteToMove) == Black else SideColor(!p.whiteToMove) == White;
      assert At(b, m.endRow, src) == Piece(SideColor(!p.whiteToMove), King);
      assert At(q.board, m.endRow, dst) == Piece(SideColor(!p.whiteToMove), King);
      assert AtSq(q.board, m.End()) == Piece(SideColor(p.whiteToMove), King);
      KingAttacks(q.board, !p.whiteToMove, q.enpassantPossible, Coord(m.endRow, dst), m.End());
      assert false;
    }
  }

  /** A candidate of a playable position that does not leave the mover in check spares
      the kings, fits the round trip, and is a double step if it moves a pawn two rows. */
  lemma CandidateSafe(p: Position, i: nat)
    requires Playable(p) && CastleReadable(p, p.KingLoc(p.whiteToMove).col) && i < |Candidates(p)|
    requires CastleInBounds(Candidates(p)[i]) && !LeavesInCheck(p, Candidates(p)[i])
    ensures var m := Candidates(p)[i];
            && SparesKings(p, m) && Fits(p, m)
            && (IsDoubleStep(m) ==>
                  DoubleStepShape(p.board, p.whiteToMove, m) && m.pieceMoved == Piece(SideColor(p.whiteToMove), Pawn))
  {
    var k := p.KingLoc(p.whiteToMove);
    var all := AllMoves(p.board, p.whiteToMove, p.enpassantPossible);
    var cs := CastleMoves(p, k.row, k.col);
    if i < |all| {
      assert Candidates(p)[i] == all[i];
      PlainMoveSafe(p, i);
    } else {
      var m := cs[i - |all|];
      assert Candidates(p)[i] == m;
      CastleMovesSound(p);
      CastleSafe(p, m);
      KingOnCachedSquare(p);
    }
  }

  /** Every valid move of a playable position leads to a playable position: the
      invariants the model relies on hold all through a game started from one. */
  lemma ValidMovePreservesPlayable(p: Position, m: Move)
    requires Playable(p) && m in ValidMoves(p)
    ensures CastleInBounds(m) && Playable(ApplyMove(p, m))
  {
    ValidMoveIsSafeCandidate(p, m);
    var i :| 0 <= i < |Candidates(p)| && Candidates(p)[i] == m;
    CandidateSafe(p, i);
    MoverSafeAfter(p, m);
    CastleHomeAfter(p, m);
    KingsAfter(p, m);
    TargetAfterMove(p, m);
  }

  /** Every valid move of a well-formed position fits the make/undo round trip. */
  lemma ValidMovesFit(p: Position)
    requires Wellformed(p)
    ensures forall i | 0 <= i < |ValidMoves(p)| :: Fits(p, ValidMoves(p)[i])
  {
    forall i | 0 <= i < |ValidMoves(p)|
      ensures Fits(p, ValidMoves(p)[i])
    {
      ValidMoveIsSafeCandidate(p, ValidMoves(p)[i]);
    }
  }
}
