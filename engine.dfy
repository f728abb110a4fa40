/** `GameState` of Chess/ChessEngine.py: the board is updated in place by `makeMove`
    and `undoMove`, and the generators append to a caller's list. Each method is proved
    against the value-level definitions in position.dfy, generation.dfy and legality.dfy. */
module Engine {
  import opened Pieces
  import opened Moves
  import opened Position
  import opened Generation
  import opened Legality

  /** The opening position, row 0 (black's back rank) first. */
  const InitialBoard: Board :=
    [Piece(Black, Rook), Piece(Black, Knight), Piece(Black, Bishop), Piece(Black, Queen),
     Piece(Black, King), Piece(Black, Bishop), Piece(Black, Knight), Piece(Black, Rook)] +
    seq(8, _ => Piece(Black, Pawn)) + seq(32, _ => Empty) + seq(8, _ => Piece(White, Pawn)) +
    [Piece(White, Rook), Piece(White, Knight), Piece(White, Bishop), Piece(White, Queen),
     Piece(White, King), Piece(White, Bishop), Piece(White, Knight), Piece(White, Rook)]

  /** The opening position keeps the invariants the generators rely on: no pawn on its
      far row, one king per side on its cached square, no en-passant target, and both
      kings at home with all castling rights. */
  lemma InitialWellformed()
    ensures Wellformed(Position(InitialBoard, true, Coord(7, 4), Coord(0, 4), None, CastleRights(true, true, true, true)))
  {
    forall i | 0 <= i < 64
      ensures && (InitialBoard[i] == Piece(White, Pawn) ==> i >= 8)
              && (InitialBoard[i] == Piece(Black, Pawn) ==> i < 56)
              && (InitialBoard[i] == Piece(White, King) <==> i == 60)
              && (InitialBoard[i] == Piece(Black, King) <==> i == 4)
    {
    }
  }

  /** Every move of a log can be undone without writing off the board. */
  ghost predicate Undoable(ms: seq<Move>)
  {
    forall i | 0 <= i < |ms| :: CastleInBounds(ms[i])
  }

  lemma UndoableAppend(ms: seq<Move>, m: Move)
    requires Undoable(ms) && CastleInBounds(m)
    ensures Undoable(ms + [m])
  {
    assert forall i | 0 <= i < |ms| :: (ms + [m])[i] == ms[i];
  }

  lemma UndoablePop(ms: seq<Move>)
    requires Undoable(ms) && ms != []
    ensures Undoable(ms[..|ms| - 1]) && CastleInBounds(ms[|ms| - 1])
  {
    assert forall i | 0 <= i < |ms| - 1 :: ms[..|ms| - 1][i] == ms[i];
  }

  lemma AppendAssoc(a: seq<Move>, b: seq<Move>, c: seq<Move>)
    ensures (a + b) + c == a + (b + c)
  {
  }

  /** The `for oppMove in oppMoves` loop of `underAttack`: some move ends on (r, c). */
  method AnyEndsOn(oppMoves: seq<Move>, r: Index, c: Index) returns (found: bool)
    ensures found == EndsOn(oppMoves, Coord(r, c))
  {
    var k := 0;
    while k < |oppMoves|
      invariant k <= |oppMoves|
      invariant forall j | 0 <= j < k :: oppMoves[j].End() != Coord(r, c)
    {
      if oppMoves[k].endRow == r && oppMoves[k].endCol == c {
        return true;
      }
      k := k + 1;
    }
    return false;
  }

  class GameState {
    /** The 8x8 grid, row by row: square (r, c) is cell 8 * r + c. */
    var board: array<Square>
    var whiteToMove: bool
    var moveLog: seq<Move>
    var wKingLoc: Coord
    var bKingLoc: Coord
    var checkMate: bool
    var staleMate: bool
    var enpassantPossible: Option<Coord>
    var currentCastlingRight: CastleRights
    var castleRightLog: seq<CastleRights>

    /** The rights log holds one entry more than the move log and its top entry is the
        current rights; every logged move can be undone without leaving the board. */
    ghost predicate Valid()
      reads this
    {
      && board.Length == 64
      && |castleRightLog| == |moveLog| + 1
      && castleRightLog[|moveLog|] == currentCastlingRight
      && Undoable(moveLog)
    }

    /** The state as a value. */
    ghost function Pos(): Position
      reads this, board
      requires Valid()
    {
      Position(board[..], whiteToMove, wKingLoc, bKingLoc, enpassantPossible, currentCastlingRight)
    }

    /** A new game: the opening position, white to move, all castling rights. */
    constructor ()
      ensures Valid() && fresh(board)
      ensures board[..] == InitialBoard && whiteToMove
      ensures wKingLoc == Coord(7, 4) && bKingLoc == Coord(0, 4)
      ensures moveLog == [] && !checkMate && !staleMate && enpassantPossible == None
      ensures currentCastlingRight == CastleRights(true, true, true, true)
      ensures castleRightLog == [currentCastlingRight]
    {
      board := new Square[64](i requires 0 <= i < 64 => InitialBoard[i]);
      whiteToMove := true;
      moveLog := [];
      wKingLoc := Coord(7, 4);
      bKingLoc := Coord(0, 4);
      checkMate := false;
      staleMate := false;
      enpassantPossible := None;
      var rights := CastleRights(true, true, true, true);
      currentCastlingRight := rights;
      // The first entry is built with the arguments in the order (wks, wqs, bks, bqs);
      // all four are true here, so the order makes no difference.
      castleRightLog := [CastleRights(rights.whiteKingSide, rights.whiteQueenSide,
                                      rights.blackKingSide, rights.blackQueenSide)];
      new;
      assert board[..] == InitialBoard;
    }

    /** `makeMove`: applies the move without checking it, logs it and pushes the new rights. */
    method MakeMove(move: Move)
      requires Valid() && CastleInBounds(move)
      modifies this, board
      ensures Valid() && board == old(board)
      ensures Pos() == ApplyMove(old(Pos()), move)
      ensures moveLog == old(moveLog) + [move]
      ensures castleRightLog == old(castleRightLog) + [currentCastlingRight]
      ensures checkMate == old(checkMate) && staleMate == old(staleMate)
    {
      ghost var p0 := Pos();
      MoveOnBoard(move);
      moveLog := moveLog + [move];
      UndoableAppend(old(moveLog), move);
      whiteToMove := !whiteToMove;
      TrackKing(move.pieceMoved, move.End());
      SetEnPassantTarget(move);
      UpdateCastleRights(move);
      var rights := currentCastlingRight;
      assert CastleRights(rights.whiteKingSide, rights.blackKingSide,
                          rights.whiteQueenSide, rights.blackQueenSide) == rights;
      castleRightLog := castleRightLog + [CastleRights(rights.whiteKingSide, rights.blackKingSide,
                                                       rights.whiteQueenSide, rights.blackQueenSide)];
      assert Pos() == ApplyMove(p0, move);
    }

    /** The en-passant bookkeeping of `makeMove`: a pawn's double step makes the square
        it skipped the target; any other move clears the target. */
    method SetEnPassantTarget(move: Move)
      modifies this`enpassantPossible
      ensures enpassantPossible == TargetAfter(move)
    {
      if move.pieceMoved.Piece? && move.pieceMoved.kind == Pawn && Abs(move.startRow - move.endRow) == 2 {
        enpassantPossible := Some(Coord((move.startRow + move.endRow) / 2, move.startCol));
      } else {
        enpassantPossible := None;
      }
    }

    /** The king-square cache: a king that moves takes its colour's cached square along. */
    method TrackKing(piece: Square, to: Coord)
      modifies this`wKingLoc, this`bKingLoc
      ensures wKingLoc == if piece == Piece(White, King) then to else old(wKingLoc)
      ensures bKingLoc == if piece == Piece(Black, King) then to else old(bKingLoc)
    {
      if piece == Piece(White, King) {
        wKingLoc := to;
      } else if piece == Piece(Black, King) {
        bKingLoc := to;
      }
    }

    /** The en-passant bookkeeping of `undoMove`: undoing an en-passant capture makes its
        destination the target again, and undoing a double step clears the target. */
    method RestoreEnPassantTarget(oldMove: Move)
      modifies this`enpassantPossible
      ensures enpassantPossible ==
                if IsDoubleStep(oldMove) then None
                else if oldMove.isEnPassant then Some(oldMove.End()) else old(enpassantPossible)
    {
      if oldMove.isEnPassant {
        enpassantPossible := Some(oldMove.End());
      }
      if oldMove.pieceMoved.Piece? && oldMove.pieceMoved.kind == Pawn && Abs(oldMove.startRow - oldMove.endRow) == 2 {
        enpassantPossible := None;
      }
    }

    /** The board writes of `makeMove`. */
    method MoveOnBoard(move: Move)
      requires board.Length == 64 && CastleInBounds(move)
      modifies board
      ensures board[..] == MovedBoard(old(board[..]), move)
    {
      ghost var b0 := board[..];
      Put(Idx(move.startRow, move.startCol), Empty);
      Put(Idx(move.endRow, move.endCol), move.pieceMoved);
      ghost var b1 := board[..];
      assert b1 == b0[Idx(move.startRow, move.startCol) := Empty][Idx(move.endRow, move.endCol) := move.pieceMoved];
      if move.IsPawnPromo() {
        Put(Idx(move.endRow, move.endCol), Piece(move.pieceMoved.color, Queen));
      }
      ghost var b2 := board[..];
      assert b2 == if move.IsPawnPromo() then b1[Idx(move.endRow, move.endCol) := Piece(move.pieceMoved.color, Queen)] else b1;
      if move.isEnPassant {
        Put(Idx(move.startRow, move.endCol), Empty);
      }
      ghost var b3 := board[..];
      assert b3 == if move.isEnPassant then b2[Idx(move.startRow, move.endCol) := Empty] else b2;
      if move.isCastleMove {
        if move.endCol - move.startCol == 2 {
          Put(Idx(move.endRow, move.endCol - 1), board[Idx(move.endRow, move.endCol + 1)]);
          Put(Idx(move.endRow, move.endCol + 1), Empty);
        } else {
          Put(Idx(move.endRow, move.endCol + 1), board[Idx(move.endRow, move.endCol - 2)]);
          Put(Idx(move.endRow, move.endCol - 2), Empty);
        }
        assert board[..] == CastleRook(b3, move);
      }
    }

    /** `undoMove`: a no-op on an empty log; otherwise pops the last move and its rights
        entry and reverses the move. */
    method UndoMove()
      requires Valid()
      modifies this, board
      ensures Valid() && board == old(board)
      ensures old(moveLog) == [] ==>
                Pos() == old(Pos()) && moveLog == [] && castleRightLog == old(castleRightLog)
      ensures old(moveLog) != [] ==>
                && moveLog == old(moveLog)[..|old(moveLog)| - 1]
                && castleRightLog == old(castleRightLog)[..|old(moveLog)|]
                && Pos() == UndoPosition(old(Pos()), old(moveLog)[|old(moveLog)| - 1],
                                         old(castleRightLog)[|old(moveLog)| - 1])
      ensures checkMate == old(checkMate) && staleMate == old(staleMate)
    {
      if |moveLog| != 0 {
        var oldMove := moveLog[|moveLog| - 1];
        UndoablePop(moveLog);
        moveLog := moveLog[..|moveLog| - 1];
        UnmoveOnBoard(oldMove);
        TrackKing(oldMove.pieceMoved, oldMove.Start());
        whiteToMove := !whiteToMove;
        RestoreEnPassantTarget(oldMove);
        castleRightLog := castleRightLog[..|castleRightLog| - 1];
        var oldRights := castleRightLog[|castleRightLog| - 1];
        assert CastleRights(oldRights.whiteKingSide, oldRights.blackKingSide,
                            oldRights.whiteQueenSide, oldRights.blackQueenSide) == oldRights;
        currentCastlingRight := CastleRights(oldRights.whiteKingSide, oldRights.blackKingSide,
                                             oldRights.whiteQueenSide, oldRights.blackQueenSide);
      }
    }

    /** The board writes of `undoMove`. */
    method UnmoveOnBoard(oldMove: Move)
      requires board.Length == 64 && CastleInBounds(oldMove)
      modifies board
      ensures board[..] == UnmovedBoard(old(board[..]), oldMove)
    {
      ghost var b0 := board[..];
      Put(Idx(oldMove.startRow, oldMove.startCol), oldMove.pieceMoved);
      Put(Idx(oldMove.endRow, oldMove.endCol), oldMove.pieceCaptured);
      ghost var b1 := board[..];
      assert b1 == b0[Idx(oldMove.startRow, oldMove.startCol) := oldMove.pieceMoved][Idx(oldMove.endRow, oldMove.endCol) := oldMove.pieceCaptured];
      if oldMove.isEnPassant {
        Put(Idx(oldMove.endRow, oldMove.endCol), Empty);
        Put(Idx(oldMove.startRow, oldMove.endCol), oldMove.pieceCaptured);
      }
      ghost var b2 := board[..];
      assert b2 == if oldMove.isEnPassant then b1[Idx(oldMove.endRow, oldMove.endCol) := Empty][Idx(oldMove.startRow, oldMove.endCol) := oldMove.pieceCaptured] else b1;
      if oldMove.isCastleMove {
        if oldMove.endCol - oldMove.startCol == 2 {
          Put(Idx(oldMove.endRow, oldMove.endCol + 1), board[Idx(oldMove.endRow, oldMove.endCol - 1)]);
          Put(Idx(oldMove.endRow, oldMove.endCol - 1), Empty);
        } else {
          Put(Idx(oldMove.endRow, oldMove.endCol - 2), board[Idx(oldMove.endRow, oldMove.endCol + 1)]);
          Put(Idx(oldMove.endRow, oldMove.endCol + 1), Empty);
        }
        assert board[..] == UncastleRook(b2, oldMove);
      }
    }

    /** `getPawnMoves` for the pawn on (row, col): appends its moves to `moves`. A white
        pawn needs a row in front of it (row >= 1), a black pawn likewise (row <= 6).
        The code spells out the two colours separately; here the row ahead and the
        enemy colour are computed once. */
    method GetPawnMoves(row: Index, col: Index, moves: seq<Move>) returns (result: seq<Move>)
      requires board.Length == 64
      requires whiteToMove ==> row >= 1
      requires !whiteToMove ==> row <= 6
      ensures result == moves + PawnMoves(board[..], whiteToMove, enpassantPossible, row, col)
    {
      var b := board[..];
      var from := Coord(row, col);
      var ahead: Index := if whiteToMove then row - 1 else row + 1;
      var enemy := if whiteToMove then Black else White;
      result := moves;
      if board[Idx(ahead, col)] == Empty {
        result := result + [NewMove(from, Coord(ahead, col), b, false, false)];
        if whiteToMove && row == 6 && board[Idx(row - 2, col)] == Empty {
          result := result + [NewMove(from, Coord(row - 2, col), b, false, false)];
        } else if !whiteToMove && row == 1 && board[Idx(row + 2, col)] == Empty {
          result := result + [NewMove(from, Coord(row + 2, col), b, false, false)];
        }
      }
      ghost var pushes := PawnPushes(b, whiteToMove, row, col);
      assert result == moves + pushes;
      ghost var mid := result;
      if col - 1 >= 0 {
        result := AppendPawnDiagonal(from, ahead, col - 1, enemy, result);
      }
      ghost var left := PawnLeft(b, whiteToMove, enpassantPossible, row, col);
      assert result == mid + left;
      ghost var mid2 := result;
      if col + 1 <= 7 {
        result := AppendPawnDiagonal(from, ahead, col + 1, enemy, result);
      }
      ghost var right := PawnRight(b, whiteToMove, enpassantPossible, row, col);
      assert result == mid2 + right;
      AppendAssoc(moves, pushes, left);
      AppendAssoc(moves, pushes + left, right);
    }

    /** One diagonal of `getPawnMoves`: a capture when (r, c) holds an enemy piece, else an
        en-passant capture when (r, c) is the target. */
    method AppendPawnDiagonal(from: Coord, r: Index, c: Index, enemy: Color, moves: seq<Move>) returns (result: seq<Move>)
      requires board.Length == 64
      ensures result == moves + PawnDiagonal(board[..], enemy, enpassantPossible, from, r, c)
    {
      result := moves;
      if HasColor(board[Idx(r, c)], enemy) {
        result := result + [NewMove(from, Coord(r, c), board[..], false, false)];
      } else if enpassantPossible == Some(Coord(r, c)) {
        result := result + [NewMove(from, Coord(r, c), board[..], true, false)];
      }
    }

    /** One `while` loop of `getRookMoves`, or one direction of `getBishopMoves`: walks
        from the square next to (row, col) in direction (dr, dc), appending each empty
        square, then the first occupied one if it holds an enemy, and stops there. */
    method AppendRay(row: Index, col: Index, dr: int, dc: int, moves: seq<Move>) returns (result: seq<Move>)
      requires board.Length == 64 && IsDirection(dr, dc)
      ensures result == moves + RayMoves(board[..], SideColor(whiteToMove), Coord(row, col), dr, dc)
    {
      var b := board[..];
      var us := SideColor(whiteToMove);
      var from := Coord(row, col);
      var r, c := row + dr, col + dc;
      result := moves;
      while OnBoard(r, c)
        invariant result + Ray(b, us, from, r, c, dr, dc) == moves + RayMoves(b, us, from, dr, dc)
        decreases RayBudget(r, c, dr, dc)
      {
        var s := board[Idx(r, c)];
        if HasColor(s, us.Opponent()) {
          result := result + [NewMove(from, Coord(r, c), b, false, false)];
          break;
        } else if HasColor(s, us) {
          break;
        } else {
          result := result + [NewMove(from, Coord(r, c), b, false, false)];
        }
        r, c := r + dr, c + dc;
      }
    }

    /** `getRookMoves`: its four while loops, in the order of the side to move. */
    method GetRookMoves(row: Index, col: Index, moves: seq<Move>) returns (result: seq<Move>)
      requires board.Length == 64
      ensures result == moves + RookMoves(board[..], whiteToMove, Coord(row, col))
    {
      ghost var b, us, from := board[..], SideColor(whiteToMove), Coord(row, col);
      var d := if whiteToMove then 1 else -1;
      // forward, backward, left and right as seen from the side to move
      result := AppendRay(row, col, -d, 0, moves);
      result := AppendRay(row, col, d, 0, result);
      result := AppendRay(row, col, 0, -d, result);
      result := AppendRay(row, col, 0, d, result);
      ghost var r1, r2, r3, r4 := RayMoves(b, us, from, -d, 0), RayMoves(b, us, from, d, 0),
                                  RayMoves(b, us, from, 0, -d), RayMoves(b, us, from, 0, d);
      AppendAssoc(moves, r1, r2);
      AppendAssoc(moves, r1 + r2, r3);
      AppendAssoc(moves, r1 + r2 + r3, r4);
    }

    /** `getBishopMoves`: one ray per entry of its `directions`. */
    method GetBishopMoves(row: Index, col: Index, moves: seq<Move>) returns (result: seq<Move>)
      requires board.Length == 64
      ensures result == moves + BishopMoves(board[..], whiteToMove, Coord(row, col))
    {
      ghost var b, us, from := board[..], SideColor(whiteToMove), Coord(row, col);
      var directions := BishopDirections;
      result := moves;
      var k := 0;
      while k < 4
        invariant 0 <= k <= 4
        invariant result == moves + Rays(b, us, from, directions, k)
      {
        result := AppendRay(row, col, directions[k].0, directions[k].1, result);
        AppendAssoc(moves, Rays(b, us, from, directions, k), RayMoves(b, us, from, directions[k].0, directions[k].1));
        k := k + 1;
      }
    }

    /** `getQueenMoves`: the rook moves, then the bishop moves. */
    method GetQueenMoves(row: Index, col: Index, moves: seq<Move>) returns (result: seq<Move>)
      requires board.Length == 64
      ensures result == moves + QueenMoves(board[..], whiteToMove, Coord(row, col))
    {
      result := GetRookMoves(row, col, moves);
      result := GetBishopMoves(row, col, result);
    }

    /** The `for spot in spots` loop of `getKnightMoves` and `getKingMoves`: each spot on
        the board that does not hold a piece of the side to move. */
    method AppendJumps(row: Index, col: Index, spots: seq<(int, int)>, moves: seq<Move>) returns (result: seq<Move>)
      requires board.Length == 64
      ensures result == moves + Jumps(board[..], SideColor(whiteToMove), Coord(row, col), spots, 0)
    {
      var b := board[..];
      var ally := SideColor(whiteToMove);
      var from := Coord(row, col);
      result := moves;
      var k := 0;
      while k < |spots|
        invariant k <= |spots|
        invariant result + Jumps(b, ally, from, spots, k) == moves + Jumps(b, ally, from, spots, 0)
      {
        var step := VisitSpot(row, col, spots[k]);
        AppendAssoc(result, step, Jumps(b, ally, from, spots, k + 1));
        result := result + step;
        k := k + 1;
      }
    }

    /** One spot of that loop: the move to it, if it is on the board and holds no piece
        of the side to move. */
    method VisitSpot(row: Index, col: Index, spot: (int, int)) returns (step: seq<Move>)
      requires board.Length == 64
      ensures step == JumpTo(board[..], SideColor(whiteToMove), Coord(row, col), spot)
    {
      var r, c := row + spot.0, col + spot.1;
      step := [];
      if 0 <= r < 8 && 0 <= c < 8 {
        if !HasColor(board[Idx(r, c)], SideColor(whiteToMove)) {
          step := [NewMove(Coord(row, col), Coord(r, c), board[..], false, false)];
        }
      }
    }

    method GetKnightMoves(row: Index, col: Index, moves: seq<Move>) returns (result: seq<Move>)
      requires board.Length == 64
      ensures result == moves + KnightMoves(board[..], whiteToMove, Coord(row, col))
    {
      result := AppendJumps(row, col, KnightOffsets, moves);
    }

    method GetKingMoves(row: Index, col: Index, moves: seq<Move>) returns (result: seq<Move>)
      requires board.Length == 64
      ensures result == moves + KingMoves(board[..], whiteToMove, Coord(row, col))
    {
      result := AppendJumps(row, col, KingOffsets, moves);
    }

    /** The `moveFunctions` dispatch of `getAllMoves` for the square (row, col). */
    method CallMoveFunction(row: Index, col: Index, moves: seq<Move>) returns (result: seq<Move>)
      requires board.Length == 64 && PawnsInRange(board[..])
      ensures result == moves + PieceMoves(board[..], whiteToMove, enpassantPossible, row, col)
    {
      var square := board[Idx(row, col)];
      result := moves;
      if HasColor(square, SideColor(whiteToMove)) {
        PawnRowInRange(board[..], row, col);
        match square.kind
        case Pawn => result := GetPawnMoves(row, col, moves);
        case Rook => result := GetRookMoves(row, col, moves);
        case Knight => result := GetKnightMoves(row, col, moves);
        case Bishop => result := GetBishopMoves(row, col, moves);
        case Queen => result := GetQueenMoves(row, col, moves);
        case King => result := GetKingMoves(row, col, moves);
      }
    }

    /** `getAllMoves`: visits the squares row by row and calls the generator of each
        piece of the side to move. */
    method GetAllMoves() returns (moves: seq<Move>)
      requires board.Length == 64 && PawnsInRange(board[..])
      ensures moves == AllMoves(board[..], whiteToMove, enpassantPossible)
    {
      moves := [];
      for row := 0 to 8
        invariant moves == MovesUpTo(board[..], whiteToMove, enpassantPossible, row)
      {
        moves := VisitRow(row, moves);
      }
    }

    /** The inner loop of `getAllMoves`, over the columns of one row. */
    method VisitRow(row: Index, moves: seq<Move>) returns (result: seq<Move>)
      requires board.Length == 64 && PawnsInRange(board[..])
      ensures result == moves + RowMovesUpTo(board[..], whiteToMove, enpassantPossible, row, 8)
    {
      ghost var b := board[..];
      result := moves;
      var col := 0;
      while col < 8
        invariant 0 <= col <= 8
        invariant result == moves + RowMovesUpTo(b, whiteToMove, enpassantPossible, row, col)
      {
        result := CallMoveFunction(row, col, result);
        AppendAssoc(moves, RowMovesUpTo(b, whiteToMove, enpassantPossible, row, col),
                    PieceMoves(b, whiteToMove, enpassantPossible, row, col));
        col := col + 1;
      }
    }

    /** `underAttack`: hands the turn to the opponent, generates its pseudo-legal moves,
        hands the turn back and looks for one that ends on (r, c). */
    method UnderAttack(r: Index, c: Index) returns (attacked: bool)
      requires board.Length == 64 && PawnsInRange(board[..])
      modifies this`whiteToMove
      ensures whiteToMove == old(whiteToMove)
      ensures attacked == Attacked(board[..], !whiteToMove, enpassantPossible, Coord(r, c))
    {
      whiteToMove := !whiteToMove;
      var oppMoves := GetAllMoves();
      whiteToMove := !whiteToMove;
      attacked := AnyEndsOn(oppMoves, r, c);
    }

    /** `inCheck`: the cached king square of the side to move is under attack. */
    method InCheck() returns (check: bool)
      requires board.Length == 64 && PawnsInRange(board[..])
      modifies this`whiteToMove
      ensures whiteToMove == old(whiteToMove)
      ensures check == Attacked(board[..], !whiteToMove, enpassantPossible,
                                if whiteToMove then wKingLoc else bKingLoc)
    {
      if whiteToMove {
        check := UnderAttack(wKingLoc.row, wKingLoc.col);
      } else {
        check := UnderAttack(bKingLoc.row, bKingLoc.col);
      }
    }

    /** `getKingSideCastleMoves`. */
    method GetKingSideCastleMoves(row: Index, col: Index, moves: seq<Move>) returns (result: seq<Move>)
      requires Valid() && PawnsInRange(board[..]) && col <= 5
      modifies this`whiteToMove
      ensures whiteToMove == old(whiteToMove)
      ensures result == moves + KingSideCastle(Pos(), row, col)
    {
      result := moves;
      if board[Idx(row, col + 1)] == Empty && board[Idx(row, col + 2)] == Empty {
        var first := UnderAttack(row, col + 1);
        if !first {
          var second := UnderAttack(row, col + 2);
          if !second {
            result := result + [NewMove(Coord(row, col), Coord(row, col + 2), board[..], false, true)];
          }
        }
      }
    }

    /** `getQueenSideCastleMoves`. */
    method GetQueenSideCastleMoves(row: Index, col: Index, moves: seq<Move>) returns (result: seq<Move>)
      requires Valid() && PawnsInRange(board[..]) && col >= 3
      modifies this`whiteToMove
      ensures whiteToMove == old(whiteToMove)
      ensures result == moves + QueenSideCastle(Pos(), row, col)
    {
      result := moves;
      if board[Idx(row, col - 1)] == Empty && board[Idx(row, col - 2)] == Empty && board[Idx(row, col - 3)] == Empty {
        var first := UnderAttack(row, col - 1);
        if !first {
          var second := UnderAttack(row, col - 2);
          if !second {
            result := result + [NewMove(Coord(row, col), Coord(row, col - 2), board[..], false, true)];
          }
        }
      }
    }

    /** `getCastleMoves` for the king on (row, col). */
    method GetCastleMoves(row: Index, col: Index, moves: seq<Move>) returns (result: seq<Move>)
      requires Valid() && PawnsInRange(board[..]) && CastleReadable(Pos(), col)
      modifies this`whiteToMove
      ensures whiteToMove == old(whiteToMove)
      ensures result == moves + CastleMoves(Pos(), row, col)
    {
      ghost var p := Pos();
      result := moves;
      var check := UnderAttack(row, col);
      if check {
        return;
      }
      if (whiteToMove && currentCastlingRight.whiteKingSide) || (!whiteToMove && currentCastlingRight.blackKingSide) {
        result := GetKingSideCastleMoves(row, col, result);
      }
      ghost var kings := if KingSideRight(p) then KingSideCastle(p, row, col) else [];
      ghost var queens := if QueenSideRight(p) then QueenSideCastle(p, row, col) else [];
      assert result == moves + kings;
      if (whiteToMove && currentCastlingRight.whiteQueenSide) || (!whiteToMove && currentCastlingRight.blackQueenSide) {
        result := GetQueenSideCastleMoves(row, col, result);
      }
      AppendAssoc(moves, kings, queens);
    }

    /** One pass of the loop of `getValidMoves`: make the move, hand the turn back to the
        mover, ask `inCheck`, hand the turn on again and undo the move. Everything comes
        back except the en-passant target. */
    method TestMove(move: Move) returns (leaves: bool)
      requires Valid() && PawnsInRange(board[..]) && Fits(Pos(), move)
      modifies this, board
      ensures Valid() && board == old(board)
      ensures Pos() == old(Pos()).(enpassantPossible := if move.isEnPassant then Some(move.End()) else None)
      ensures leaves == LeavesInCheck(old(Pos()), move)
      ensures moveLog == old(moveLog) && castleRightLog == old(castleRightLog)
      ensures checkMate == old(checkMate) && staleMate == old(staleMate)
    {
      ghost var p := Pos();
      MakeMove(move);
      MovedPawnsInRange(p.board, move);
      whiteToMove := !whiteToMove;
      leaves := InCheck();
      whiteToMove := !whiteToMove;
      assert moveLog[|moveLog| - 1] == move && castleRightLog[|moveLog| - 1] == p.castleRights;
      UndoMove();
      assert moveLog == old(moveLog);
      UndoAfterApply(p, move);
    }

    /** The loop of `getValidMoves` over `moves`, from the back: each move that leaves
        the mover in check is removed with `list.remove`. The position p is the state
        apart from the en-passant target, which each pass may change. */
    method RemoveIllegal(ghost p: Position, cands: seq<Move>) returns (moves: seq<Move>)
      requires Valid() && PawnsInRange(p.board) && Pos() == p.(enpassantPossible := enpassantPossible)
      requires forall x | x in cands :: Fits(p, x)
      requires AtSq(p.board, p.KingLoc(p.whiteToMove)).Piece?
      requires enpassantPossible != Some(p.KingLoc(p.whiteToMove))
      modifies this, board
      ensures Valid() && board == old(board)
      ensures moves == BackFilter(Verdict(p), cands, |cands|)
      ensures Pos() == p.(enpassantPossible := enpassantPossible)
      ensures enpassantPossible != Some(p.KingLoc(p.whiteToMove))
      ensures moveLog == old(moveLog) && castleRightLog == old(castleRightLog)
      ensures checkMate == old(checkMate) && staleMate == old(staleMate)
    {
      moves := cands;
      var i := |moves|;
      while i > 0
        invariant Valid() && board == old(board)
        invariant 0 <= i <= |moves|
        invariant BackFilter(Verdict(p), moves, i) == BackFilter(Verdict(p), cands, |cands|)
        invariant forall x | x in moves :: Fits(p, x)
        invariant Pos() == p.(enpassantPossible := enpassantPossible)
        invariant enpassantPossible != Some(p.KingLoc(p.whiteToMove))
        invariant moveLog == old(moveLog) && castleRightLog == old(castleRightLog)
        invariant checkMate == old(checkMate) && staleMate == old(staleMate)
      {
        moves := VisitCandidate(p, moves, i);
        i := i - 1;
      }
    }

    /** One pass of that loop, on `moves[i - 1]`. */
    method VisitCandidate(ghost p: Position, moves: seq<Move>, i: nat) returns (next: seq<Move>)
      requires Valid() && PawnsInRange(p.board) && Pos() == p.(enpassantPossible := enpassantPossible)
      requires 0 < i <= |moves| && forall x | x in moves :: Fits(p, x)
      requires AtSq(p.board, p.KingLoc(p.whiteToMove)).Piece?
      modifies this, board
      ensures Valid() && board == old(board)
      ensures i - 1 <= |next| && BackFilter(Verdict(p), next, i - 1) == BackFilter(Verdict(p), moves, i)
      ensures forall x | x in next :: Fits(p, x)
      ensures Pos() == p.(enpassantPossible := enpassantPossible)
      ensures enpassantPossible != Some(p.KingLoc(p.whiteToMove))
      ensures moveLog == old(moveLog) && castleRightLog == old(castleRightLog)
      ensures checkMate == old(checkMate) && staleMate == old(staleMate)
    {
      var move := moves[i - 1];
      assert move in moves;
      var leaves := TestMove(move);
      LeavesInCheckIgnoresTarget(p, old(enpassantPossible), move);
      next := moves;
      if leaves {
        RemoveFirstMembers(moves, move);
        next := RemoveFirst(moves, move);
      }
    }

    /** `getValidMoves`: the candidates, filtered from the back by making each move and
        asking whether the mover is then in check; then the mate flags, and the saved
        en-passant target and rights are put back. */
    method GetValidMoves() returns (moves: seq<Move>)
      requires Valid() && Wellformed(Pos())
      modifies this, board
      ensures Valid() && board == old(board)
      ensures Pos() == old(Pos())
      ensures moveLog == old(moveLog) && castleRightLog == old(castleRightLog)
      ensures moves == ValidMoves(old(Pos()))
      ensures moves == [] && Legality.InCheck(old(Pos())) ==> checkMate && staleMate == old(staleMate)
      ensures moves == [] && !Legality.InCheck(old(Pos())) ==> staleMate && checkMate == old(checkMate)
      ensures moves != [] ==> !checkMate && !staleMate
    {
      ghost var p := Pos();
      var tempEnPassantPossible := enpassantPossible;
      var rights := currentCastlingRight;
      var tempCastleRights := CastleRights(rights.whiteKingSide, rights.blackKingSide,
                                           rights.whiteQueenSide, rights.blackQueenSide);
      moves := FilteredCandidates(p);
      SetMateFlags(p, |moves| == 0, tempEnPassantPossible, tempCastleRights);
    }

    /** The first part of `getValidMoves`: the candidates and the loop that removes the
        moves leaving the mover in check. Only the en-passant target is left changed. */
    method FilteredCandidates(ghost p: Position) returns (moves: seq<Move>)
      requires Valid() && Wellformed(Pos()) && p == Pos()
      modifies this, board
      ensures Valid() && board == old(board)
      ensures Pos() == p.(enpassantPossible := enpassantPossible)
      ensures enpassantPossible != Some(p.KingLoc(p.whiteToMove))
      ensures moveLog == old(moveLog) && castleRightLog == old(castleRightLog)
      ensures checkMate == old(checkMate) && staleMate == old(staleMate)
      ensures moves == ValidMoves(p)
    {
      moves := GetCandidates();
      moves := RemoveIllegal(p, moves);
    }

    /** The list `getValidMoves` builds before its loop: `getAllMoves`, then
        `getCastleMoves` for the king of the side to move. */
    method GetCandidates() returns (moves: seq<Move>)
      requires Valid() && Wellformed(Pos())
      modifies this`whiteToMove
      ensures whiteToMove == old(whiteToMove)
      ensures CastleReadable(Pos(), Pos().KingLoc(whiteToMove).col)
      ensures moves == Candidates(Pos())
      ensures forall x | x in moves :: Fits(Pos(), x)
      ensures BackFilter(Verdict(Pos()), moves, |moves|) == ValidMoves(Pos())
      ensures enpassantPossible != Some(Pos().KingLoc(whiteToMove))
      ensures AtSq(board[..], Pos().KingLoc(whiteToMove)).Piece?
    {
      ValidMovesByLoop(Pos());
      moves := GetAllMoves();
      if whiteToMove {
        moves := GetCastleMoves(wKingLoc.row, wKingLoc.col, moves);
      } else {
        moves := GetCastleMoves(bKingLoc.row, bKingLoc.col, moves);
      }
    }

    /** The end of `getValidMoves`: with no moves left, `checkMate` is set when the mover
        is in check and `staleMate` otherwise; with moves left both are cleared. Then the
        saved en-passant target and rights are put back. */
    method SetMateFlags(ghost p: Position, noMoves: bool, tempEnPassantPossible: Option<Coord>,
                        tempCastleRights: CastleRights)
      requires Valid() && PawnsInRange(p.board) && Pos() == p.(enpassantPossible := enpassantPossible)
      requires enpassantPossible != Some(p.KingLoc(p.whiteToMove))
      requires p.enpassantPossible != Some(p.KingLoc(p.whiteToMove))
      requires tempEnPassantPossible == p.enpassantPossible && tempCastleRights == p.castleRights
      modifies this`whiteToMove, this`checkMate, this`staleMate, this`enpassantPossible, this`currentCastlingRight
      ensures Valid() && Pos() == p
      ensures noMoves && Legality.InCheck(p) ==> checkMate && staleMate == old(staleMate)
      ensures noMoves && !Legality.InCheck(p) ==> staleMate && checkMate == old(checkMate)
      ensures !noMoves ==> !checkMate && !staleMate
    {
      if noMoves {
        var check := InCheck();
        AttackedIgnoresTarget(p.board, !p.whiteToMove, enpassantPossible, p.enpassantPossible, p.KingLoc(p.whiteToMove));
        if check {
          checkMate := true;
        } else {
          staleMate := true;
        }
      } else {
        checkMate := false;
        staleMate := false;
      }
      enpassantPossible := tempEnPassantPossible;
      currentCastlingRight := tempCastleRights;
    }

    /** One cell write, `board[r][c] = s`. */
    method Put(i: nat, s: Square)
      requires board.Length == 64 && i < 64
      modifies board
      ensures board[..] == old(board[..])[i := s]
    {
      board[i] := s;
    }

    /** `updateCastleRights`: clears the rights that the move forfeits, field by field. */
    method UpdateCastleRights(move: Move)
      modifies this`currentCastlingRight
      ensures currentCastlingRight == UpdatedRights(old(currentCastlingRight), move)
    {
      if move.pieceMoved == Piece(White, King) {
        currentCastlingRight := currentCastlingRight.(whiteKingSide := false);
        currentCastlingRight := currentCastlingRight.(whiteQueenSide := false);
      } else if move.pieceMoved == Piece(Black, King) {
        currentCastlingRight := currentCastlingRight.(blackKingSide := false);
        currentCastlingRight := currentCastlingRight.(blackQueenSide := false);
      } else if move.pieceMoved == Piece(White, Rook) {
        if move.startRow == 7 {
          if move.startCol == 0 {
            currentCastlingRight := currentCastlingRight.(whiteQueenSide := false);
          } else if move.startCol == 7 {
            currentCastlingRight := currentCastlingRight.(whiteKingSide := false);
          }
        }
      } else if move.pieceMoved == Piece(Black, Rook) {
        if move.startRow == 0 {
          if move.startCol == 0 {
            currentCastlingRight := currentCastlingRight.(blackQueenSide := false);
          } else if move.startCol == 7 {
            currentCastlingRight := currentCastlingRight.(blackKingSide := false);
          }
        }
      }
    }
  }
}
