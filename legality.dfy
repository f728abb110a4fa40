/** Castling, the in-check filter and the final move list of `getValidMoves`
    (Chess/ChessEngine.py), as functions of a `Position`. */
module Legality {
  import opened Pieces
  import opened Moves
  import opened Position
  import opened Generation

  /** The side to move still has its king-side right. */
  predicate KingSideRight(p: Position)
  {
    if p.whiteToMove then p.castleRights.whiteKingSide else p.castleRights.blackKingSide
  }

  /** The side to move still has its queen-side right. */
  predicate QueenSideRight(p: Position)
  {
    if p.whiteToMove then p.castleRights.whiteQueenSide else p.castleRights.blackQueenSide
  }

  /** The opponent of the side to move attacks t, as `underAttack` tests it: the
      opponent's pseudo-legal moves are generated with the current en-passant target. */
  predicate Threatened(p: Position, t: Coord)
    requires PawnsInRange(p.board)
  {
    Attacked(p.board, !p.whiteToMove, p.enpassantPossible, t)
  }

  /** `getKingSideCastleMoves`: both squares right of the king are empty and neither is
      attacked. */
  function KingSideCastle(p: Position, row: Index, col: Index): seq<Move>
    requires PawnsInRange(p.board) && col <= 5
  {
    var b := p.board;
    if At(b, row, col + 1) == Empty && At(b, row, col + 2) == Empty &&
       !Threatened(p, Coord(row, col + 1)) && !Threatened(p, Coord(row, col + 2))
    then [NewMove(Coord(row, col), Coord(row, col + 2), b, false, true)]
    else []
  }

  /** `getQueenSideCastleMoves`: the three squares left of the king are empty and the two
      next to it are not attacked; the third square's safety is not checked. */
  function QueenSideCastle(p: Position, row: Index, col: Index): seq<Move>
    requires PawnsInRange(p.board) && col >= 3
  {
    var b := p.board;
    if At(b, row, col - 1) == Empty && At(b, row, col - 2) == Empty && At(b, row, col - 3) == Empty &&
       !Threatened(p, Coord(row, col - 1)) && !Threatened(p, Coord(row, col - 2))
    then [NewMove(Coord(row, col), Coord(row, col - 2), b, false, true)]
    else []
  }

  /** The squares `getCastleMoves` reads lie on the board: columns col + 1 and col + 2
      when the king-side right is set, col - 1 down to col - 3 when the queen-side is. */
  predicate CastleReadable(p: Position, col: Index)
  {
    (KingSideRight(p) ==> col <= 5) && (QueenSideRight(p) ==> col >= 3)
  }

  /** `getCastleMoves` for the king on (row, col): nothing when it is in check, then the
      king-side castle when that right is held, then the queen-side castle. */
  function CastleMoves(p: Position, row: Index, col: Index): seq<Move>
    requires PawnsInRange(p.board) && CastleReadable(p, col)
  {
    if Threatened(p, Coord(row, col)) then []
    else
      (if KingSideRight(p) then KingSideCastle(p, row, col) else []) +
      (if QueenSideRight(p) then QueenSideCastle(p, row, col) else [])
  }

  /** The castles `getCastleMoves` offers the king on (row, col): none while that square
      is attacked; king-side, with the right held, both squares to the right empty and
      neither attacked; queen-side, with the right held, the three squares to the left
      empty and the two nearest not attacked. */
  predicate CastleOffer(p: Position, row: Index, col: Index, m: Move)
    requires PawnsInRange(p.board) && CastleReadable(p, col)
  {
    var b := p.board;
    && !Threatened(p, Coord(row, col))
    && ((&& KingSideRight(p)
         && At(b, row, col + 1) == Empty && At(b, row, col + 2) == Empty
         && !Threatened(p, Coord(row, col + 1)) && !Threatened(p, Coord(row, col + 2))
         && m == NewMove(Coord(row, col), Coord(row, col + 2), b, false, true))
        || (&& QueenSideRight(p)
            && At(b, row, col - 1) == Empty && At(b, row, col - 2) == Empty && At(b, row, col - 3) == Empty
            && !Threatened(p, Coord(row, col - 1)) && !Threatened(p, Coord(row, col - 2))
            && m == NewMove(Coord(row, col), Coord(row, col - 2), b, false, true)))
  }

  /** A move is among the castle moves exactly when it is one of the castles offered. */
  lemma CastleMovesOffered(p: Position, row: Index, col: Index, m: Move)
    requires PawnsInRange(p.board) && CastleReadable(p, col)
    ensures m in CastleMoves(p, row, col) <==> CastleOffer(p, row, col, m)
  {
  }

  /** The list `getValidMoves` starts from: every pseudo-legal move, then the castle
      moves of the king on its cached square. */
  function Candidates(p: Position): seq<Move>
    requires PawnsInRange(p.board) && CastleReadable(p, p.KingLoc(p.whiteToMove).col)
  {
    var k := p.KingLoc(p.whiteToMove);
    AllMoves(p.board, p.whiteToMove, p.enpassantPossible) + CastleMoves(p, k.row, k.col)
  }

  /** `makeMove` sends a pawn that reaches the far row up as a queen, so pawns stay off
      the far rows; the castle rook copy stays within one row. */
  lemma MovedPawnsInRange(b: Board, m: Move)
    requires PawnsInRange(b) && CastleInBounds(m)
    ensures PawnsInRange(MovedBoard(b, m))
  {
    var b1 := b[Idx(m.startRow, m.startCol) := Empty][Idx(m.endRow, m.endCol) := m.pieceMoved];
    var b2 := if m.IsPawnPromo() then b1[Idx(m.endRow, m.endCol) := Piece(m.pieceMoved.color, Queen)] else b1;
    var b3 := if m.isEnPassant then b2[Idx(m.startRow, m.endCol) := Empty] else b2;
    assert PawnsInRange(b2);
    assert PawnsInRange(b3);
    if m.isCastleMove {
      var b4 := CastleRook(b3, m);
      forall i | 0 <= i < 64
        ensures (b4[i] == Piece(White, Pawn) ==> i >= 8) && (b4[i] == Piece(Black, Pawn) ==> i < 56)
      {
        if m.endCol - m.startCol == 2 {
          assert b3[Idx(m.endRow, m.endCol + 1)] == At(b3, m.endRow, m.endCol + 1);
        } else {
          assert b3[Idx(m.endRow, m.endCol - 2)] == At(b3, m.endRow, m.endCol - 2);
        }
      }
    }
  }

  /** The test in the loop of `getValidMoves`: after `makeMove(m)`, with the turn handed
      back to the mover, `inCheck()` finds the mover's king attacked. The en-passant
      target at that moment is the one m sets. */
  predicate LeavesInCheck(p: Position, m: Move)
    requires PawnsInRange(p.board) && CastleInBounds(m)
  {
    MovedPawnsInRange(p.board, m);
    var q := ApplyMove(p, m);
    Attacked(q.board, !p.whiteToMove, q.enpassantPossible, q.KingLoc(p.whiteToMove))
  }

  /** Every move of ms keeps its castle writes on the board. */
  predicate AllCastleInBounds(ms: seq<Move>)
  {
    forall i | 0 <= i < |ms| :: CastleInBounds(ms[i])
  }

  /** The verdict of the loop of `getValidMoves` on m: m leaves the mover in check. */
  predicate Rejected(p: Position, m: Move)
  {
    PawnsInRange(p.board) && CastleInBounds(m) && LeavesInCheck(p, m)
  }

  /** `Rejected` for the position p, as a value to filter with. */
  function Verdict(p: Position): Move -> bool
  {
    m => Rejected(p, m)
  }

  /** The moves of ms that `rejected` does not reject, in their order. */
  function Keep(rejected: Move -> bool, ms: seq<Move>): (r: seq<Move>)
    ensures |r| <= |ms|
  {
    if ms == [] then []
    else (if rejected(ms[0]) then [] else [ms[0]]) + Keep(rejected, ms[1..])
  }

  /** The position of the first element of ms equal to x in the sense of `Move.__eq__`. */
  function FirstEqual(ms: seq<Move>, x: Move): (k: nat)
    requires exists i | 0 <= i < |ms| :: ms[i].Equals(x)
    ensures k < |ms| && ms[k].Equals(x)
    ensures forall j | 0 <= j < k :: !ms[j].Equals(x)
  {
    if ms[0].Equals(x) then 0
    else
      assert exists i | 0 <= i < |ms[1..]| :: ms[1..][i].Equals(x) by {
        var i :| 0 <= i < |ms| && ms[i].Equals(x);
        assert ms[1..][i - 1] == ms[i];
      }
      1 + FirstEqual(ms[1..], x)
  }

  /** `list.remove(x)`: drops the first element equal to x in the sense of `Move.__eq__`.
      The list must hold such an element (otherwise Python raises `ValueError`). */
  function RemoveFirst(ms: seq<Move>, x: Move): (r: seq<Move>)
    requires exists i | 0 <= i < |ms| :: ms[i].Equals(x)
    ensures r == ms[..FirstEqual(ms, x)] + ms[FirstEqual(ms, x) + 1..]
  {
    var k := FirstEqual(ms, x);
    ms[..k] + ms[k + 1..]
  }

  /** The loop of `getValidMoves` over the indices i - 1 down to 0 of the list ms: each
      move that `rejected` rejects is removed with `list.remove`. */
  function BackFilter(rejected: Move -> bool, ms: seq<Move>, i: nat): seq<Move>
    requires i <= |ms|
    decreases i
  {
    if i == 0 then ms
    else
      var m := ms[i - 1];
      if rejected(m) then
        assert ms[i - 1].Equals(m);
        BackFilter(rejected, RemoveFirst(ms, m), i - 1)
      else BackFilter(rejected, ms, i - 1)
  }

  /** The side to move is in check, as `inCheck` tests it. */
  predicate InCheck(p: Position)
    requires PawnsInRange(p.board)
  {
    Threatened(p, p.KingLoc(p.whiteToMove))
  }

  /** Each side has exactly one king and it stands on that side's cached square. */
  predicate KingsCached(p: Position)
  {
    forall i | 0 <= i < 64 ::
      && (p.board[i] == Piece(White, King) <==> i == Idx(p.wKingLoc.row, p.wKingLoc.col))
      && (p.board[i] == Piece(Black, King) <==> i == Idx(p.bKingLoc.row, p.bKingLoc.col))
  }

  /** An en-passant target is the empty square a pawn of the side not to move has just
      skipped, with that pawn right behind it. */
  predicate TargetConsistent(p: Position)
  {
    p.enpassantPossible.Some? ==>
      var e := p.enpassantPossible.value;
      && AtSq(p.board, e) == Empty
      && if p.whiteToMove then e.row == 2 && At(p.board, 3, e.col) == Piece(Black, Pawn)
         else e.row == 5 && At(p.board, 4, e.col) == Piece(White, Pawn)
  }

  /** A side that still holds a castling right has its king on its home square. */
  predicate CastleHome(p: Position)
  {
    && (p.castleRights.whiteKingSide || p.castleRights.whiteQueenSide ==> p.wKingLoc == Coord(7, 4))
    && (p.castleRights.blackKingSide || p.castleRights.blackQueenSide ==> p.bKingLoc == Coord(0, 4))
  }

  /** What the game's positions keep and the move generators rely on. */
  predicate Wellformed(p: Position)
  {
    PawnsInRange(p.board) && KingsCached(p) && TargetConsistent(p) && CastleHome(p)
  }

  /** `getValidMoves`: the candidates that do not leave the mover in check. */
  function ValidMoves(p: Position): seq<Move>
    requires Wellformed(p)
  {
    CandidatesFit(p);
    Keep(Verdict(p), Candidates(p))
  }

  /** The king of the side to move stands on its cached square. */
  lemma KingOnCachedSquare(p: Position)
    requires KingsCached(p)
    ensures AtSq(p.board, p.KingLoc(p.whiteToMove)) == Piece(SideColor(p.whiteToMove), King)
  {
    var k := p.KingLoc(p.whiteToMove);
    assert p.board[Idx(k.row, k.col)] == AtSq(p.board, k);
  }

  /** A generated move of the side to move meets everything the make/undo round trip
      needs, given the invariants of the position. */
  lemma GeneratedFits(p: Position, m: Move)
    requires Wellformed(p) && Generated(p.board, p.whiteToMove, p.enpassantPossible, m)
    ensures Fits(p, m)
  {
    assert p.board[Idx(m.startRow, m.startCol)] == AtSq(p.board, m.Start());
    if m.isEnPassant {
      assert At(p.board, m.startRow, m.endCol) == m.pieceCaptured;
    }
  }

  /** A castle move of the king on k: two columns along its row onto an empty square,
      fitting the make/undo round trip. */
  predicate CastleStep(p: Position, k: Coord, m: Move)
  {
    && m.Start() == k && m.endRow == k.row && Abs(m.endCol - k.col) == 2
    && m.isCastleMove && Fits(p, m) && AtSq(p.board, m.End()) == Empty
  }

  /** The king-side castle of a well-formed position moves the king from its home
      square two columns to the right and fits the round trip. */
  lemma KingSideSound(p: Position)
    requires Wellformed(p) && KingSideRight(p)
    ensures var k := p.KingLoc(p.whiteToMove);
            var cs := KingSideCastle(p, k.row, k.col);
            && |cs| <= 1
            && (|cs| == 1 <==>
                  && At(p.board, k.row, k.col + 1) == Empty && At(p.board, k.row, k.col + 2) == Empty
                  && !Threatened(p, Coord(k.row, k.col + 1)) && !Threatened(p, Coord(k.row, k.col + 2)))
            && forall i | 0 <= i < |cs| :: cs[i].endCol == k.col + 2 && CastleStep(p, k, cs[i])
  {
    KingOnCachedSquare(p);
  }

  /** The queen-side castle of a well-formed position moves the king from its home
      square two columns to the left and fits the round trip. */
  lemma QueenSideSound(p: Position)
    requires Wellformed(p) && QueenSideRight(p)
    ensures var k := p.KingLoc(p.whiteToMove);
            var cs := QueenSideCastle(p, k.row, k.col);
            && |cs| <= 1
            && (|cs| == 1 <==>
                  && At(p.board, k.row, k.col - 1) == Empty && At(p.board, k.row, k.col - 2) == Empty
                  && At(p.board, k.row, k.col - 3) == Empty
                  && !Threatened(p, Coord(k.row, k.col - 1)) && !Threatened(p, Coord(k.row, k.col - 2)))
            && forall i | 0 <= i < |cs| :: cs[i].endCol == k.col - 2 && CastleStep(p, k, cs[i])
  {
    KingOnCachedSquare(p);
  }

  /** The castle moves of a well-formed position: king steps of two columns along its row,
      at most one each way, each fitting the round trip. */
  lemma CastleMovesSound(p: Position)
    requires Wellformed(p)
    ensures var k := p.KingLoc(p.whiteToMove);
            var cs := CastleMoves(p, k.row, k.col);
            && DistinctEnds(cs) && (forall i | 0 <= i < |cs| :: CastleStep(p, k, cs[i]))
            && CastleReadable(p, k.col)
            && forall m :: m in cs <==> CastleOffer(p, k.row, k.col, m)
  {
    var k := p.KingLoc(p.whiteToMove);
    KingOnCachedSquare(p);
    assert CastleReadable(p, k.col);
    forall m ensures m in CastleMoves(p, k.row, k.col) <==> CastleOffer(p, k.row, k.col, m) {
      CastleMovesOffered(p, k.row, k.col, m);
    }
    var ks := if KingSideRight(p) then KingSideCastle(p, k.row, k.col) else [];
    var qs := if QueenSideRight(p) then QueenSideCastle(p, k.row, k.col) else [];
    if KingSideRight(p) {
      KingSideSound(p);
    }
    if QueenSideRight(p) {
      QueenSideSound(p);
    }
    if Threatened(p, k) {
      CastlePair(p, k, [], []);
    } else {
      assert CastleMoves(p, k.row, k.col) == ks + qs;
      CastlePair(p, k, ks, qs);
    }
  }

  /** The king-side castle list followed by the queen-side one: they end on different
      squares, so the join has distinct ends and only castle moves. */
  lemma CastlePair(p: Position, k: Coord, ks: seq<Move>, qs: seq<Move>)
    requires |ks| <= 1 && |qs| <= 1
    requires forall i | 0 <= i < |ks| :: ks[i].endCol == k.col + 2 && CastleStep(p, k, ks[i])
    requires forall i | 0 <= i < |qs| :: qs[i].endCol == k.col - 2 && CastleStep(p, k, qs[i])
    ensures DistinctEnds(ks + qs) && forall i | 0 <= i < |ks + qs| :: CastleStep(p, k, (ks + qs)[i])
  {
  }

  /** Every candidate of a well-formed position can be made and undone exactly, and
      castling stays on the board. */
  lemma CandidatesFit(p: Position)
    requires Wellformed(p)
    ensures CastleReadable(p, p.KingLoc(p.whiteToMove).col)
    ensures AllCastleInBounds(Candidates(p))
    ensures forall i | 0 <= i < |Candidates(p)| :: Fits(p, Candidates(p)[i])
  {
    var all := AllMoves(p.board, p.whiteToMove, p.enpassantPossible);
    var k := p.KingLoc(p.whiteToMove);
    var cs := CastleMoves(p, k.row, k.col);
    AllMovesSound(p.board, p.whiteToMove, p.enpassantPossible);
    forall i | 0 <= i < |all| ensures Fits(p, all[i]) {
      GeneratedFits(p, all[i]);
    }
    CastleMovesSound(p);
    assert Candidates(p) == all + cs;
  }

  /** No two candidates of a well-formed position are equal in the sense of
      `Move.__eq__`, so `list.remove` in `getValidMoves` removes exactly the move the loop
      is looking at. */
  lemma CandidatesDistinct(p: Position)
    requires Wellformed(p)
    ensures Distinct(Candidates(p))
  {
    var all := AllMoves(p.board, p.whiteToMove, p.enpassantPossible);
    var k := p.KingLoc(p.whiteToMove);
    var cs := CastleMoves(p, k.row, k.col);
    AllMovesSound(p.board, p.whiteToMove, p.enpassantPossible);
    CastleMovesSound(p);
    KingOnCachedSquare(p);
    assert Candidates(p) == all + cs;
    forall i, j | 0 <= i < |all| && 0 <= j < |cs| ensures !all[i].Equals(cs[j]) {
      if all[i].Start() == k {
        assert Abs(all[i].endCol - k.col) <= 1;
      }
    }
  }

  /** Exactly the moves of ms that are not rejected survive the filter. */
  lemma {:induction false} KeepMembers(rejected: Move -> bool, ms: seq<Move>, x: Move)
    ensures x in Keep(rejected, ms) <==> x in ms && !rejected(x)
  {
    if ms != [] {
      KeepMembers(rejected, ms[1..], x);
      assert ms == [ms[0]] + ms[1..];
    }
  }

  /** Filtering a list with one more move at its end. */
  lemma {:induction false} KeepSnoc(rejected: Move -> bool, xs: seq<Move>, x: Move)
    ensures Keep(rejected, xs + [x]) == Keep(rejected, xs) + (if rejected(x) then [] else [x])
  {
    if xs == [] {
      assert xs + [x] == [x];
    } else {
      var head := if rejected(xs[0]) then [] else [xs[0]];
      assert (xs + [x])[0] == xs[0] && (xs + [x])[1..] == xs[1..] + [x];
      KeepSnoc(rejected, xs[1..], x);
      assert Keep(rejected, xs + [x]) == head + Keep(rejected, xs[1..] + [x]);
      assert Keep(rejected, xs) == head + Keep(rejected, xs[1..]);
    }
  }

  /** When no earlier entry equals the last entry of pre, `list.remove` of that entry
      removes it and nothing else. */
  lemma RemoveAt(pre: seq<Move>, post: seq<Move>)
    requires Distinct(pre) && pre != []
    ensures var ms := pre + post;
            var n := |pre| - 1;
            && ms[n].Equals(pre[n])
            && RemoveFirst(ms, pre[n]) == pre[..n] + post
            && Distinct(pre[..n])
  {
    var ms := pre + post;
    var n := |pre| - 1;
    assert ms[n] == pre[n] && ms[n].Equals(pre[n]);
    assert forall j | 0 <= j < n :: ms[j] == pre[j];
    var k := FirstEqual(ms, pre[n]);
    assert k == n;
    assert ms[..n] + ms[n + 1..] == pre[..n] + post;
  }

  /** One pass of the loop over the last of the first |pre| entries: a rejected entry is
      removed, a kept one stays where it is. */
  lemma BackFilterStep(rejected: Move -> bool, pre: seq<Move>, post: seq<Move>)
    requires Distinct(pre) && pre != []
    ensures var n := |pre| - 1;
            BackFilter(rejected, pre + post, |pre|)
            == BackFilter(rejected, pre[..n] + (if rejected(pre[n]) then post else [pre[n]] + post), n)
  {
    var n := |pre| - 1;
    assert (pre + post)[n] == pre[n];
    RemoveAt(pre, post);
    if !rejected(pre[n]) {
      assert pre + post == pre[..n] + ([pre[n]] + post);
    }
  }

  /** When the first |pre| entries hold no two equal moves, the loop of `getValidMoves`
      run over them removes exactly the rejected ones and keeps the rest in order. */
  lemma {:induction false} BackFilterKeeps(rejected: Move -> bool, pre: seq<Move>, post: seq<Move>)
    requires Distinct(pre)
    ensures BackFilter(rejected, pre + post, |pre|) == Keep(rejected, pre) + post
    decreases |pre|
  {
    if pre == [] {
      assert pre + post == post;
    } else {
      var n := |pre| - 1;
      var m := pre[n];
      var front := pre[..n];
      assert pre == front + [m];
      BackFilterStep(rejected, pre, post);
      KeepSnoc(rejected, front, m);
      RemoveAt(pre, post);
      if rejected(m) {
        BackFilterKeeps(rejected, front, post);
      } else {
        BackFilterKeeps(rejected, front, [m] + post);
        assert Keep(rejected, front) + ([m] + post) == (Keep(rejected, front) + [m]) + post;
      }
    }
  }

  /** `list.remove` only removes: every move it leaves was in the list. */
  lemma RemoveFirstMembers(ms: seq<Move>, x: Move)
    requires exists i | 0 <= i < |ms| :: ms[i].Equals(x)
    ensures forall y | y in RemoveFirst(ms, x) :: y in ms
  {
    var k := FirstEqual(ms, x);
    assert RemoveFirst(ms, x) == ms[..k] + ms[k + 1..];
  }

  /** The in-check test after m does not depend on the en-passant target before m, since
      `makeMove` overwrites it. */
  lemma LeavesInCheckIgnoresTarget(p: Position, e: Option<Coord>, m: Move)
    requires PawnsInRange(p.board) && CastleInBounds(m)
    ensures ApplyMove(p.(enpassantPossible := e), m) == ApplyMove(p, m)
    ensures Rejected(p.(enpassantPossible := e), m) == Rejected(p, m) == LeavesInCheck(p, m)
  {
  }

  /** The loop of `getValidMoves`, run over all the candidates, leaves exactly the valid
      moves. */
  lemma BackFilterCandidates(p: Position)
    requires Wellformed(p)
    ensures CastleReadable(p, p.KingLoc(p.whiteToMove).col)
    ensures BackFilter(Verdict(p), Candidates(p), |Candidates(p)|) == ValidMoves(p)
  {
    CandidatesFit(p);
    CandidatesDistinct(p);
    assert Candidates(p) + [] == Candidates(p);
    BackFilterKeeps(Verdict(p), Candidates(p), []);
  }

  /** What the loop of `getValidMoves` needs of a well-formed position: the candidates
      fit the make/undo round trip, running the loop over them gives the valid moves,
      and the en-passant target is not the mover's king square. */
  lemma ValidMovesByLoop(p: Position)
    requires Wellformed(p)
    ensures CastleReadable(p, p.KingLoc(p.whiteToMove).col)
    ensures forall x | x in Candidates(p) :: Fits(p, x)
    ensures BackFilter(Verdict(p), Candidates(p), |Candidates(p)|) == ValidMoves(p)
    ensures p.enpassantPossible != Some(p.KingLoc(p.whiteToMove))
    ensures AtSq(p.board, p.KingLoc(p.whiteToMove)).Piece?
  {
    CandidatesFit(p);
    BackFilterCandidates(p);
    KingOnCachedSquare(p);
  }

  /** `getValidMoves` keeps a candidate exactly when it does not leave the mover in check. */
  lemma ValidMovesAreSafeCandidates(p: Position, m: Move)
    requires Wellformed(p) && CastleInBounds(m)
    ensures CastleReadable(p, p.KingLoc(p.whiteToMove).col)
    ensures m in ValidMoves(p) <==> m in Candidates(p) && !LeavesInCheck(p, m)
  {
    CandidatesFit(p);
    KeepMembers(Verdict(p), Candidates(p), m);
  }
}
