/** The pseudo-legal move generators of `GameState` (Chess/ChessEngine.py), as functions
    of the board, the side to move and the en-passant target. The loop methods of the
    class in engine.dfy are proved to append exactly these lists. */
module Generation {
  import opened Pieces
  import opened Moves

  /** No white pawn on row 0 and no black pawn on row 7: the pawn generator reads the
      row in front of a pawn, which such a pawn does not have. Promotion keeps it so. */
  predicate PawnsInRange(b: Board)
  {
    forall i | 0 <= i < 64 :: (b[i] == Piece(White, Pawn) ==> i >= 8) && (b[i] == Piece(Black, Pawn) ==> i < 56)
  }

  /** A plain move from `from` to `to`, as `Move(from, to, board)` builds it. */
  function Plain(b: Board, from: Coord, to: Coord): Move
  {
    NewMove(from, to, b, false, false)
  }

  /** A diagonal pawn step onto (r, c): a capture of an enemy piece, otherwise an
      en-passant capture when (r, c) is the target, otherwise nothing. */
  function PawnDiagonal(b: Board, enemy: Color, ep: Option<Coord>, from: Coord, r: Index, c: Index): seq<Move>
  {
    if HasColor(At(b, r, c), enemy) then [Plain(b, from, Coord(r, c))]
    else if ep == Some(Coord(r, c)) then [NewMove(from, Coord(r, c), b, true, false)]
    else []
  }

  /** The straight moves of `getPawnMoves`: one row forward onto an empty square, and
      two rows from the pawn's starting row when both squares are empty. */
  function PawnPushes(b: Board, white: bool, row: Index, col: Index): seq<Move>
    requires white ==> row >= 1
    requires !white ==> row <= 6
  {
    var from := Coord(row, col);
    var ahead: Index := if white then row - 1 else row + 1;
    if At(b, ahead, col) == Empty then
      [Plain(b, from, Coord(ahead, col))] +
      (if white && row == 6 && At(b, row - 2, col) == Empty then [Plain(b, from, Coord(row - 2, col))]
       else if !white && row == 1 && At(b, row + 2, col) == Empty then [Plain(b, from, Coord(row + 2, col))]
       else [])
    else []
  }

  /** The left diagonal of `getPawnMoves`, looked at when there is a column to the left. */
  function PawnLeft(b: Board, white: bool, ep: Option<Coord>, row: Index, col: Index): seq<Move>
    requires white ==> row >= 1
    requires !white ==> row <= 6
  {
    var ahead: Index := if white then row - 1 else row + 1;
    var enemy := if white then Black else White;
    if col - 1 >= 0 then PawnDiagonal(b, enemy, ep, Coord(row, col), ahead, col - 1) else []
  }

  /** The right diagonal of `getPawnMoves`, looked at when there is a column to the right. */
  function PawnRight(b: Board, white: bool, ep: Option<Coord>, row: Index, col: Index): seq<Move>
    requires white ==> row >= 1
    requires !white ==> row <= 6
  {
    var ahead: Index := if white then row - 1 else row + 1;
    var enemy := if white then Black else White;
    if col + 1 <= 7 then PawnDiagonal(b, enemy, ep, Coord(row, col), ahead, col + 1) else []
  }

  /** `getPawnMoves`: the straight moves, then the left and the right diagonal. */
  function PawnMoves(b: Board, white: bool, ep: Option<Coord>, row: Index, col: Index): seq<Move>
    requires white ==> row >= 1
    requires !white ==> row <= 6
  {
    PawnPushes(b, white, row, col) + PawnLeft(b, white, ep, row, col) + PawnRight(b, white, ep, row, col)
  }

  /** (dr, dc) is one of the eight directions of a single step. */
  predicate IsDirection(dr: int, dc: int)
  {
    -1 <= dr <= 1 && -1 <= dc <= 1 && (dr, dc) != (0, 0)
  }

  /** How many more steps in direction (dr, dc) could stay on the board from (r, c). */
  function RayBudget(r: int, c: int, dr: int, dc: int): int
  {
    (if dr > 0 then 8 - r else if dr < 0 then r + 1 else 0) +
    (if dc > 0 then 8 - c else if dc < 0 then c + 1 else 0)
  }

  /** One ray of a sliding piece of colour `us` standing on `from`, starting at the
      square (r, c) and continuing in direction (dr, dc): every empty square, then the
      first occupied square if it holds an enemy piece, and nothing past it. */
  function Ray(b: Board, us: Color, from: Coord, r: int, c: int, dr: int, dc: int): seq<Move>
    requires IsDirection(dr, dc)
    decreases RayBudget(r, c, dr, dc)
  {
    if !OnBoard(r, c) then []
    else if At(b, r, c) == Empty then [Plain(b, from, Coord(r, c))] + Ray(b, us, from, r + dr, c + dc, dr, dc)
    else if At(b, r, c).color != us then [Plain(b, from, Coord(r, c))]
    else []
  }

  /** The ray from `from` itself in direction (dr, dc). */
  function RayMoves(b: Board, us: Color, from: Coord, dr: int, dc: int): seq<Move>
    requires IsDirection(dr, dc)
  {
    Ray(b, us, from, from.row + dr, from.col + dc, dr, dc)
  }

  /** Every entry of ds is a single-step direction. */
  predicate AllDirections(ds: seq<(int, int)>)
  {
    forall i | 0 <= i < |ds| :: IsDirection(ds[i].0, ds[i].1)
  }

  /** The rays of `ds[..k]` from `from`, one after the other. */
  function Rays(b: Board, us: Color, from: Coord, ds: seq<(int, int)>, k: nat): seq<Move>
    requires AllDirections(ds) && k <= |ds|
  {
    if k == 0 then [] else Rays(b, us, from, ds, k - 1) + RayMoves(b, us, from, ds[k - 1].0, ds[k - 1].1)
  }

  /** The `directions` of `getBishopMoves`, in its order. */
  const BishopDirections: seq<(int, int)> := [(-1, -1), (-1, 1), (1, -1), (1, 1)]

  /** `getRookMoves`: its four while loops, one orthogonal ray each; white scans up, down,
      left, right and black scans down, up, right, left (each side's forward, backward,
      left, right). */
  function RookMoves(b: Board, white: bool, from: Coord): seq<Move>
  {
    var us := SideColor(white);
    var d := if white then 1 else -1;
    RayMoves(b, us, from, -d, 0) + RayMoves(b, us, from, d, 0) + RayMoves(b, us, from, 0, -d) + RayMoves(b, us, from, 0, d)
  }

  /** `getBishopMoves`: the four diagonal rays. */
  function BishopMoves(b: Board, white: bool, from: Coord): seq<Move>
  {
    Rays(b, SideColor(white), from, BishopDirections, 4)
  }

  /** `getQueenMoves`: the rook moves followed by the bishop moves. */
  function QueenMoves(b: Board, white: bool, from: Coord): seq<Move>
  {
    RookMoves(b, white, from) + BishopMoves(b, white, from)
  }

  /** The `spots` of `getKnightMoves`, in its order. */
  const KnightOffsets: seq<(int, int)> := [(-2, 1), (-1, 2), (1, 2), (2, 1), (-2, -1), (-1, -2), (1, -2), (2, -1)]
  /** The `spots` of `getKingMoves`, in its order. */
  const KingOffsets: seq<(int, int)> := [(-1, -1), (-1, 0), (-1, 1), (0, -1), (0, 1), (1, -1), (1, 0), (1, 1)]

  /** The loop of `getKnightMoves` and `getKingMoves` over `offsets[k..]`: each spot that
      is on the board and does not hold a piece of colour `us`. */
  function Jumps(b: Board, us: Color, from: Coord, offsets: seq<(int, int)>, k: nat): seq<Move>
    requires k <= |offsets|
    decreases |offsets| - k
  {
    if k == |offsets| then [] else JumpTo(b, us, from, offsets[k]) + Jumps(b, us, from, offsets, k + 1)
  }

  /** One spot of the loop: `from` moved by offset o, if that is on the board and holds
      no piece of colour `us`. */
  function JumpTo(b: Board, us: Color, from: Coord, o: (int, int)): seq<Move>
  {
    var r := from.row + o.0;
    var c := from.col + o.1;
    if OnBoard(r, c) && !HasColor(At(b, r, c), us) then [Plain(b, from, Coord(r, c))] else []
  }

  function KnightMoves(b: Board, white: bool, from: Coord): seq<Move>
  {
    Jumps(b, SideColor(white), from, KnightOffsets, 0)
  }

  function KingMoves(b: Board, white: bool, from: Coord): seq<Move>
  {
    Jumps(b, SideColor(white), from, KingOffsets, 0)
  }

  /** The `moveFunctions` dispatch of `getAllMoves` for one square: the generator of the
      piece standing there if it belongs to the side to move, nothing otherwise. */
  function PieceMoves(b: Board, white: bool, ep: Option<Coord>, row: Index, col: Index): seq<Move>
    requires PawnsInRange(b)
  {
    var s := At(b, row, col);
    if HasColor(s, SideColor(white)) then
      match s.kind
      case Pawn => PawnMoves(b, white, ep, row, col)
      case Rook => RookMoves(b, white, Coord(row, col))
      case Knight => KnightMoves(b, white, Coord(row, col))
      case Bishop => BishopMoves(b, white, Coord(row, col))
      case Queen => QueenMoves(b, white, Coord(row, col))
      case King => KingMoves(b, white, Coord(row, col))
    else []
  }

  /** A pawn of the side to move has a row in front of it. */
  lemma PawnRowInRange(b: Board, row: Index, col: Index)
    requires PawnsInRange(b)
    ensures At(b, row, col) == Piece(White, Pawn) ==> row >= 1
    ensures At(b, row, col) == Piece(Black, Pawn) ==> row <= 6
  {
    assert b[Idx(row, col)] == At(b, row, col);
  }

  /** The inner loop of `getAllMoves` over the first `col` columns of `row`. */
  function RowMovesUpTo(b: Board, white: bool, ep: Option<Coord>, row: Index, col: nat): seq<Move>
    requires PawnsInRange(b) && col <= 8
  {
    if col == 0 then [] else RowMovesUpTo(b, white, ep, row, col - 1) + PieceMoves(b, white, ep, row, col - 1)
  }

  /** `getAllMoves` after visiting the first `row` rows. */
  function MovesUpTo(b: Board, white: bool, ep: Option<Coord>, row: nat): seq<Move>
    requires PawnsInRange(b) && row <= 8
  {
    if row == 0 then [] else MovesUpTo(b, white, ep, row - 1) + RowMovesUpTo(b, white, ep, row - 1, 8)
  }

  /** `getAllMoves`: every pseudo-legal move of the side to move, castling excluded. */
  function AllMoves(b: Board, white: bool, ep: Option<Coord>): seq<Move>
    requires PawnsInRange(b)
  {
    MovesUpTo(b, white, ep, 8)
  }

  /** Some move in ms ends on t. */
  predicate EndsOn(ms: seq<Move>, t: Coord)
  {
    exists i | 0 <= i < |ms| :: ms[i].End() == t
  }

  /** `underAttack`, seen from the side `byWhite`: one of that side's pseudo-legal moves
      ends on t. */
  predicate Attacked(b: Board, byWhite: bool, ep: Option<Coord>, t: Coord)
    requires PawnsInRange(b)
  {
    EndsOn(AllMoves(b, byWhite, ep), t)
  }

  // ---------------------------------------------------------------------------------
  // What the generators guarantee about the moves they produce.

  /** What every pseudo-legal move of side `white` satisfies: it takes a piece of that
      side off a square and puts it on another square that holds no piece of its own
      side; an en-passant capture is a pawn's diagonal step forward onto the target and
      records the opposing pawn as captured; a king steps to a neighbouring square. */
  predicate Generated(b: Board, white: bool, ep: Option<Coord>, m: Move)
  {
    var us := SideColor(white);
    && m.Start() != m.End()
    && m.pieceMoved == AtSq(b, m.Start()) && HasColor(m.pieceMoved, us)
    && !m.isCastleMove
    && (if m.isEnPassant then
          && m.pieceMoved.kind == Pawn
          && ep == Some(m.End())
          && m.endRow == (if white then m.startRow - 1 else m.startRow + 1)
          && Abs(m.startCol - m.endCol) == 1
          && m.pieceCaptured == Piece(us.Opponent(), Pawn)
        else
          m.pieceCaptured == AtSq(b, m.End()) && !HasColor(m.pieceCaptured, us))
    && (m.pieceMoved.kind == King ==> Abs(m.startRow - m.endRow) <= 1 && Abs(m.startCol - m.endCol) <= 1)
  }

  /** No two moves of ms end on the same square. */
  predicate DistinctEnds(ms: seq<Move>)
  {
    forall i, j | 0 <= i < j < |ms| :: ms[i].End() != ms[j].End()
  }

  /** No two moves of ms are equal in the sense of `Move.__eq__`. */
  predicate Distinct(ms: seq<Move>)
  {
    forall i, j | 0 <= i < j < |ms| :: !ms[i].Equals(ms[j])
  }

  predicate AllGenerated(b: Board, white: bool, ep: Option<Coord>, ms: seq<Move>)
  {
    forall i | 0 <= i < |ms| :: Generated(b, white, ep, ms[i])
  }

  /** ms are generated moves of the piece on `from`, each to a different square. */
  predicate FromSquare(b: Board, white: bool, ep: Option<Coord>, from: Coord, ms: seq<Move>)
  {
    && (forall i | 0 <= i < |ms| :: ms[i].Start() == from && Generated(b, white, ep, ms[i]))
    && DistinctEnds(ms)
  }

  lemma FromSquareAppend(b: Board, white: bool, ep: Option<Coord>, from: Coord, xs: seq<Move>, ys: seq<Move>)
    requires FromSquare(b, white, ep, from, xs) && FromSquare(b, white, ep, from, ys)
    requires forall i, j | 0 <= i < |xs| && 0 <= j < |ys| :: xs[i].End() != ys[j].End()
    ensures FromSquare(b, white, ep, from, xs + ys)
  {
  }

  /** A diagonal step of the pawn on `from` onto (r, c): a capture of the enemy piece there,
      or en passant onto the target; it is there exactly when one of those applies. */
  lemma PawnDiagonalSound(b: Board, white: bool, ep: Option<Coord>, from: Coord, r: Index, c: Index)
    requires AtSq(b, from) == Piece(SideColor(white), Pawn)
    requires r == (if white then from.row - 1 else from.row + 1) && Abs(from.col - c) == 1
    ensures var ms := PawnDiagonal(b, SideColor(white).Opponent(), ep, from, r, c);
            && FromSquare(b, white, ep, from, ms)
            && (|ms| > 0 <==> HasColor(At(b, r, c), SideColor(white).Opponent()) || ep == Some(Coord(r, c)))
            && forall i | 0 <= i < |ms| :: ms[i].End() == Coord(r, c) && DiagonalStep(b, white, ep, ms[i])
  {
  }

  /** A straight pawn move: along its column onto an empty square, capturing nothing,
      either one row forward or, from the starting row and over an empty square, two. */
  predicate PushStep(b: Board, white: bool, row: Index, col: Index, m: Move)
  {
    var ahead := if white then row - 1 else row + 1;
    && m.endCol == col && AtSq(b, m.End()) == Empty && m.pieceCaptured == Empty && !m.isEnPassant
    && (m.endRow == ahead ||
        (&& row == (if white then 6 else 1) && m.endRow == (if white then row - 2 else row + 2)
         && OnBoard(ahead, col) && At(b, ahead, col) == Empty))
  }

  /** A diagonal pawn move: one row forward and one column aside, capturing an enemy
      piece standing there, or, en passant, onto the target. */
  predicate DiagonalStep(b: Board, white: bool, ep: Option<Coord>, m: Move)
  {
    && m.endRow == (if white then m.startRow - 1 else m.startRow + 1) && Abs(m.startCol - m.endCol) == 1
    && (if m.isEnPassant then ep == Some(m.End()) && !HasColor(AtSq(b, m.End()), SideColor(white).Opponent())
        else HasColor(m.pieceCaptured, SideColor(white).Opponent()) && m.pieceCaptured == AtSq(b, m.End()))
  }

  /** The straight steps of a pawn go forward along its column onto empty squares; there
      is one exactly when the square in front is empty, and that one comes first. */
  lemma PawnPushesSound(b: Board, white: bool, ep: Option<Coord>, row: Index, col: Index)
    requires At(b, row, col) == Piece(SideColor(white), Pawn)
    requires white ==> row >= 1
    requires !white ==> row <= 6
    ensures var ms := PawnPushes(b, white, row, col);
            var ahead: Index := if white then row - 1 else row + 1;
            && FromSquare(b, white, ep, Coord(row, col), ms)
            && (|ms| > 0 <==> At(b, ahead, col) == Empty)
            && (|ms| > 0 ==> ms[0].endRow == ahead)
            && forall i | 0 <= i < |ms| :: PushStep(b, white, row, col, ms[i])
  {
  }

  /** The left diagonal step of a pawn captures forward, one column to the left: an enemy
      piece there, or the en-passant target. It is there exactly when one of those is. */
  lemma PawnLeftSound(b: Board, white: bool, ep: Option<Coord>, row: Index, col: Index)
    requires At(b, row, col) == Piece(SideColor(white), Pawn)
    requires white ==> row >= 1
    requires !white ==> row <= 6
    ensures var ms := PawnLeft(b, white, ep, row, col);
            && FromSquare(b, white, ep, Coord(row, col), ms)
            && (|ms| > 0 <==>
                  && col - 1 >= 0
                  && (HasColor(At(b, if white then row - 1 else row + 1, col - 1), SideColor(white).Opponent())
                      || ep == Some(Coord(if white then row - 1 else row + 1, col - 1))))
            && forall i | 0 <= i < |ms| ::
                 ms[i].endCol == col - 1 && ms[i].endRow == (if white then row - 1 else row + 1) && DiagonalStep(b, white, ep, ms[i])
  {
    if col - 1 >= 0 {
      assert (if white then Black else White) == SideColor(white).Opponent();
      PawnDiagonalSound(b, white, ep, Coord(row, col), if white then row - 1 else row + 1, col - 1);
    }
  }

  /** The right diagonal step of a pawn captures forward, one column to the right, under
      the same conditions. */
  lemma PawnRightSound(b: Board, white: bool, ep: Option<Coord>, row: Index, col: Index)
    requires At(b, row, col) == Piece(SideColor(white), Pawn)
    requires white ==> row >= 1
    requires !white ==> row <= 6
    ensures var ms := PawnRight(b, white, ep, row, col);
            && FromSquare(b, white, ep, Coord(row, col), ms)
            && (|ms| > 0 <==>
                  && col + 1 <= 7
                  && (HasColor(At(b, if white then row - 1 else row + 1, col + 1), SideColor(white).Opponent())
                      || ep == Some(Coord(if white then row - 1 else row + 1, col + 1))))
            && forall i | 0 <= i < |ms| ::
                 ms[i].endCol == col + 1 && ms[i].endRow == (if white then row - 1 else row + 1) && DiagonalStep(b, white, ep, ms[i])
  {
    if col + 1 <= 7 {
      assert (if white then Black else White) == SideColor(white).Opponent();
      PawnDiagonalSound(b, white, ep, Coord(row, col), if white then row - 1 else row + 1, col + 1);
    }
  }

  lemma PawnMovesSound(b: Board, white: bool, ep: Option<Coord>, row: Index, col: Index)
    requires At(b, row, col) == Piece(SideColor(white), Pawn)
    requires white ==> row >= 1
    requires !white ==> row <= 6
    ensures FromSquare(b, white, ep, Coord(row, col), PawnMoves(b, white, ep, row, col))
  {
    var from := Coord(row, col);
    var pushes := PawnPushes(b, white, row, col);
    var left := PawnLeft(b, white, ep, row, col);
    var right := PawnRight(b, white, ep, row, col);
    PawnPushesSound(b, white, ep, row, col);
    PawnLeftSound(b, white, ep, row, col);
    PawnRightSound(b, white, ep, row, col);
    FromSquareAppend(b, white, ep, from, pushes, left);
    var pl := pushes + left;
    assert forall i | 0 <= i < |pl| :: pl[i].endCol < col + 1;
    FromSquareAppend(b, white, ep, from, pl, right);
  }

  /** The direction of t seen from `from`, one sign per axis. */
  function Heading(from: Coord, t: Coord): (int, int)
  {
    (Sign(t.row - from.row), Sign(t.col - from.col))
  }

  /** Each move of ms ends in one of the directions ds as seen from `from`. */
  predicate Headed(from: Coord, ms: seq<Move>, ds: seq<(int, int)>)
  {
    forall i | 0 <= i < |ms| :: Heading(from, ms[i].End()) in ds
  }

  /** j steps along one axis whose step is d (-1, 0 or 1). */
  function Scale(j: int, d: int): int
  {
    if d > 0 then j else if d < 0 then -j else 0
  }

  /** The number of king steps from `from` to t. */
  function Distance(from: Coord, t: Coord): nat
  {
    var dr := Abs(t.row - from.row);
    var dc := Abs(t.col - from.col);
    if dr < dc then dc else dr
  }

  /** t lies on the rank, the file or a diagonal of `from`, and every square strictly
      between the two is empty: the squares a sliding piece can move to over the board. */
  predicate ClearLine(b: Board, from: Coord, t: Coord)
  {
    var h := Heading(from, t);
    var n := Distance(from, t);
    && t.row == from.row + Scale(n, h.0) && t.col == from.col + Scale(n, h.1)
    && forall j | 1 <= j < n ::
         OnBoard(from.row + Scale(j, h.0), from.col + Scale(j, h.1))
         && At(b, from.row + Scale(j, h.0), from.col + Scale(j, h.1)) == Empty
  }

  /** Every move of ms slides along a clear line from `from`. */
  predicate AllClearLines(b: Board, from: Coord, ms: seq<Move>)
  {
    forall i | 0 <= i < |ms| :: ClearLine(b, from, ms[i].End())
  }

  /** The squares 1 to k - 1 steps from `from` in direction (dr, dc) are empty. */
  predicate ClearUpTo(b: Board, from: Coord, dr: int, dc: int, k: nat)
  {
    forall j | 1 <= j < k ::
      OnBoard(from.row + Scale(j, dr), from.col + Scale(j, dc))
      && At(b, from.row + Scale(j, dr), from.col + Scale(j, dc)) == Empty
  }

  /** The square k steps from `from` in direction (dr, dc), with the squares before it
      empty, is k steps away on a clear line in that heading. */
  lemma ClearStep(b: Board, from: Coord, dr: int, dc: int, k: nat, t: Coord)
    requires IsDirection(dr, dc) && k >= 1 && ClearUpTo(b, from, dr, dc, k)
    requires t.row == from.row + Scale(k, dr) && t.col == from.col + Scale(k, dc)
    ensures Heading(from, t) == (dr, dc) && Distance(from, t) == k && ClearLine(b, from, t)
    ensures AtSq(b, t) == Empty ==> ClearUpTo(b, from, dr, dc, k + 1)
  {
  }

  /** Every move of ms ends in heading (dr, dc) from `from`, at least k steps out, on a
      clear line. */
  predicate RayPart(b: Board, from: Coord, dr: int, dc: int, k: nat, ms: seq<Move>)
  {
    forall i | 0 <= i < |ms| ::
      && Heading(from, ms[i].End()) == (dr, dc) && Distance(from, ms[i].End()) >= k
      && ClearLine(b, from, ms[i].End())
  }

  /** The move k steps out followed by the rest of the ray, which lies further out. */
  lemma RayJoin(b: Board, white: bool, ep: Option<Coord>, from: Coord, dr: int, dc: int, k: nat,
                head: seq<Move>, tail: seq<Move>)
    requires FromSquare(b, white, ep, from, head) && FromSquare(b, white, ep, from, tail)
    requires RayPart(b, from, dr, dc, k, head) && forall i | 0 <= i < |head| :: Distance(from, head[i].End()) == k
    requires RayPart(b, from, dr, dc, k + 1, tail)
    ensures FromSquare(b, white, ep, from, head + tail) && RayPart(b, from, dr, dc, k, head + tail)
  {
    FromSquareAppend(b, white, ep, from, head, tail);
  }

  /** The square k steps out, reached over empty squares and holding no piece of the
      mover's side, gives a generated move k steps out on a clear line. */
  lemma RayHead(b: Board, white: bool, ep: Option<Coord>, from: Coord, dr: int, dc: int, k: nat, t: Coord)
    requires IsDirection(dr, dc)
    requires HasColor(AtSq(b, from), SideColor(white)) && AtSq(b, from).kind != King
    requires k >= 1 && t.row == from.row + Scale(k, dr) && t.col == from.col + Scale(k, dc)
    requires ClearUpTo(b, from, dr, dc, k) && !HasColor(AtSq(b, t), SideColor(white))
    ensures FromSquare(b, white, ep, from, [Plain(b, from, t)])
    ensures RayPart(b, from, dr, dc, k, [Plain(b, from, t)]) && Distance(from, t) == k
    ensures t.row + dr == from.row + Scale(k + 1, dr) && t.col + dc == from.col + Scale(k + 1, dc)
    ensures AtSq(b, t) == Empty ==> ClearUpTo(b, from, dr, dc, k + 1)
  {
    ClearStep(b, from, dr, dc, k, t);
  }

  /** A ray of a sliding piece, started k steps out over empty squares, yields generated
      moves in its direction, each at least k steps out along a clear line. */
  lemma {:induction false} RaySound(b: Board, white: bool, ep: Option<Coord>, from: Coord, r: int, c: int, dr: int, dc: int, k: nat)
    requires IsDirection(dr, dc)
    requires HasColor(AtSq(b, from), SideColor(white)) && AtSq(b, from).kind != King
    requires k >= 1 && r == from.row + Scale(k, dr) && c == from.col + Scale(k, dc) && ClearUpTo(b, from, dr, dc, k)
    ensures var ms := Ray(b, SideColor(white), from, r, c, dr, dc);
            FromSquare(b, white, ep, from, ms) && RayPart(b, from, dr, dc, k, ms)
    decreases RayBudget(r, c, dr, dc)
  {
    if OnBoard(r, c) {
      var us := SideColor(white);
      var t := Coord(r, c);
      assert At(b, r, c) == AtSq(b, t);
      if At(b, r, c) == Empty {
        RayHead(b, white, ep, from, dr, dc, k, t);
        RaySound(b, white, ep, from, r + dr, c + dc, dr, dc, k + 1);
        RayJoin(b, white, ep, from, dr, dc, k, [Plain(b, from, t)], Ray(b, us, from, r + dr, c + dc, dr, dc));
      } else if At(b, r, c).color != us {
        RayHead(b, white, ep, from, dr, dc, k, t);
      }
    }
  }

  lemma RayMovesSound(b: Board, white: bool, ep: Option<Coord>, from: Coord, dr: int, dc: int)
    requires IsDirection(dr, dc)
    requires HasColor(AtSq(b, from), SideColor(white)) && AtSq(b, from).kind != King
    ensures FromSquare(b, white, ep, from, RayMoves(b, SideColor(white), from, dr, dc))
    ensures Headed(from, RayMoves(b, SideColor(white), from, dr, dc), [(dr, dc)])
    ensures AllClearLines(b, from, RayMoves(b, SideColor(white), from, dr, dc))
  {
    assert from.row + dr == from.row + Scale(1, dr) && from.col + dc == from.col + Scale(1, dc);
    RaySound(b, white, ep, from, from.row + dr, from.col + dc, dr, dc, 1);
    ghost var ms := RayMoves(b, SideColor(white), from, dr, dc);
    assert forall i | 0 <= i < |ms| :: Heading(from, ms[i].End()) == (dr, dc);
  }

  /** The entries of ds are pairwise different. */
  predicate DistinctDirections(ds: seq<(int, int)>)
  {
    forall i, j | 0 <= i < j < |ds| :: ds[i] != ds[j]
  }

  /** Rays in different directions never meet, so the moves of `Rays` end on different
      squares. */
  lemma {:induction false} RaysSound(b: Board, white: bool, ep: Option<Coord>, from: Coord, ds: seq<(int, int)>, k: nat)
    requires AllDirections(ds) && DistinctDirections(ds) && k <= |ds|
    requires HasColor(AtSq(b, from), SideColor(white)) && AtSq(b, from).kind != King
    ensures FromSquare(b, white, ep, from, Rays(b, SideColor(white), from, ds, k))
    ensures Headed(from, Rays(b, SideColor(white), from, ds, k), ds[..k])
    ensures AllClearLines(b, from, Rays(b, SideColor(white), from, ds, k))
  {
    if k > 0 {
      var us := SideColor(white);
      var xs := Rays(b, us, from, ds, k - 1);
      var ys := RayMoves(b, us, from, ds[k - 1].0, ds[k - 1].1);
      RaysSound(b, white, ep, from, ds, k - 1);
      RayMovesSound(b, white, ep, from, ds[k - 1].0, ds[k - 1].1);
      assert ds[k - 1] !in ds[..k - 1];
      FromSquareAppend(b, white, ep, from, xs, ys);
      assert ds[..k] == ds[..k - 1] + [ds[k - 1]];
    }
  }

  /** The four directions of `getRookMoves` for the side to move. */
  function RookDirections(white: bool): seq<(int, int)>
  {
    var d := if white then 1 else -1;
    [(-d, 0), (d, 0), (0, -d), (0, d)]
  }

  /** `getRookMoves` scans the rook's four directions one after the other. */
  lemma RookMovesAreRays(b: Board, white: bool, from: Coord)
    ensures RookMoves(b, white, from) == Rays(b, SideColor(white), from, RookDirections(white), 4)
  {
    var us := SideColor(white);
    var ds := RookDirections(white);
    assert Rays(b, us, from, ds, 1) == RayMoves(b, us, from, ds[0].0, ds[0].1);
    assert Rays(b, us, from, ds, 3) == Rays(b, us, from, ds, 2) + RayMoves(b, us, from, ds[2].0, ds[2].1);
  }

  /** The rook's directions are four different orthogonal steps. */
  lemma RookDirectionsOrthogonal(white: bool)
    ensures AllDirections(RookDirections(white)) && DistinctDirections(RookDirections(white))
    ensures forall h | h in RookDirections(white) :: h.0 == 0 || h.1 == 0
  {
  }

  /** A rook's moves: generated, to different squares, along its row or its column over
      empty squares only. */
  lemma RookMovesSound(b: Board, white: bool, ep: Option<Coord>, from: Coord)
    requires HasColor(AtSq(b, from), SideColor(white)) && AtSq(b, from).kind != King
    ensures FromSquare(b, white, ep, from, RookMoves(b, white, from))
    ensures AllClearLines(b, from, RookMoves(b, white, from))
    ensures forall i | 0 <= i < |RookMoves(b, white, from)| ::
              RookMoves(b, white, from)[i].endRow == from.row || RookMoves(b, white, from)[i].endCol == from.col
  {
    var ds := RookDirections(white);
    RookMovesAreRays(b, white, from);
    RookDirectionsOrthogonal(white);
    RaysSound(b, white, ep, from, ds, 4);
    assert ds[..4] == ds;
  }

  /** A bishop's moves: generated, to different squares, along its diagonals over empty
      squares only. */
  lemma BishopMovesSound(b: Board, white: bool, ep: Option<Coord>, from: Coord)
    requires HasColor(AtSq(b, from), SideColor(white)) && AtSq(b, from).kind != King
    ensures FromSquare(b, white, ep, from, BishopMoves(b, white, from))
    ensures AllClearLines(b, from, BishopMoves(b, white, from))
    ensures forall i | 0 <= i < |BishopMoves(b, white, from)| ::
              Abs(BishopMoves(b, white, from)[i].endRow - from.row) == Abs(BishopMoves(b, white, from)[i].endCol - from.col)
  {
    RaysSound(b, white, ep, from, BishopDirections, 4);
    assert BishopDirections[..4] == BishopDirections;
  }

  /** A queen's moves: generated, to different squares, along its row, column or
      diagonals over empty squares only. */
  lemma QueenMovesSound(b: Board, white: bool, ep: Option<Coord>, from: Coord)
    requires HasColor(AtSq(b, from), SideColor(white)) && AtSq(b, from).kind != King
    ensures FromSquare(b, white, ep, from, QueenMoves(b, white, from))
    ensures AllClearLines(b, from, QueenMoves(b, white, from))
  {
    RookMovesSound(b, white, ep, from);
    BishopMovesSound(b, white, ep, from);
    FromSquareAppend(b, white, ep, from, RookMoves(b, white, from), BishopMoves(b, white, from));
  }

  /** The square k steps out on a clear line towards t, short of t, is empty; at k == the
      distance it is t. */
  lemma OnClearLine(b: Board, from: Coord, t: Coord, k: nat)
    requires 1 <= k <= Distance(from, t) && ClearLine(b, from, t)
    ensures var h := Heading(from, t);
            var r, c := from.row + Scale(k, h.0), from.col + Scale(k, h.1);
            && OnBoard(r, c)
            && (k < Distance(from, t) ==> At(b, r, c) == Empty)
            && (k == Distance(from, t) ==> Coord(r, c) == t && At(b, r, c) == AtSq(b, t))
  {
  }

  /** The other half of a ray: every square k or more steps out, up to and including
      the first occupied one unless that holds a piece of colour `us`, is reached. */
  lemma {:induction false} RayReaches(b: Board, us: Color, from: Coord, dr: int, dc: int, k: nat, t: Coord)
    requires IsDirection(dr, dc) && 1 <= k <= Distance(from, t)
    requires Heading(from, t) == (dr, dc) && ClearLine(b, from, t) && !HasColor(AtSq(b, t), us)
    ensures EndsOn(Ray(b, us, from, from.row + Scale(k, dr), from.col + Scale(k, dc), dr, dc), t)
    decreases Distance(from, t) - k
  {
    var r, c := from.row + Scale(k, dr), from.col + Scale(k, dc);
    OnClearLine(b, from, t, k);
    var head := [Plain(b, from, Coord(r, c))];
    if k == Distance(from, t) {
      assert Ray(b, us, from, r, c, dr, dc)[0] == head[0];
    } else {
      RayReaches(b, us, from, dr, dc, k + 1, t);
      assert r + dr == from.row + Scale(k + 1, dr) && c + dc == from.col + Scale(k + 1, dc);
      EndsOnAppend(head, Ray(b, us, from, r + dr, c + dc, dr, dc), t);
    }
  }

  /** The rays of ds[..k] reach every square on a clear line in their j-th direction,
      j < k, that holds no piece of colour `us`. */
  lemma {:induction false} RaysReach(b: Board, us: Color, from: Coord, ds: seq<(int, int)>, k: nat, j: nat, t: Coord)
    requires AllDirections(ds) && j < k <= |ds| && t != from
    requires ds[j] == Heading(from, t) && ClearLine(b, from, t) && !HasColor(AtSq(b, t), us)
    ensures EndsOn(Rays(b, us, from, ds, k), t)
  {
    var d := ds[k - 1];
    if j == k - 1 {
      RayReaches(b, us, from, d.0, d.1, 1, t);
    } else {
      RaysReach(b, us, from, ds, k - 1, j, t);
    }
    EndsOnAppend(Rays(b, us, from, ds, k - 1), RayMoves(b, us, from, d.0, d.1), t);
  }

  /** A rook reaches every other square of its row or column that has only empty squares
      in between and holds no piece of its own side. */
  lemma RookReaches(b: Board, white: bool, from: Coord, t: Coord)
    requires t != from && (t.row == from.row || t.col == from.col)
    requires ClearLine(b, from, t) && !HasColor(AtSq(b, t), SideColor(white))
    ensures EndsOn(RookMoves(b, white, from), t)
  {
    var ds := RookDirections(white);
    RookMovesAreRays(b, white, from);
    assert Heading(from, t) in ds;
    var j :| 0 <= j < 4 && ds[j] == Heading(from, t);
    RaysReach(b, SideColor(white), from, ds, 4, j, t);
  }

  /** A bishop reaches every other square of its diagonals that has only empty squares in
      between and holds no piece of its own side. */
  lemma BishopReaches(b: Board, white: bool, from: Coord, t: Coord)
    requires t != from && Abs(t.row - from.row) == Abs(t.col - from.col)
    requires ClearLine(b, from, t) && !HasColor(AtSq(b, t), SideColor(white))
    ensures EndsOn(BishopMoves(b, white, from), t)
  {
    assert Heading(from, t) in BishopDirections;
    var j :| 0 <= j < 4 && BishopDirections[j] == Heading(from, t);
    RaysReach(b, SideColor(white), from, BishopDirections, 4, j, t);
  }

  /** A queen reaches every other square on a clear line from it that holds no piece of
      its own side. */
  lemma QueenReaches(b: Board, white: bool, from: Coord, t: Coord)
    requires t != from && ClearLine(b, from, t) && !HasColor(AtSq(b, t), SideColor(white))
    ensures EndsOn(QueenMoves(b, white, from), t)
  {
    if t.row == from.row || t.col == from.col {
      RookReaches(b, white, from, t);
    } else {
      BishopReaches(b, white, from, t);
    }
    EndsOnAppend(RookMoves(b, white, from), BishopMoves(b, white, from), t);
  }

  /** The end of m relative to `from`. */
  function Offset(from: Coord, m: Move): (int, int)
  {
    (m.endRow - from.row, m.endCol - from.col)
  }

  /** One more spot of a jump list: a move to offsets[k] joins moves at none of the
      offsets up to k, and the joined list is at none of the offsets before k. */
  lemma JumpStep(b: Board, white: bool, ep: Option<Coord>, from: Coord, offsets: seq<(int, int)>, k: nat,
                 head: seq<Move>, tail: seq<Move>)
    requires k < |offsets| && forall j | 0 <= j < k :: offsets[j] != offsets[k]
    requires FromSquare(b, white, ep, from, head) && forall i | 0 <= i < |head| :: Offset(from, head[i]) == offsets[k]
    requires FromSquare(b, white, ep, from, tail)
    requires forall i, j | 0 <= i < |tail| && 0 <= j <= k :: Offset(from, tail[i]) != offsets[j]
    ensures FromSquare(b, white, ep, from, head + tail)
    ensures forall i, j | 0 <= i < |head + tail| && 0 <= j < k :: Offset(from, (head + tail)[i]) != offsets[j]
  {
    FromSquareAppend(b, white, ep, from, head, tail);
  }

  /** The jump to one spot, when it is made, is a generated move to that offset. */
  lemma JumpSound(b: Board, white: bool, ep: Option<Coord>, from: Coord, o: (int, int))
    requires HasColor(AtSq(b, from), SideColor(white)) && o != (0, 0)
    requires AtSq(b, from).kind == King ==> IsDirection(o.0, o.1)
    ensures var ms := JumpTo(b, SideColor(white), from, o);
            && FromSquare(b, white, ep, from, ms)
            && forall i | 0 <= i < |ms| :: Offset(from, ms[i]) == o
  {
    var r := from.row + o.0;
    var c := from.col + o.1;
    if OnBoard(r, c) && !HasColor(At(b, r, c), SideColor(white)) {
      assert Generated(b, white, ep, Plain(b, from, Coord(r, c)));
    }
  }

  /** The jumps of `offsets[k..]` from `from`: generated, and at none of the offsets
      before k, so on different squares when the offsets are different. */
  lemma {:induction false} JumpsSound(b: Board, white: bool, ep: Option<Coord>, from: Coord, offsets: seq<(int, int)>, k: nat)
    requires k <= |offsets| && DistinctDirections(offsets)
    requires HasColor(AtSq(b, from), SideColor(white))
    requires forall j | 0 <= j < |offsets| :: offsets[j] != (0, 0)
    requires AtSq(b, from).kind == King ==> AllDirections(offsets)
    ensures var ms := Jumps(b, SideColor(white), from, offsets, k);
            && FromSquare(b, white, ep, from, ms)
            && forall i, j | 0 <= i < |ms| && 0 <= j < k :: Offset(from, ms[i]) != offsets[j]
    decreases |offsets| - k
  {
    if k < |offsets| {
      var us := SideColor(white);
      JumpsSound(b, white, ep, from, offsets, k + 1);
      JumpSound(b, white, ep, from, offsets[k]);
      JumpStep(b, white, ep, from, offsets, k, JumpTo(b, us, from, offsets[k]), Jumps(b, us, from, offsets, k + 1));
    }
  }

  /** Two squares along one axis and one along the other. */
  predicate KnightJump(o: (int, int))
  {
    (Abs(o.0) == 1 && Abs(o.1) == 2) || (Abs(o.0) == 2 && Abs(o.1) == 1)
  }

  /** Every jump of `offsets[k..]` lands at an offset that has the property P when all
      those offsets do. */
  lemma {:induction false} JumpsAtOffsets(b: Board, us: Color, from: Coord, offsets: seq<(int, int)>, k: nat,
                                          P: ((int, int)) -> bool)
    requires k <= |offsets| && forall j | k <= j < |offsets| :: P(offsets[j])
    ensures forall i | 0 <= i < |Jumps(b, us, from, offsets, k)| :: P(Offset(from, Jumps(b, us, from, offsets, k)[i]))
    decreases |offsets| - k
  {
    if k < |offsets| {
      JumpsAtOffsets(b, us, from, offsets, k + 1, P);
      var head := JumpTo(b, us, from, offsets[k]);
      assert forall i | 0 <= i < |head| :: Offset(from, head[i]) == offsets[k];
    }
  }

  /** A knight's moves: generated, to different squares, each a knight's jump away. */
  lemma KnightMovesSound(b: Board, white: bool, ep: Option<Coord>, from: Coord)
    requires AtSq(b, from) == Piece(SideColor(white), Knight)
    ensures FromSquare(b, white, ep, from, KnightMoves(b, white, from))
    ensures forall i | 0 <= i < |KnightMoves(b, white, from)| :: KnightJump(Offset(from, KnightMoves(b, white, from)[i]))
  {
    JumpsSound(b, white, ep, from, KnightOffsets, 0);
    JumpsAtOffsets(b, SideColor(white), from, KnightOffsets, 0, KnightJump);
  }

  /** A knight reaches every square a knight's jump away that holds no piece of its side. */
  lemma KnightReaches(b: Board, white: bool, s: Coord, t: Coord)
    requires KnightJump((t.row - s.row, t.col - s.col)) && !HasColor(AtSq(b, t), SideColor(white))
    ensures EndsOn(KnightMoves(b, white, s), t)
  {
    var o := (t.row - s.row, t.col - s.col);
    assert o in KnightOffsets;
    var j :| 0 <= j < 8 && KnightOffsets[j] == o;
    assert Coord(s.row + o.0, s.col + o.1) == t;
    JumpsReach(b, SideColor(white), s, KnightOffsets, 0, j);
  }

  lemma KingMovesSound(b: Board, white: bool, ep: Option<Coord>, from: Coord)
    requires AtSq(b, from) == Piece(SideColor(white), King)
    ensures FromSquare(b, white, ep, from, KingMoves(b, white, from))
  {
    JumpsSound(b, white, ep, from, KingOffsets, 0);
  }

  /** The moves generated for one square all start there and end on different squares. */
  lemma PieceMovesSound(b: Board, white: bool, ep: Option<Coord>, row: Index, col: Index)
    requires PawnsInRange(b)
    ensures FromSquare(b, white, ep, Coord(row, col), PieceMoves(b, white, ep, row, col))
  {
    var s := At(b, row, col);
    var from := Coord(row, col);
    if HasColor(s, SideColor(white)) {
      match s.kind
      case Pawn =>
        PawnRowInRange(b, row, col);
        PawnMovesSound(b, white, ep, row, col);
      case Rook => RookMovesSound(b, white, ep, from);
      case Knight => KnightMovesSound(b, white, ep, from);
      case Bishop => BishopMovesSound(b, white, ep, from);
      case Queen => QueenMovesSound(b, white, ep, from);
      case King => KingMovesSound(b, white, ep, from);
    }
  }

  /** Moves from one square to different squares are pairwise different. */
  lemma FromSquareDistinct(b: Board, white: bool, ep: Option<Coord>, from: Coord, ms: seq<Move>)
    requires FromSquare(b, white, ep, from, ms)
    ensures Distinct(ms)
  {
  }

  /** The moves of one row: generated, pairwise different, and starting on that row. */
  lemma RowMovesSound(b: Board, white: bool, ep: Option<Coord>, row: Index)
    requires PawnsInRange(b)
    ensures var ms := RowMovesUpTo(b, white, ep, row, 8);
            && AllGenerated(b, white, ep, ms) && Distinct(ms)
            && forall i | 0 <= i < |ms| :: ms[i].startRow == row
  {
    var f := SquareBlocks(b, white, ep, row);
    forall c: nat | c < 8
      ensures FromSquare(b, white, ep, Coord(row, c), f(c)) && Distinct(f(c))
    {
      PieceMovesSound(b, white, ep, row, c);
      FromSquareDistinct(b, white, ep, Coord(row, c), f(c));
    }
    BlocksHave(f, 8, m => Generated(b, white, ep, m) && m.startRow == row);
    BlocksDistinct(f, 8, (s: Coord) => s.col);
    RowMovesAreBlocks(b, white, ep, row, 8);
  }

  /** `getAllMoves` yields generated moves, no two of them equal. */
  lemma AllMovesSound(b: Board, white: bool, ep: Option<Coord>)
    requires PawnsInRange(b)
    ensures AllGenerated(b, white, ep, AllMoves(b, white, ep))
    ensures Distinct(AllMoves(b, white, ep))
  {
    var g := RowBlocks(b, white, ep);
    forall r: nat | r < 8
      ensures AllGenerated(b, white, ep, g(r)) && Distinct(g(r))
      ensures forall i | 0 <= i < |g(r)| :: g(r)[i].startRow == r
    {
      RowMovesSound(b, white, ep, r);
    }
    BlocksHave(g, 8, m => Generated(b, white, ep, m));
    BlocksDistinct(g, 8, (s: Coord) => s.row);
    MovesUpToAreBlocks(b, white, ep, 8);
  }

  // ---------------------------------------------------------------------------------
  // The en-passant target matters to an attack only on the target square itself.

  lemma EndsOnAppend(xs: seq<Move>, ys: seq<Move>, t: Coord)
    ensures EndsOn(xs + ys, t) <==> EndsOn(xs, t) || EndsOn(ys, t)
  {
    if EndsOn(xs + ys, t) {
      var i :| 0 <= i < |xs + ys| && (xs + ys)[i].End() == t;
      if i >= |xs| {
        assert ys[i - |xs|].End() == t;
      }
    }
    if EndsOn(xs, t) {
      var j :| 0 <= j < |xs| && xs[j].End() == t;
      assert (xs + ys)[j].End() == t;
    }
    if EndsOn(ys, t) {
      var j :| 0 <= j < |ys| && ys[j].End() == t;
      assert (xs + ys)[|xs| + j].End() == t;
    }
  }

  /** Joining lists that agree on ending on t gives lists that agree on it. */
  lemma EndsOnJoin(xs1: seq<Move>, ys1: seq<Move>, xs2: seq<Move>, ys2: seq<Move>, t: Coord)
    requires EndsOn(xs1, t) == EndsOn(xs2, t) && EndsOn(ys1, t) == EndsOn(ys2, t)
    ensures EndsOn(xs1 + ys1, t) == EndsOn(xs2 + ys2, t)
  {
    EndsOnAppend(xs1, ys1, t);
    EndsOnAppend(xs2, ys2, t);
  }

  lemma DiagonalIgnoresTarget(b: Board, enemy: Color, ep1: Option<Coord>, ep2: Option<Coord>, from: Coord, r: Index, c: Index, t: Coord)
    requires ep1 != Some(t) && ep2 != Some(t)
    ensures EndsOn(PawnDiagonal(b, enemy, ep1, from, r, c), t) == EndsOn(PawnDiagonal(b, enemy, ep2, from, r, c), t)
  {
    if Coord(r, c) == t {
      assert PawnDiagonal(b, enemy, ep1, from, r, c) == PawnDiagonal(b, enemy, ep2, from, r, c);
    }
  }

  lemma PawnLeftIgnoresTarget(b: Board, white: bool, ep1: Option<Coord>, ep2: Option<Coord>, row: Index, col: Index, t: Coord)
    requires white ==> row >= 1
    requires !white ==> row <= 6
    requires ep1 != Some(t) && ep2 != Some(t)
    ensures EndsOn(PawnLeft(b, white, ep1, row, col), t) == EndsOn(PawnLeft(b, white, ep2, row, col), t)
  {
    if col - 1 >= 0 {
      DiagonalIgnoresTarget(b, if white then Black else White, ep1, ep2, Coord(row, col), if white then row - 1 else row + 1, col - 1, t);
    }
  }

  lemma PawnRightIgnoresTarget(b: Board, white: bool, ep1: Option<Coord>, ep2: Option<Coord>, row: Index, col: Index, t: Coord)
    requires white ==> row >= 1
    requires !white ==> row <= 6
    requires ep1 != Some(t) && ep2 != Some(t)
    ensures EndsOn(PawnRight(b, white, ep1, row, col), t) == EndsOn(PawnRight(b, white, ep2, row, col), t)
  {
    if col + 1 <= 7 {
      DiagonalIgnoresTarget(b, if white then Black else White, ep1, ep2, Coord(row, col), if white then row - 1 else row + 1, col + 1, t);
    }
  }

  lemma PawnMovesIgnoreTarget(b: Board, white: bool, ep1: Option<Coord>, ep2: Option<Coord>, row: Index, col: Index, t: Coord)
    requires white ==> row >= 1
    requires !white ==> row <= 6
    requires ep1 != Some(t) && ep2 != Some(t)
    ensures EndsOn(PawnMoves(b, white, ep1, row, col), t) == EndsOn(PawnMoves(b, white, ep2, row, col), t)
  {
    var pushes := PawnPushes(b, white, row, col);
    PawnLeftIgnoresTarget(b, white, ep1, ep2, row, col, t);
    PawnRightIgnoresTarget(b, white, ep1, ep2, row, col, t);
    EndsOnJoin(pushes, PawnLeft(b, white, ep1, row, col), pushes, PawnLeft(b, white, ep2, row, col), t);
    EndsOnJoin(pushes + PawnLeft(b, white, ep1, row, col), PawnRight(b, white, ep1, row, col),
               pushes + PawnLeft(b, white, ep2, row, col), PawnRight(b, white, ep2, row, col), t);
  }

  lemma PieceMovesIgnoreTarget(b: Board, white: bool, ep1: Option<Coord>, ep2: Option<Coord>, row: Index, col: Index, t: Coord)
    requires PawnsInRange(b) && ep1 != Some(t) && ep2 != Some(t)
    ensures EndsOn(PieceMoves(b, white, ep1, row, col), t) == EndsOn(PieceMoves(b, white, ep2, row, col), t)
  {
    var s := At(b, row, col);
    if HasColor(s, SideColor(white)) && s.kind == Pawn {
      PawnRowInRange(b, row, col);
      PawnMovesIgnoreTarget(b, white, ep1, ep2, row, col, t);
    } else {
      assert PieceMoves(b, white, ep1, row, col) == PieceMoves(b, white, ep2, row, col);
    }
  }

  /** Whether a move of a row ends on t does not depend on the target either. */
  lemma RowMovesIgnoreTarget(b: Board, white: bool, ep1: Option<Coord>, ep2: Option<Coord>, row: Index, t: Coord)
    requires PawnsInRange(b) && ep1 != Some(t) && ep2 != Some(t)
    ensures EndsOn(RowMovesUpTo(b, white, ep1, row, 8), t) == EndsOn(RowMovesUpTo(b, white, ep2, row, 8), t)
  {
    var f1 := SquareBlocks(b, white, ep1, row);
    var f2 := SquareBlocks(b, white, ep2, row);
    forall c: nat | c < 8
      ensures EndsOn(f1(c), t) == EndsOn(f2(c), t)
    {
      PieceMovesIgnoreTarget(b, white, ep1, ep2, row, c, t);
    }
    BlocksAgree(f1, f2, 8, t);
    RowMovesAreBlocks(b, white, ep1, row, 8);
    RowMovesAreBlocks(b, white, ep2, row, 8);
  }

  /** Whether a square other than the en-passant target is attacked does not depend on
      the target. */
  lemma AttackedIgnoresTarget(b: Board, byWhite: bool, ep1: Option<Coord>, ep2: Option<Coord>, t: Coord)
    requires PawnsInRange(b) && ep1 != Some(t) && ep2 != Some(t)
    ensures Attacked(b, byWhite, ep1, t) == Attacked(b, byWhite, ep2, t)
  {
    var g1 := RowBlocks(b, byWhite, ep1);
    var g2 := RowBlocks(b, byWhite, ep2);
    forall r: nat | r < 8
      ensures EndsOn(g1(r), t) == EndsOn(g2(r), t)
    {
      RowMovesIgnoreTarget(b, byWhite, ep1, ep2, r, t);
    }
    BlocksAgree(g1, g2, 8, t);
    MovesUpToAreBlocks(b, byWhite, ep1, 8);
    MovesUpToAreBlocks(b, byWhite, ep2, 8);
  }

  // ---------------------------------------------------------------------------------
  // Properties of single moves carried from the generator of each square to
  // `getAllMoves`, and attacks carried the other way.

  /** Every move of xs and of ys has P, so every move of xs + ys has it. */
  lemma HaveAppend(xs: seq<Move>, ys: seq<Move>, P: Move -> bool)
    requires forall i | 0 <= i < |xs| :: P(xs[i])
    requires forall i | 0 <= i < |ys| :: P(ys[i])
    ensures forall i | 0 <= i < |xs + ys| :: P((xs + ys)[i])
  {
  }

  /** A pawn's advance of two rows: from its starting row along its column, over an empty
      square onto an empty square. */
  predicate DoubleStepShape(b: Board, white: bool, m: Move)
  {
    && !m.isEnPassant && m.endCol == m.startCol
    && m.startRow == (if white then 6 else 1) && m.endRow == (if white then 4 else 3)
    && At(b, (m.startRow + m.endRow) / 2, m.startCol) == Empty && AtSq(b, m.End()) == Empty
  }

  /** The only pawn move a square's generator yields that covers two rows is the double step. */
  lemma PawnDoubleStep(b: Board, white: bool, ep: Option<Coord>, row: Index, col: Index, i: nat)
    requires PawnsInRange(b) && i < |PieceMoves(b, white, ep, row, col)|
    requires IsDoubleStep(PieceMoves(b, white, ep, row, col)[i])
    ensures DoubleStepShape(b, white, PieceMoves(b, white, ep, row, col)[i])
  {
    var ms := PieceMoves(b, white, ep, row, col);
    PieceMovesSound(b, white, ep, row, col);
    assert ms[i].Start() == Coord(row, col) && Generated(b, white, ep, ms[i]);
    assert At(b, row, col) == Piece(SideColor(white), Pawn);
    PawnRowInRange(b, row, col);
    var pushes := PawnPushes(b, white, row, col);
    assert ms == pushes + PawnLeft(b, white, ep, row, col) + PawnRight(b, white, ep, row, col);
    PawnLeftSound(b, white, ep, row, col);
    PawnRightSound(b, white, ep, row, col);
    assert i < |pushes|;
    assert ms[i] == pushes[i];
  }

  /** Every move of `getAllMoves` that moves a pawn two rows is a double step from the
      pawn's starting row over an empty square onto an empty square. */
  lemma AllMovesDoubleStep(b: Board, white: bool, ep: Option<Coord>)
    requires PawnsInRange(b)
    ensures forall i | 0 <= i < |AllMoves(b, white, ep)| ::
              IsDoubleStep(AllMoves(b, white, ep)[i]) ==> DoubleStepShape(b, white, AllMoves(b, white, ep)[i])
  {
    var g := RowBlocks(b, white, ep);
    forall r: nat | r < 8
      ensures forall i | 0 <= i < |g(r)| :: IsDoubleStep(g(r)[i]) ==> DoubleStepShape(b, white, g(r)[i])
    {
      RowMovesDoubleStep(b, white, ep, r);
      assert g(r) == RowMovesUpTo(b, white, ep, r, 8);
    }
    BlocksHave(g, 8, m => IsDoubleStep(m) ==> DoubleStepShape(b, white, m));
    MovesUpToAreBlocks(b, white, ep, 8);
  }

  lemma RowMovesDoubleStep(b: Board, white: bool, ep: Option<Coord>, row: Index)
    requires PawnsInRange(b)
    ensures var ms := RowMovesUpTo(b, white, ep, row, 8);
            forall i | 0 <= i < |ms| :: IsDoubleStep(ms[i]) ==> DoubleStepShape(b, white, ms[i])
  {
    var f := SquareBlocks(b, white, ep, row);
    forall c: nat, i | c < 8 && 0 <= i < |f(c)| && IsDoubleStep(f(c)[i])
      ensures DoubleStepShape(b, white, f(c)[i])
    {
      PawnDoubleStep(b, white, ep, row, c, i);
    }
    BlocksHave(f, 8, m => IsDoubleStep(m) ==> DoubleStepShape(b, white, m));
    RowMovesAreBlocks(b, white, ep, row, 8);
  }

  /** The jump list of `offsets[k..]` reaches the spot of every offset in it that lies on
      the board and holds no piece of colour `us`. */
  lemma {:induction false} JumpsReach(b: Board, us: Color, from: Coord, offsets: seq<(int, int)>, k: nat, j: nat)
    requires k <= j < |offsets|
    requires OnBoard(from.row + offsets[j].0, from.col + offsets[j].1)
    requires !HasColor(At(b, from.row + offsets[j].0, from.col + offsets[j].1), us)
    ensures EndsOn(Jumps(b, us, from, offsets, k), Coord(from.row + offsets[j].0, from.col + offsets[j].1))
    decreases j - k
  {
    var t := Coord(from.row + offsets[j].0, from.col + offsets[j].1);
    EndsOnAppend(JumpTo(b, us, from, offsets[k]), Jumps(b, us, from, offsets, k + 1), t);
    if k < j {
      JumpsReach(b, us, from, offsets, k + 1, j);
    } else {
      assert JumpTo(b, us, from, offsets[k])[0].End() == t;
    }
  }

  /** The king's generator reaches each neighbouring square holding no piece of its side. */
  lemma KingReaches(b: Board, white: bool, s: Coord, t: Coord)
    requires IsDirection(t.row - s.row, t.col - s.col) && OnBoard(t.row, t.col)
    requires !HasColor(AtSq(b, t), SideColor(white))
    ensures EndsOn(KingMoves(b, white, s), t)
  {
    var o := (t.row - s.row, t.col - s.col);
    assert o in KingOffsets;
    var j :| 0 <= j < 8 && KingOffsets[j] == o;
    JumpsReach(b, SideColor(white), s, KingOffsets, 0, j);
  }

  /** The square of a king of the side `white` dispatches to the king's generator. */
  lemma KingSquareMoves(b: Board, white: bool, ep: Option<Coord>, s: Coord)
    requires PawnsInRange(b) && AtSq(b, s) == Piece(SideColor(white), King)
    ensures PieceMoves(b, white, ep, s.row, s.col) == KingMoves(b, white, s)
  {
    assert At(b, s.row, s.col) == AtSq(b, s);
    assert Coord(s.row, s.col) == s;
  }

  /** A king attacks each neighbouring square that holds no piece of its own side. */
  lemma KingAttacks(b: Board, byWhite: bool, ep: Option<Coord>, s: Coord, t: Coord)
    requires PawnsInRange(b) && AtSq(b, s) == Piece(SideColor(byWhite), King)
    requires IsDirection(t.row - s.row, t.col - s.col)
    requires !HasColor(AtSq(b, t), SideColor(byWhite))
    ensures Attacked(b, byWhite, ep, t)
  {
    KingReaches(b, byWhite, s, t);
    KingSquareMoves(b, byWhite, ep, s);
    BlocksSee(SquareBlocks(b, byWhite, ep, s.row), 8, s.col, t);
    RowMovesAreBlocks(b, byWhite, ep, s.row, 8);
    BlocksSee(RowBlocks(b, byWhite, ep), 8, s.row, t);
    MovesUpToAreBlocks(b, byWhite, ep, 8);
  }

  // ---------------------------------------------------------------------------------
  // `getAllMoves` builds its list block by block: one block per square within a row,
  // one block per row within the board. What holds of every block holds of the list.

  /** The blocks f(0), ..., f(n - 1), one after the other. */
  function Blocks(f: nat -> seq<Move>, n: nat): seq<Move>
  {
    if n == 0 then [] else Blocks(f, n - 1) + f(n - 1)
  }

  /** The moves of each square of `row`, by column; none past the last column. */
  function SquareBlocks(b: Board, white: bool, ep: Option<Coord>, row: Index): nat -> seq<Move>
    requires PawnsInRange(b)
  {
    (c: nat) => if c < 8 then PieceMoves(b, white, ep, row, c) else []
  }

  /** The moves of each row, by row; none past the last row. */
  function RowBlocks(b: Board, white: bool, ep: Option<Coord>): nat -> seq<Move>
    requires PawnsInRange(b)
  {
    (r: nat) => if r < 8 then RowMovesUpTo(b, white, ep, r, 8) else []
  }

  /** The inner loop of `getAllMoves` joins the blocks of the squares it visits. */
  lemma {:induction false} RowMovesAreBlocks(b: Board, white: bool, ep: Option<Coord>, row: Index, col: nat)
    requires PawnsInRange(b) && col <= 8
    ensures RowMovesUpTo(b, white, ep, row, col) == Blocks(SquareBlocks(b, white, ep, row), col)
  {
    if col > 0 {
      RowMovesAreBlocks(b, white, ep, row, col - 1);
      assert SquareBlocks(b, white, ep, row)(col - 1) == PieceMoves(b, white, ep, row, col - 1);
    }
  }

  /** The outer loop of `getAllMoves` joins the blocks of the rows it visits. */
  lemma {:induction false} MovesUpToAreBlocks(b: Board, white: bool, ep: Option<Coord>, row: nat)
    requires PawnsInRange(b) && row <= 8
    ensures MovesUpTo(b, white, ep, row) == Blocks(RowBlocks(b, white, ep), row)
  {
    var xs := (r: nat) => if r <= 8 then MovesUpTo(b, white, ep, r) else [];
    forall k: nat | k < row
      ensures xs(k + 1) == xs(k) + RowBlocks(b, white, ep)(k)
    {
      MovesUpToStep(b, white, ep, k);
    }
    StepsAreBlocks(xs, RowBlocks(b, white, ep), row);
  }

  /** One step of the outer loop of `getAllMoves` appends the moves of one row. */
  lemma MovesUpToStep(b: Board, white: bool, ep: Option<Coord>, k: nat)
    requires PawnsInRange(b) && k < 8
    ensures MovesUpTo(b, white, ep, k + 1) == MovesUpTo(b, white, ep, k) + RowBlocks(b, white, ep)(k)
  {
  }

  /** A list built by appending f(k) at step k is the join of the first n blocks of f. */
  lemma {:induction false} StepsAreBlocks(xs: nat -> seq<Move>, f: nat -> seq<Move>, n: nat)
    requires xs(0) == [] && forall k: nat | k < n :: xs(k + 1) == xs(k) + f(k)
    ensures xs(n) == Blocks(f, n)
  {
    if n > 0 {
      StepsAreBlocks(xs, f, n - 1);
    }
  }

  /** When every move of every block has P, every move of the joined list has it. */
  lemma {:induction false} BlocksHave(f: nat -> seq<Move>, n: nat, P: Move -> bool)
    requires forall c: nat, i | c < n && 0 <= i < |f(c)| :: P(f(c)[i])
    ensures forall i | 0 <= i < |Blocks(f, n)| :: P(Blocks(f, n)[i])
  {
    if n > 0 {
      BlocksHave(f, n - 1, P);
      HaveAppend(Blocks(f, n - 1), f(n - 1), P);
    }
  }

  /** Blocks free of repeats, whose moves start on squares that key numbers by block,
      join into a list free of repeats. */
  lemma {:induction false} BlocksDistinct(f: nat -> seq<Move>, n: nat, key: Coord -> int)
    requires forall c: nat | c < n :: Distinct(f(c))
    requires forall c: nat, i | c < n && 0 <= i < |f(c)| :: key(f(c)[i].Start()) == c
    ensures Distinct(Blocks(f, n))
    ensures forall i | 0 <= i < |Blocks(f, n)| :: key(Blocks(f, n)[i].Start()) < n
  {
    if n > 0 {
      BlocksDistinct(f, n - 1, key);
      DistinctJoin(Blocks(f, n - 1), f(n - 1), key, n - 1);
    }
  }

  /** Two lists free of repeats whose moves start on squares of different keys join
      into a list free of repeats. */
  lemma DistinctJoin(xs: seq<Move>, ys: seq<Move>, key: Coord -> int, k: int)
    requires Distinct(xs) && Distinct(ys)
    requires forall i | 0 <= i < |xs| :: key(xs[i].Start()) < k
    requires forall j | 0 <= j < |ys| :: key(ys[j].Start()) == k
    ensures Distinct(xs + ys)
    ensures forall i | 0 <= i < |xs + ys| :: key((xs + ys)[i].Start()) < k + 1
  {
  }

  /** A move of block c ending on t is seen by the joined list of any blocks past c. */
  lemma {:induction false} BlocksSee(f: nat -> seq<Move>, n: nat, c: nat, t: Coord)
    requires c < n && EndsOn(f(c), t)
    ensures EndsOn(Blocks(f, n), t)
  {
    EndsOnAppend(Blocks(f, n - 1), f(n - 1), t);
    if c < n - 1 {
      BlocksSee(f, n - 1, c, t);
    }
  }

  /** Blocks that agree block by block on ending on t join into lists that agree on it. */
  lemma {:induction false} BlocksAgree(f1: nat -> seq<Move>, f2: nat -> seq<Move>, n: nat, t: Coord)
    requires forall c: nat | c < n :: EndsOn(f1(c), t) == EndsOn(f2(c), t)
    ensures EndsOn(Blocks(f1, n), t) == EndsOn(Blocks(f2, n), t)
  {
    if n > 0 {
      BlocksAgree(f1, f2, n - 1, t);
      EndsOnJoin(Blocks(f1, n - 1), f1(n - 1), Blocks(f2, n - 1), f2(n - 1), t);
    }
  }
}
