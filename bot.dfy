/** The move choosers of Chess/ChessBot.py: a random valid move, and a one-ply min-max
    search that plays each valid move, lets the opponent answer with each of its valid
    moves, and keeps the first move whose best answer scores lowest. */
module Bot {
  import opened Pieces
  import opened Moves
  import opened Position
  import opened Generation
  import opened Legality
  import opened Invariants
  import opened Scoring
  import opened Engine

  /** `CHECKMATE` and `STALEMATE`, in half-points. */
  const CHECKMATE: int := 2000
  const STALEMATE: int := 0

  /** `findRandomMove`: the move at the index `random.randint` draws; `pick` is the draw.
      An empty list has no index to draw, so the call needs a move to choose from. */
  function FindRandomMove(validMoves: seq<Move>, pick: nat): (m: Move)
    requires pick < |validMoves|
    ensures m in validMoves
  {
    validMoves[pick]
  }

  /** Every valid move is the random move for some draw. */
  lemma RandomMoveReachesAll(validMoves: seq<Move>, m: Move)
    requires m in validMoves
    ensures exists pick: nat | pick < |validMoves| :: FindRandomMove(validMoves, pick) == m
  {
    var pick :| 0 <= pick < |validMoves| && validMoves[pick] == m;
    assert FindRandomMove(validMoves, pick) == m;
  }

  /** `turnMultiplier`: 1 when white is to move at the root, -1 when black is. */
  function TurnMultiplier(white: bool): int
  {
    if white then 1 else -1
  }

  /** The score of the board after the opponent's reply, from the opponent's side: the
      evaluation times minus the root's turn multiplier. */
  function ReplyScore(b: Board, reply: Move, white: bool): (s: int)
    requires CastleInBounds(reply)
    ensures -MaxScore <= s <= MaxScore
  {
    ScoreBound(MovedBoard(b, reply));
    BoardScore(MovedBoard(b, reply)) * -TurnMultiplier(white)
  }

  /** The inner loop of `findBestMove`: the opponent's best reply score, starting from
      -CHECKMATE, over the replies in their order. */
  function OpponentsMax(b: Board, replies: seq<Move>, white: bool): (r: int)
    requires AllCastleInBounds(replies)
    ensures replies == [] ==> r == -CHECKMATE
    ensures forall j | 0 <= j < |replies| :: ReplyScore(b, replies[j], white) <= r
    ensures replies != [] ==> exists j | 0 <= j < |replies| :: r == ReplyScore(b, replies[j], white)
    ensures r <= MaxScore
  {
    if replies == [] then -CHECKMATE
    else
      var prev := OpponentsMax(b, replies[..|replies| - 1], white);
      var score := ReplyScore(b, replies[|replies| - 1], white);
      if score > prev then score else prev
  }

  /** What the opponent can make of the bot's move m in p: the best score among its
      valid replies, or -CHECKMATE when it has none. */
  function PlyScore(p: Position, m: Move): int
    requires Playable(p) && m in ValidMoves(p)
  {
    ValidMovePreservesPlayable(p, m);
    var q := ApplyMove(p, m);
    ValidMovesFit(q);
    OpponentsMax(q.board, ValidMoves(q), p.whiteToMove)
  }

  /** The scores of the bot's moves, in their order; `legal` is the list of valid moves
      of p. */
  function PlyScores(p: Position, legal: seq<Move>, moves: seq<Move>): (r: seq<int>)
    requires Playable(p) && legal == ValidMoves(p) && forall i | 0 <= i < |moves| :: moves[i] in legal
    ensures |r| == |moves| && forall i | 0 <= i < |moves| :: r[i] == PlyScore(p, moves[i])
  {
    seq(|moves|, i requires 0 <= i < |moves| => PlyScore(p, moves[i]))
  }

  /** The outer loop of `findBestMove` on the scores: `opponentMinMaxScore` starts at
      CHECKMATE and a move is taken when its score is strictly below the best so far.
      The result is the lowest score and the first position holding it, or CHECKMATE and
      no position when no score is below CHECKMATE. */
  function MinMaxChoice(scores: seq<int>): (r: (int, Option<nat>))
    ensures r.1.None? ==> r.0 == CHECKMATE && forall j | 0 <= j < |scores| :: scores[j] >= CHECKMATE
    ensures r.1.Some? ==>
              && r.1.value < |scores| && r.0 == scores[r.1.value] && r.0 < CHECKMATE
              && (forall j | 0 <= j < |scores| :: r.0 <= scores[j])
              && (forall j | 0 <= j < r.1.value :: r.0 < scores[j])
  {
    if scores == [] then (CHECKMATE, None)
    else
      var prev := MinMaxChoice(scores[..|scores| - 1]);
      var last := scores[|scores| - 1];
      if last < prev.0 then (last, Some(|scores| - 1)) else prev
  }

  /** `findBestMove`'s answer for the moves in the order given. */
  function BestMove(p: Position, moves: seq<Move>): Option<Move>
    requires Playable(p) && forall i | 0 <= i < |moves| :: moves[i] in ValidMoves(p)
  {
    var choice := MinMaxChoice(PlyScores(p, ValidMoves(p), moves));
    if choice.1.None? then None else Some(moves[choice.1.value])
  }

  /** One more score for the outer loop: it is taken when strictly below the best so far. */
  lemma ChoiceStep(scores: seq<int>, k: nat)
    requires k < |scores|
    ensures var c := MinMaxChoice(scores[..k]);
            MinMaxChoice(scores[..k + 1]) == if scores[k] < c.0 then (scores[k], Some(k)) else c
  {
    assert scores[..k + 1][..k] == scores[..k];
  }

  /** The bot's move leaves the opponent a best score of at most MaxScore, below
      CHECKMATE; the score is the lowest possible, -CHECKMATE, exactly when the opponent
      has no valid reply, whether it is mated or stalemated. */
  lemma PlyScoreRange(p: Position, m: Move)
    requires Playable(p) && m in ValidMoves(p)
    ensures -CHECKMATE <= PlyScore(p, m) <= MaxScore < CHECKMATE
    ensures CastleInBounds(m) && Wellformed(ApplyMove(p, m)) &&
            (PlyScore(p, m) == -CHECKMATE <==> ValidMoves(ApplyMove(p, m)) == [])
  {
    ValidMovePreservesPlayable(p, m);
    var q := ApplyMove(p, m);
    ValidMovesFit(q);
    var oms := ValidMoves(q);
    if oms != [] {
      var j :| 0 <= j < |oms| && PlyScore(p, m) == ReplyScore(q.board, oms[j], p.whiteToMove);
    }
  }

  /** The evaluation of any board lies strictly between -CHECKMATE and CHECKMATE. */
  lemma ScoreInsideCheckmate(b: Board)
    ensures -CHECKMATE < BoardScore(b) < CHECKMATE
  {
    ScoreBound(b);
  }

  /** A move after which the opponent has no valid reply, mate or stalemate, is preferred:
      when the list holds one, the chosen move is one as well. */
  lemma ReplylessPreferred(p: Position, moves: seq<Move>, i: nat)
    requires Playable(p) && forall j | 0 <= j < |moves| :: moves[j] in ValidMoves(p)
    requires i < |moves| && CastleInBounds(moves[i]) && Wellformed(ApplyMove(p, moves[i]))
    requires ValidMoves(ApplyMove(p, moves[i])) == []
    ensures BestMove(p, moves).Some?
    ensures var m := BestMove(p, moves).value;
            CastleInBounds(m) && Wellformed(ApplyMove(p, m)) && ValidMoves(ApplyMove(p, m)) == []
  {
    BestMoveIsFirstMinimum(p, moves);
    PlyScoreRange(p, moves[i]);
    var c :| 0 <= c < |moves| && BestMove(p, moves).value == moves[c] &&
             forall j | 0 <= j < |moves| :: PlyScore(p, moves[c]) <= PlyScore(p, moves[j]);
    assert PlyScore(p, moves[c]) <= PlyScore(p, moves[i]);
    PlyScoreRange(p, moves[c]);
  }

  /** `findBestMove` returns a move exactly when it is given one, and then the first of
      the given moves whose opponent's best reply scores lowest. */
  lemma BestMoveIsFirstMinimum(p: Position, moves: seq<Move>)
    requires Playable(p) && forall i | 0 <= i < |moves| :: moves[i] in ValidMoves(p)
    ensures BestMove(p, moves).None? <==> moves == []
    ensures BestMove(p, moves).Some? ==>
              exists i | 0 <= i < |moves| ::
                && BestMove(p, moves).value == moves[i]
                && (forall j | 0 <= j < |moves| :: PlyScore(p, moves[i]) <= PlyScore(p, moves[j]))
                && (forall j | 0 <= j < i :: PlyScore(p, moves[i]) < PlyScore(p, moves[j]))
  {
    if moves != [] {
      PlyScoreRange(p, moves[0]);
      var i := FirstMinimum(p, ValidMoves(p), moves);
      assert BestMove(p, moves) == Some(moves[i]);
    }
  }

  /** The position chosen among scores whose first is below CHECKMATE. */
  lemma FirstMinimum(p: Position, legal: seq<Move>, moves: seq<Move>) returns (i: nat)
    requires Playable(p) && legal == ValidMoves(p) && forall j | 0 <= j < |moves| :: moves[j] in legal
    requires moves != [] && PlyScore(p, moves[0]) < CHECKMATE
    ensures i < |moves| && MinMaxChoice(PlyScores(p, legal, moves)).1 == Some(i)
    ensures forall j | 0 <= j < |moves| :: PlyScore(p, moves[i]) <= PlyScore(p, moves[j])
    ensures forall j | 0 <= j < i :: PlyScore(p, moves[i]) < PlyScore(p, moves[j])
  {
    i := MinMaxChoice(PlyScores(p, legal, moves)).1.value;
  }

  /** `findBestMove(gameState, validMoves)`, with `validMoves` already in the order
      `random.shuffle` left it. Each move is made, the opponent's valid replies are
      generated and scored, and the move is unmade; the comparison with the best score
      so far is made after the undo, which changes nothing it reads. The position comes
      back with its board, turn, kings and rights; the en-passant target is whatever the
      last undo left. */
  method FindBestMove(gs: GameState, validMoves: seq<Move>) returns (bestMove: Option<Move>)
    requires gs.Valid() && Playable(gs.Pos())
    requires forall i | 0 <= i < |validMoves| :: validMoves[i] in ValidMoves(gs.Pos())
    modifies gs, gs.board
    ensures gs.Valid() && gs.board == old(gs.board)
    ensures gs.Pos() == old(gs.Pos()).(enpassantPossible := gs.enpassantPossible)
    ensures gs.moveLog == old(gs.moveLog) && gs.castleRightLog == old(gs.castleRightLog)
    ensures bestMove == BestMove(old(gs.Pos()), validMoves)
  {
    ghost var p := gs.Pos();
    ghost var legal := ValidMoves(p);
    ghost var scores := PlyScores(p, legal, validMoves);
    var turnMultiplier := if gs.whiteToMove then 1 else -1;
    var opponentMinMaxScore := CHECKMATE;
    bestMove := None;
    ghost var bestIndex: Option<nat> := None;
    var k := 0;
    while k < |validMoves|
      invariant 0 <= k <= |validMoves|
      invariant gs.Valid() && gs.board == old(gs.board)
      invariant gs.Pos() == p.(enpassantPossible := gs.enpassantPossible)
      invariant gs.moveLog == old(gs.moveLog) && gs.castleRightLog == old(gs.castleRightLog)
      invariant (opponentMinMaxScore, bestIndex) == MinMaxChoice(scores[..k])
      invariant bestIndex.Some? ==> bestIndex.value < k && bestMove == Some(validMoves[bestIndex.value])
      invariant bestIndex.None? ==> bestMove == None
    {
      var playerMove := validMoves[k];
      var opponentsMaxScore := ScoreReplies(gs, p, legal, playerMove, turnMultiplier);
      assert opponentsMaxScore == scores[k];
      opponentMinMaxScore, bestMove, bestIndex := Compare(validMoves, scores, k, opponentsMaxScore,
                                                          opponentMinMaxScore, bestMove, bestIndex);
      k := k + 1;
    }
    assert scores[..k] == scores;
  }

  /** The comparison of the outer loop of `findBestMove`: the k-th move is taken when its
      score is strictly below the best so far. */
  method Compare(validMoves: seq<Move>, ghost scores: seq<int>, k: nat, opponentsMaxScore: int,
                 opponentMinMaxScore: int, bestMove: Option<Move>, ghost bestIndex: Option<nat>)
    returns (minScore: int, best: Option<Move>, ghost index: Option<nat>)
    requires k < |validMoves| == |scores| && opponentsMaxScore == scores[k]
    requires (opponentMinMaxScore, bestIndex) == MinMaxChoice(scores[..k])
    requires bestIndex.Some? ==> bestIndex.value < k && bestMove == Some(validMoves[bestIndex.value])
    requires bestIndex.None? ==> bestMove == None
    ensures (minScore, index) == MinMaxChoice(scores[..k + 1])
    ensures index.Some? ==> index.value < k + 1 && best == Some(validMoves[index.value])
    ensures index.None? ==> best == None
  {
    ChoiceStep(scores, k);
    if opponentsMaxScore < opponentMinMaxScore {
      minScore, best, index := opponentsMaxScore, Some(validMoves[k]), Some(k);
    } else {
      minScore, best, index := opponentMinMaxScore, bestMove, bestIndex;
    }
  }

  /** The body of the outer loop of `findBestMove` for the bot's move m: make it, generate
      the opponent's valid replies, score them, and undo m. */
  method ScoreReplies(gs: GameState, ghost p: Position, ghost legal: seq<Move>, m: Move, turnMultiplier: int)
    returns (opponentsMaxScore: int)
    requires gs.Valid() && Playable(p) && legal == ValidMoves(p) && m in legal
    requires gs.Pos() == p.(enpassantPossible := gs.enpassantPossible)
    requires turnMultiplier == TurnMultiplier(p.whiteToMove)
    modifies gs, gs.board
    ensures gs.Valid() && gs.board == old(gs.board)
    ensures gs.Pos() == p.(enpassantPossible := gs.enpassantPossible)
    ensures gs.moveLog == old(gs.moveLog) && gs.castleRightLog == old(gs.castleRightLog)
    ensures opponentsMaxScore == PlyScore(p, m)
  {
    ValidMoveIsSafeCandidate(p, m);
    ValidMovePreservesPlayable(p, m);
    ghost var before := gs.Pos();
    LeavesInCheckIgnoresTarget(p, gs.enpassantPossible, m);
    ghost var q := ApplyMove(p, m);
    gs.MakeMove(m);
    ghost var afterMake := gs.Pos();
    assert afterMake == q;
    var opponentsMoves := gs.GetValidMoves();
    ValidMovesFit(q);
    opponentsMaxScore := OpponentsBest(gs, q, opponentsMoves, turnMultiplier, p.whiteToMove);
    ghost var afterReplies := gs.Pos();
    gs.UndoMove();
    assert (old(gs.moveLog) + [m])[..|old(gs.moveLog)|] == old(gs.moveLog);
    UndoIgnoresTarget(q, afterReplies.enpassantPossible, m, p.castleRights);
    UndoAfterApply(before, m);
  }

  /** Undoing a move does the same to a position whatever its en-passant target, apart
      from the target itself. */
  lemma UndoIgnoresTarget(q: Position, e: Option<Coord>, m: Move, below: CastleRights)
    requires CastleInBounds(m)
    ensures UndoPosition(q.(enpassantPossible := e), m, below)
            == UndoPosition(q, m, below).(enpassantPossible := UndoPosition(q.(enpassantPossible := e), m, below).enpassantPossible)
  {
  }

  /** The inner loop of `findBestMove` over the opponent's valid replies in q. A reply is
      made, the board scored, and the reply undone. The mate flags were cleared by
      `getValidMoves`, which found these replies, and `makeMove` leaves them alone, so the
      checkmate and stalemate branches are never taken. */
  method OpponentsBest(gs: GameState, ghost q: Position, opponentsMoves: seq<Move>, turnMultiplier: int,
                       ghost white: bool) returns (opponentsMaxScore: int)
    requires gs.Valid() && gs.Pos() == q && forall i | 0 <= i < |opponentsMoves| :: Fits(q, opponentsMoves[i])
    requires opponentsMoves != [] ==> !gs.checkMate && !gs.staleMate
    requires turnMultiplier == TurnMultiplier(white)
    modifies gs, gs.board
    ensures gs.Valid() && gs.board == old(gs.board)
    ensures gs.Pos() == q.(enpassantPossible := gs.enpassantPossible)
    ensures gs.moveLog == old(gs.moveLog) && gs.castleRightLog == old(gs.castleRightLog)
    ensures AllCastleInBounds(opponentsMoves)
    ensures opponentsMaxScore == OpponentsMax(q.board, opponentsMoves, white)
  {
    opponentsMaxScore := -CHECKMATE;
    var j := 0;
    while j < |opponentsMoves|
      invariant 0 <= j <= |opponentsMoves|
      invariant gs.Valid() && gs.board == old(gs.board)
      invariant gs.Pos() == q.(enpassantPossible := gs.enpassantPossible)
      invariant gs.moveLog == old(gs.moveLog) && gs.castleRightLog == old(gs.castleRightLog)
      invariant opponentsMoves != [] ==> !gs.checkMate && !gs.staleMate
      invariant opponentsMaxScore == OpponentsMax(q.board, opponentsMoves[..j], white)
    {
      var opponentsMove := opponentsMoves[j];
      var score := ScoreReply(gs, q, opponentsMove, turnMultiplier, white);
      OpponentsMaxStep(q.board, opponentsMoves, j, white);
      if score > opponentsMaxScore {
        opponentsMaxScore := score;
      }
      j := j + 1;
    }
    assert opponentsMoves[..j] == opponentsMoves;
  }

  /** One more reply of the inner loop: its score replaces the best so far when higher. */
  lemma OpponentsMaxStep(b: Board, replies: seq<Move>, j: nat, white: bool)
    requires AllCastleInBounds(replies) && j < |replies|
    ensures AllCastleInBounds(replies[..j]) && AllCastleInBounds(replies[..j + 1])
    ensures var prev := OpponentsMax(b, replies[..j], white);
            var score := ReplyScore(b, replies[j], white);
            OpponentsMax(b, replies[..j + 1], white) == if score > prev then score else prev
  {
    assert replies[..j + 1][..j] == replies[..j];
  }

  /** The body of the inner loop of `findBestMove` for the reply m: make it, score the
      board (the mate branches cannot be taken, the flags being clear), and undo it. */
  method ScoreReply(gs: GameState, ghost q: Position, m: Move, turnMultiplier: int, ghost white: bool)
    returns (score: int)
    requires gs.Valid() && gs.Pos() == q.(enpassantPossible := gs.enpassantPossible) && Fits(q, m)
    requires !gs.checkMate && !gs.staleMate
    requires turnMultiplier == TurnMultiplier(white)
    modifies gs, gs.board
    ensures gs.Valid() && gs.board == old(gs.board)
    ensures gs.Pos() == q.(enpassantPossible := gs.enpassantPossible)
    ensures gs.moveLog == old(gs.moveLog) && gs.castleRightLog == old(gs.castleRightLog)
    ensures !gs.checkMate && !gs.staleMate
    ensures score == ReplyScore(q.board, m, white)
  {
    ghost var before := gs.Pos();
    gs.MakeMove(m);
    if gs.checkMate {
      assert false;
      score := -turnMultiplier * CHECKMATE;
    } else if gs.staleMate {
      assert false;
      score := STALEMATE;
    } else {
      var material := ScorePieces(gs.board);
      score := material * -turnMultiplier;
    }
    gs.UndoMove();
    assert (old(gs.moveLog) + [m])[..|old(gs.moveLog)|] == old(gs.moveLog);
    UndoAfterApply(before, m);
  }
}
