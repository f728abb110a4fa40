# Chess engine and one-ply bot, in Dafny

This project models two files of a small Python chess program.

The first is the rules engine, Chess/ChessEngine.py. It has a `GameState` class, the `CastleRights` record and the `Move` value. The `GameState` holds:
- an 8×8 board;
- the side to move;
- the cached king squares;
- the en-passant target and the castling rights;
- a move log and a castling-rights log;
- the checkmate and stalemate flags.

Its operations:
- `makeMove` and `undoMove` edit the board in place;
- one generator per piece kind appends pseudo-legal moves to a list;
- `getCastleMoves` adds castling;
- `getValidMoves` keeps the candidates that do not leave the mover's king attacked, probing each with make/undo, and then sets the mate flags;
- `underAttack` and `inCheck` test attacks.

The second is the bot, Chess/ChessBot.py. It has a material-and-placement evaluation `scorePieces` and a random mover. It also has `findBestMove`, a one-ply min-max search: it plays each move, scores every valid reply of the opponent, undoes both, and keeps the first move whose best reply scores lowest.

## Layout

- `pieces.dfy`: squares, colours, coordinates, and the board as a 64-cell row-major sequence.
- `moves.dfy`: `Move`, its packed `moveID`, `__eq__`, `isPawnPromo`, the constructor and the rank-file notation. Also `CastleRights`.
- `position.dfy`: the game state as a value (`Position`). `makeMove` and `undoMove` are functions on it (`ApplyMove`, `UndoPosition`), and the make/undo round trip is proved there.
- `generation.dfy`: the six piece generators, `getAllMoves` and `underAttack` as functions, with what every generated move satisfies.
- `legality.dfy`: castling, the in-check filter of `getValidMoves` (with `list.remove` modelled as written) and the resulting valid-move list.
- `invariants.dfy`: the invariants that positions reached from the opening keep, proved to be preserved by every valid move.
- `scoring.dfy`: `pieceScore`, the placement tables and `scorePieces`, the last both as a function and as the nested-loop method.
- `engine.dfy`: the `GameState` class.
  - The board is an `array` written cell by cell.
  - The logs are `seq` fields.
  - Every method is proved against the value-level functions above.
- `bot.dfy`: the constants, `findRandomMove` and `findBestMove`, with the nested loops over a `GameState`.

Scores are counted in half-points: every constant of the bot is a multiple of 0.5, so a score `s` here is `s / 2` in the program. Sums and comparisons agree exactly.

Behaviour modelled as the code has it:
- `scorePieces` reads rows 0–6 and columns 0–6 only.
- A black piece subtracts the same, unmirrored, table cell a white piece would add.
- Capturing a rook does not revoke castling rights. Castling copies whatever stands on the corner square. Promotion is always to a queen.
- `undoMove` sets the en-passant target only when undoing an en-passant capture, and clears it when undoing a double step. Otherwise it leaves the target alone.
- `getValidMoves` saves the target and the rights and puts them back. On an empty result it sets one flag and leaves the other as it was.
- `moves.remove(moves[i])` removes the first move equal by `moveID`. Since no two candidates are equal, this is the move at index i.
- In the inner loop of `findBestMove`, the checkmate and stalemate branches cannot be taken; the model shows this with `assert false`. A player move with no reply scores `-CHECKMATE`, whether the opponent is then mated or stalemated.
- `__init__` builds its first castling-rights log entry with the arguments in another order than the constructor's. All four rights are true at that point, so the entry equals the current rights and the model does not distinguish the orders.

## Model

| member | source | states |
|---|---|---|
| Moves.Move.MoveID | Chess/ChessEngine.py:484 | The packed identity is at most 7777 and its four decimal digits are, from the left, the start row, start column, end row and end column |
| Moves.Move.Equals | Chess/ChessEngine.py:495-498 | Two moves are equal exactly when their start squares and their end squares coincide, so `moveID` is injective on the board |
| Moves.NewMove | Chess/ChessEngine.py:477-492 | The constructor reads the moved piece from the start square and the captured piece from the end square. An en-passant move instead records the opposing pawn as captured. The flags are the arguments |
| Moves.GetRankFile | Chess/ChessEngine.py:505-506 | The notation of (r, c) is the file letter 'a' + c followed by the rank digit 8 − r, and the forward tables decode it back to (r, c) |
| Moves.Move.GetChessNotation | Chess/ChessEngine.py:501-502 | The notation is eight characters: the start square, " to ", then the end square, each decoding to its square |
| Moves.RankTablesInverse | Chess/ChessEngine.py:473-474 | `rowsToRanks` is `ranksToRows` with keys and values swapped, in both directions |
| Moves.FileTablesInverse | Chess/ChessEngine.py:475-476 | `colsToFiles` is `filesToCols` with keys and values swapped, in both directions |
| Position.UpdatedRights | Chess/ChessEngine.py:135-153 | A king move clears both rights of its colour. A rook of a colour leaving that colour's corner clears that corner's right. A rook from any other square changes nothing, and nor does any move of another piece, a rook capture included. No right is ever set |
| Position.UndoAfterApply | Chess/ChessEngine.py:59-130 | Undoing a move that fits the position restores the board, the turn, both king squares and the rights. The en-passant target comes back as the move's destination for an en-passant capture and as empty otherwise, so the position is restored exactly when that was the target |
| Position.PieceLands | Chess/ChessEngine.py:60-87 | After `makeMove` the destination holds the moved piece, or a queen of its colour when a pawn reached the far row; the castling rook never lands there, and only an en-passant clear on the destination's own row would empty it |
| Position.PromotesToQueen | Chess/ChessEngine.py:70-71 | A pawn that reaches the far row by a move that changes rows stands there as a queen of its colour |
| Legality.MovedPawnsInRange | Chess/ChessEngine.py:69-71 | If no pawn stands on its far row before a move, none does after it: promotion turns an arriving pawn into a queen, and a castle only copies along a row |
| Generation.PawnPushesSound | Chess/ChessEngine.py:220-223 | The straight pawn moves are generated moves of that pawn along its column, onto empty squares, capturing nothing. There is one exactly when the square ahead is empty; it comes first and goes one row forward. A second one goes two rows from the starting row over that empty square |
| Generation.PawnLeftSound | Chess/ChessEngine.py:225-230 | The left diagonal is a generated move one row forward and one column left. Unless en passant, it captures the enemy piece standing there. En passant, it goes onto the target. It is there exactly when a column lies to the left and that square holds an enemy piece or is the target |
| Generation.PawnRightSound | Chess/ChessEngine.py:231-236 | The right diagonal likewise, one column right, and there exactly when a column lies to the right and that square holds an enemy piece or is the target |
| Generation.PawnMovesSound | Chess/ChessEngine.py:217-255 | The pawn's moves are generated moves from its square, each to a different square |
| Generation.PawnDiagonalSound | Chess/ChessEngine.py:225-236 | One diagonal yields a generated move onto that square, capturing the enemy piece there or en passant onto the target, exactly when one of those is there |
| Generation.PawnDoubleStep | Chess/ChessEngine.py:222-223 | A pawn move covering two rows starts on row 6 (white) or row 1 (black), stays in its column, and passes over an empty square onto an empty square |
| Generation.RaySound | Chess/ChessEngine.py:264-273 | A ray started k steps out over empty squares yields generated moves in its heading, each at least k steps out. Each lies on a rank, file or diagonal with every square in between empty, so nothing past the first occupied square is reached. An occupied end square holds an enemy piece |
| Generation.RaysSound | Chess/ChessEngine.py:383-397 | Rays in distinct directions yield generated moves to distinct squares, each in one of those headings with only empty squares in between |
| Generation.RookMovesAreRays | Chess/ChessEngine.py:260-351 | The four while loops are the orthogonal rays, in the order the side to move scans them |
| Generation.RookMovesSound | Chess/ChessEngine.py:260-351 | Rook moves are generated moves to distinct squares on the rook's row or column, with every square in between empty |
| Generation.BishopMovesSound | Chess/ChessEngine.py:380-397 | Bishop moves are generated moves to distinct squares on a diagonal (equal row and column distance), with every square in between empty |
| Generation.QueenMovesSound | Chess/ChessEngine.py:405-407 | The queen's moves, the rook moves followed by the bishop moves, are generated moves to distinct squares on a rank, file or diagonal, with every square in between empty |
| Generation.JumpsSound | Chess/ChessEngine.py:367-375 | The spot loop yields generated moves, at none of the offsets already visited, and so to distinct squares |
| Generation.KnightMovesSound | Chess/ChessEngine.py:355-375 | Knight moves are generated moves to distinct squares, each two squares along one axis and one along the other |
| Generation.JumpsAtOffsets | Chess/ChessEngine.py:367-375 | Every move of the spot loop lands at one of the spots it visits, so a property all spots share holds of every move |
| Generation.KnightReaches | Chess/ChessEngine.py:355-375 | A knight reaches every square a knight's jump away that holds no piece of its side |
| Generation.RayReaches | Chess/ChessEngine.py:264-273 | A ray reaches every square in its heading with only empty squares before it and no piece of the mover's side on it. It therefore runs up to the first occupied square and includes that square exactly when it holds an enemy piece |
| Generation.RaysReach | Chess/ChessEngine.py:383-397 | The rays of a list of directions reach every such square in any of those directions |
| Generation.RookReaches | Chess/ChessEngine.py:260-351 | A rook reaches every other square of its row or column with only empty squares in between and no piece of its side on it |
| Generation.BishopReaches | Chess/ChessEngine.py:380-397 | A bishop reaches every other square of its diagonals with only empty squares in between and no piece of its side on it |
| Generation.QueenReaches | Chess/ChessEngine.py:405-407 | A queen reaches every other square of its rank, file or diagonals with only empty squares in between and no piece of its side on it |
| Generation.KingMovesSound | Chess/ChessEngine.py:412-434 | King moves are generated one-square steps to distinct squares |
| Generation.PieceMovesSound | Chess/ChessEngine.py:37-44 | The generator dispatched on a square yields generated moves of the piece there, each to a different square |
| Generation.RowMovesSound | Chess/ChessEngine.py:207-212 | One row of `getAllMoves` yields generated moves from that row, no two equal |
| Generation.AllMovesSound | Chess/ChessEngine.py:204-213 | Every move of `getAllMoves` takes a piece of the side to move to another square. That square holds no piece of that side, or, en passant, is the target reached by a diagonal pawn step. A king moves one square. No two moves are equal |
| Generation.AllMovesDoubleStep | Chess/ChessEngine.py:204-213 | Every two-row pawn move of `getAllMoves` is a double step from the starting row over empty squares |
| Generation.AttackedIgnoresTarget | Chess/ChessEngine.py:194-201 | Whether a square other than the en-passant target is attacked does not depend on the target |
| Generation.PieceMovesIgnoreTarget | Chess/ChessEngine.py:229-230 | The generator of a square reaches a square other than the target whatever the target is |
| Generation.KingReaches | Chess/ChessEngine.py:412-428 | A king reaches every neighbouring square on the board that holds no piece of its side |
| Generation.KingAttacks | Chess/ChessEngine.py:194-201 | A king attacks every neighbouring square that holds no piece of its own side |
| Legality.KingSideSound | Chess/ChessEngine.py:447-450 | With the right held, the king-side castle is offered at most once, and exactly when both squares to the king's right are empty and neither is attacked. It moves the king two columns right onto an empty square and fits the make/undo round trip |
| Legality.QueenSideSound | Chess/ChessEngine.py:454-457 | With the right held, the queen-side castle is offered at most once, and exactly when the three squares to the king's left are empty and the two nearest are not attacked; the third may be attacked. It moves the king two columns left onto an empty square and fits the make/undo round trip |
| Legality.CastleMovesSound | Chess/ChessEngine.py:438-444 | The castle moves of the king on its cached square are exactly the offered castles: none while that square is attacked, otherwise the king-side and queen-side castles whose right is held and whose squares qualify. They are two-column king moves along its row onto empty squares, to distinct squares, each fitting the round trip |
| Legality.CastleMovesOffered | Chess/ChessEngine.py:438-457 | For the king on any square, a move is among the castle moves exactly when the king's square is not attacked and the move is the king-side castle with its right held, both squares right empty and unattacked, or the queen-side castle with its right held, three squares left empty and the two nearest unattacked |
| Legality.CandidatesFit | Chess/ChessEngine.py:162-166 | Every candidate of a well-formed position can be made and undone exactly, and the castle writes stay on the board |
| Legality.CandidatesDistinct | Chess/ChessEngine.py:162-166 | No two candidates are equal by `moveID` |
| Legality.FirstEqual | Chess/ChessEngine.py:171 | `list.remove` finds the first entry equal by `moveID` |
| Legality.RemoveFirstMembers | Chess/ChessEngine.py:171 | `list.remove` only drops entries: every move left was in the list |
| Legality.RemoveAt | Chess/ChessEngine.py:171 | When the entries up to index n are pairwise unequal, `list.remove` of entry n removes index n and nothing else |
| Legality.KeepMembers | Chess/ChessEngine.py:167-173 | A move survives the filter exactly when it was in the list and is not rejected |
| Legality.BackFilterKeeps | Chess/ChessEngine.py:167-173 | Over a list without equal moves, the backward loop with `list.remove` removes exactly the rejected moves and keeps the rest in order |
| Legality.BackFilterCandidates | Chess/ChessEngine.py:167-173 | Run over the candidates, that loop leaves exactly the valid moves |
| Legality.LeavesInCheckIgnoresTarget | Chess/ChessEngine.py:168-170 | The in-check test after a move does not depend on the target before the move, which `makeMove` overwrites |
| Legality.ValidMovesAreSafeCandidates | Chess/ChessEngine.py:157-184 | A move is valid exactly when it is a candidate and, once made, does not leave the mover's king attacked |
| Legality.GeneratedFits | Chess/ChessEngine.py:204-255 | A generated move of a well-formed position fits the make/undo round trip |
| Invariants.MoverSafeAfter | Chess/ChessEngine.py:168-171 | After a move the mover's king is unattacked exactly when the move did not leave it in check |
| Invariants.KingsAfter | Chess/ChessEngine.py:64-68 | A move that takes no king keeps the cached king squares right |
| Invariants.CastleHomeAfter | Chess/ChessEngine.py:135-141 | A side still holding a right keeps its king at home after a move |
| Invariants.TargetAfterMove | Chess/ChessEngine.py:75-78 | After a move the en-passant target is empty, or the square a pawn of the side no longer to move just skipped |
| Invariants.CastleSafe | Chess/ChessEngine.py:83-87 | A castle that does not leave the king attacked never copies an enemy king: that king would land beside the castled king |
| Invariants.ValidMovePreservesPlayable | Chess/ChessEngine.py:157-184 | Every valid move of a playable position leads to a playable position |
| Invariants.ValidMovesFit | Chess/ChessEngine.py:157-184 | Every valid move fits the make/undo round trip |
| Scoring.TablesShape | Chess/ChessBot.py:71-141 | Every table has eight columns and eight rows, except the knight table with seven |
| Scoring.ScorePieces | Chess/ChessBot.py:144-156 | The nested loops compute the evaluation, summing over rows and columns 0 to 6 |
| Scoring.ScoreEmpty | Chess/ChessBot.py:144-156 | An empty board scores 0 |
| Scoring.SquareScoreBound | Chess/ChessBot.py:149-155 | One square moves the score by at most 8.5 (17 half-points), the queen's 8 plus its largest bonus |
| Scoring.ScoreBound | Chess/ChessBot.py:147-148 | The evaluation lies within 49 × 8.5 of zero |
| Scoring.ScoreRecolor | Chess/ChessBot.py:150-155 | Swapping the colour of every piece negates the score |
| Scoring.ScoreIgnoresLastRowAndColumn | Chess/ChessBot.py:147-148 | Boards that differ only on row 7 or column 7 score the same |
| Bot.ScoreInsideCheckmate | Chess/ChessBot.py:26 | The evaluation lies strictly between −CHECKMATE and CHECKMATE |
| Bot.FindRandomMove | Chess/ChessBot.py:30-31 | The random move is one of the valid moves |
| Bot.RandomMoveReachesAll | Chess/ChessBot.py:30-31 | Every valid move is the random move for some draw |
| Bot.ReplyScore | Chess/ChessBot.py:59 | A reply's score is the evaluation after it, from the opponent's side, within the evaluation's bound |
| Bot.OpponentsMax | Chess/ChessBot.py:51-62 | The opponent's best score is −CHECKMATE with no reply, and otherwise the maximum of the reply scores |
| Bot.MinMaxChoice | Chess/ChessBot.py:64-66 | The outer comparison picks the first position of the lowest score below CHECKMATE, or none when there is no such score |
| Bot.PlyScoreRange | Chess/ChessBot.py:51-62 | A move's score is between −CHECKMATE and the evaluation's bound. It is −CHECKMATE exactly when the opponent has no valid reply |
| Bot.BestMoveIsFirstMinimum | Chess/ChessBot.py:43-68 | `findBestMove` returns a move exactly when given one. It returns the first move whose opponent's best reply scores lowest |
| Bot.ReplylessPreferred | Chess/ChessBot.py:64-66 | When some move leaves the opponent no reply, the chosen move leaves it none either |
| Bot.FindBestMove | Chess/ChessBot.py:43-68 | The search returns the first move of lowest opponent's best score. It restores the board, turn, kings, rights and both logs |
| Bot.Compare | Chess/ChessBot.py:64-66 | A move is taken exactly when its score is strictly below the best so far |
| Bot.ScoreReplies | Chess/ChessBot.py:49-62 | Making the move, generating the replies, scoring them and undoing the move gives the move's score and restores the state apart from the target |
| Bot.OpponentsBest | Chess/ChessBot.py:52-62 | The reply loop computes the opponent's best score and restores the state apart from the target |
| Bot.ScoreReply | Chess/ChessBot.py:53-62 | One reply, made, scored and undone, scores the evaluation from the opponent's side. The mate branches are never taken |
| Engine.InitialWellformed | Chess/ChessEngine.py:17-35 | The opening position has no pawn on a far row, one king per side on its cached square, no target, and both kings at home |
| Engine.AnyEndsOn | Chess/ChessEngine.py:198-201 | The scan finds a move ending on (r, c) exactly when there is one |
| Engine.GameState.constructor | Chess/ChessEngine.py:25-54 | A new game has the opening board, white to move, the kings on e1 and e8, all rights, empty logs apart from the first rights entry, and no target |
| Engine.GameState.MakeMove | Chess/ChessEngine.py:59-96 | The state after the move is the applied position. The move is appended to its log and the new rights to theirs. The flags are untouched |
| Engine.GameState.UndoMove | Chess/ChessEngine.py:101-130 | On an empty log nothing changes. Otherwise the last move and its rights entry are popped and the position becomes the undone position |
| Engine.GameState.UpdateCastleRights | Chess/ChessEngine.py:135-153 | The rights become the updated rights of the move |
| Engine.GameState.SetEnPassantTarget | Chess/ChessEngine.py:75-78 | A double step makes the skipped square the target, and any other move clears it |
| Engine.GameState.RestoreEnPassantTarget | Chess/ChessEngine.py:113-118 | Undoing an en-passant capture sets the target to its destination. Undoing a double step clears it. Otherwise the target is kept |
| Engine.GameState.MoveOnBoard | Chess/ChessEngine.py:60-87 | The board writes of `makeMove`, cell by cell |
| Engine.GameState.UnmoveOnBoard | Chess/ChessEngine.py:104-130 | The board writes of `undoMove`, cell by cell |
| Engine.GameState.TrackKing | Chess/ChessEngine.py:65-68 | A moving king takes its colour's cached square along |
| Engine.GameState.GetPawnMoves | Chess/ChessEngine.py:217-255 | Appends exactly the pawn's moves |
| Engine.GameState.AppendRay | Chess/ChessEngine.py:264-273 | One while loop appends the empty squares and then the first enemy square of the ray |
| Engine.GameState.GetRookMoves | Chess/ChessEngine.py:260-351 | Appends exactly the rook's four rays |
| Engine.GameState.GetBishopMoves | Chess/ChessEngine.py:380-397 | Appends exactly the bishop's four diagonal rays |
| Engine.GameState.GetQueenMoves | Chess/ChessEngine.py:405-407 | Appends the rook moves, then the bishop moves |
| Engine.GameState.AppendJumps | Chess/ChessEngine.py:367-375 | The spot loop appends each spot on the board without a piece of the side to move |
| Engine.GameState.GetKnightMoves | Chess/ChessEngine.py:355-375 | Appends exactly the knight's moves |
| Engine.GameState.GetKingMoves | Chess/ChessEngine.py:412-434 | Appends exactly the king's moves |
| Engine.GameState.CallMoveFunction | Chess/ChessEngine.py:208-212 | Dispatches on the piece and appends that square's moves |
| Engine.GameState.VisitRow | Chess/ChessEngine.py:207-212 | Appends the moves of one row |
| Engine.GameState.AppendPawnDiagonal | Chess/ChessEngine.py:225-236 | One diagonal of a pawn: appends the capture of an enemy piece, or the en-passant capture onto the target |
| Engine.GameState.VisitSpot | Chess/ChessEngine.py:368-375 | One spot: the move there when it is on the board and holds no piece of the side to move, else nothing |
| Engine.GameState.GetAllMoves | Chess/ChessEngine.py:204-213 | Returns exactly the pseudo-legal moves of the side to move |
| Engine.GameState.UnderAttack | Chess/ChessEngine.py:194-201 | Reports whether the opponent attacks (r, c), and leaves the turn as it was |
| Engine.GameState.InCheck | Chess/ChessEngine.py:187-191 | Reports whether the king of the side to move is attacked |
| Engine.GameState.GetKingSideCastleMoves | Chess/ChessEngine.py:447-450 | Appends the king-side castle when both squares are empty and unattacked |
| Engine.GameState.GetQueenSideCastleMoves | Chess/ChessEngine.py:454-457 | Appends the queen-side castle when three squares are empty and the two next to the king are unattacked |
| Engine.GameState.GetCastleMoves | Chess/ChessEngine.py:438-444 | Appends nothing when the king is attacked. Otherwise it appends the castles whose rights are held |
| Engine.GameState.GetCandidates | Chess/ChessEngine.py:162-166 | Returns the pseudo-legal moves followed by the castle moves, each fitting the round trip, and leaves the turn as it was |
| Engine.GameState.VisitCandidate | Chess/ChessEngine.py:168-173 | One pass of the backward loop: probes entry i - 1 and removes it when it leaves the mover in check |
| Engine.GameState.FilteredCandidates | Chess/ChessEngine.py:159-173 | The candidates, filtered, are exactly the valid moves. Everything but the target is restored |
| Engine.GameState.TestMove | Chess/ChessEngine.py:168-173 | One probe reports whether the move leaves the mover in check and restores everything but the target |
| Engine.GameState.RemoveIllegal | Chess/ChessEngine.py:167-173 | The backward loop leaves the filtered list and restores the state apart from the target |
| Engine.GameState.SetMateFlags | Chess/ChessEngine.py:174-183 | With no moves, check sets `checkMate` and no check sets `staleMate`, the other flag unchanged. With moves, both are cleared. The saved target and rights are put back |
| Engine.GameState.GetValidMoves | Chess/ChessEngine.py:157-184 | Returns exactly the valid moves and sets the flags as above. Board, turn, kings, target, rights and both logs are unchanged |
| Position.ApplyMove | Chess/ChessEngine.py:59-96 | `makeMove` apart from the logs: the new board, the turn handed over, the king squares, the en-passant target and the updated rights |
| Position.MovedBoard | Chess/ChessEngine.py:60-87 | The board writes of `makeMove`, in order: vacate, place, promote, clear the pawn taken en passant, move the castling rook |
| Position.CastleRook | Chess/ChessEngine.py:81-87 | The castle's second write: the square beyond the king's destination copied next to it and emptied |
| Position.TargetAfter | Chess/ChessEngine.py:75-78 | The skipped square after a double step, otherwise no target |
| Position.UndoPosition | Chess/ChessEngine.py:101-130 | `undoMove` apart from the logs: the board put back, the turn handed back, the king squares, the target as restored and the rights entry below |
| Position.UnmovedBoard | Chess/ChessEngine.py:104-130 | The board writes of `undoMove`, in order |
| Position.UncastleRook | Chess/ChessEngine.py:124-130 | The castle's rook write reversed |
| Generation.PawnMoves | Chess/ChessEngine.py:217-255 | `getPawnMoves`: the pushes, then the left and the right diagonal |
| Generation.RookMoves | Chess/ChessEngine.py:260-351 | `getRookMoves`: the four orthogonal rays in the side's order |
| Generation.BishopMoves | Chess/ChessEngine.py:380-397 | `getBishopMoves`: the four diagonal rays |
| Generation.QueenMoves | Chess/ChessEngine.py:405-407 | `getQueenMoves`: rook moves, then bishop moves |
| Generation.KnightMoves | Chess/ChessEngine.py:355-375 | `getKnightMoves`: the eight spots in their order |
| Generation.KingMoves | Chess/ChessEngine.py:412-434 | `getKingMoves`: the eight neighbouring spots in their order |
| Generation.AllMoves | Chess/ChessEngine.py:204-213 | `getAllMoves`: every square row by row, each dispatched to its piece's generator |
| Generation.Attacked | Chess/ChessEngine.py:194-201 | `underAttack`: some move of the other side ends on the square |
| Legality.KingSideCastle | Chess/ChessEngine.py:447-450 | `getKingSideCastleMoves`: two empty, unattacked squares to the right |
| Legality.QueenSideCastle | Chess/ChessEngine.py:454-457 | `getQueenSideCastleMoves`: three empty squares to the left, the two nearest unattacked |
| Legality.CastleMoves | Chess/ChessEngine.py:438-444 | `getCastleMoves`: nothing when the king is attacked, otherwise the castles whose rights are held |
| Legality.Candidates | Chess/ChessEngine.py:162-166 | `getAllMoves` followed by the castles of the side to move |
| Legality.LeavesInCheck | Chess/ChessEngine.py:168-170 | The test in the loop: after the move, the mover's king is attacked |
| Legality.RemoveFirst | Chess/ChessEngine.py:171 | `list.remove`: the first element equal by `moveID` dropped |
| Legality.BackFilter | Chess/ChessEngine.py:167-173 | The backward loop with `list.remove` |
| Legality.ValidMoves | Chess/ChessEngine.py:157-184 | `getValidMoves`: the candidates that do not leave the mover in check |
| Scoring.PieceScore | Chess/ChessBot.py:25 | `pieceScore`, in half-points |
| Scoring.Table | Chess/ChessBot.py:134-141 | The `values` dictionary |
| Scoring.BoardScore | Chess/ChessBot.py:144-156 | `scorePieces`: over rows and columns 0 to 6 only, white pieces add and black pieces subtract their value plus their table entry |
| Bot.PlyScore | Chess/ChessBot.py:49-62 | The opponent's best reply score after the bot's move, or −CHECKMATE with no reply |
| Bot.BestMove | Chess/ChessBot.py:43-68 | `findBestMove`'s answer for the moves in the order given |

The rows from `Position.ApplyMove` on name the definitions the contracts are stated against. They have no contract of their own; the lemmas and methods in the rows above prove their properties.

## Left out

- Chess/ChessMain.py is not part of this model. It holds the window, the mouse and key handling, drawing and animation. Its only rule logic is matching a clicked move by `__eq__`, which `Moves.Move.Equals` covers.
- Randomness is a parameter. `random.randint` becomes the index `pick` of `FindRandomMove`. `random.shuffle` becomes the order in which `FindBestMove` receives `validMoves`, and every property holds for any order.
- Bot.FindBestMove: does not model that `random.shuffle` reorders the caller's list in place; the list is passed already in its shuffled order.
- Bot.FindBestMove: the comparison with the best score so far is placed after the undo of the player's move, where the code has it before. The comparison reads nothing the undo changes.
- Bot.FindBestMove: the en-passant target is not promised back. `undoMove` does not restore an earlier target, and the model states only that the board, turn, king squares, rights and both logs return.
- Bot.FindBestMove: says nothing about `checkMate` and `staleMate` on return. The code leaves them as the last `getValidMoves` of the loop set them, so `checkMate` can still be true when the last move examined mates.
- Bot.FindRandomMove: requires a non-empty list. On an empty list `random.randint(0, -1)` raises `ValueError`, and that error is not modelled.
- Floating point is replaced by half-point integers. Every constant is a multiple of 0.5, so this loses nothing.
- numpy negative-index wrap-around is not modelled. The generators require instead that no pawn stands on its far row; the opening has none and every move keeps it so (`Legality.MovedPawnsInRange`).
- Bot.FindBestMove: requires a playable position: well-formed, with the side that just moved not in check. `Invariants.ValidMovePreservesPlayable` proves every valid move keeps this. `Engine.InitialWellformed` proves the opening well-formed. The opening's king safety is not proved, since that needs all of white's opening moves generated.
- Engine.GameState.GetValidMoves: requires a well-formed position. On a position with, say, two white kings, the model says nothing.
- `moveFunctions` is a dispatch on the piece kind (`CallMoveFunction`), not a dictionary of bound methods.
- Engine.GameState.GetPawnMoves: the two colours are written once, with the row ahead and the enemy colour computed, and proved equal to the same list.
