# A verified model of the StudentAI chess engine

`StudentAI` is a one-ply chess engine for the UvsChess framework. The
framework calls it in two ways:

- `GetNextMove` picks a move for a side. It generates every pseudo-legal
  move, drops those that leave the mover's king capturable, scores the rest
  with a static evaluator, and plays the best one.
- `IsValidMove` validates the opponent's move. It asks whether the move is
  among the engine's own legal candidates for that side.

This project models the engine as pure Dafny functions over an immutable
board and proves what each part computes:

- `board.dfy` (module `ChessBoard`): pieces, squares and the board.
  - The board is 64 cells stored row by row; the cell of `(x, y)` is `x + 8 * y`.
  - The tile tests `TileIsValid`, `TileIsFree`, `TileHasColor`,
    `GetChessPieceColor`, `EnemyColor` and `GetPiecePosition`.
  - The `MakeMove` this model assumes.
- `movegen.dfy` (module `MoveGen`): the move generator.
  - `ChessMoveData`, `AddPawnMoves`, `AddLeaperMoves`, `AddRiderMoves` and the
    per-piece tables, `GetAllMoves` and `GetMyMoves`.
  - Next to it sits a declarative reference, `PseudoLegal`. The generator is
    proved to produce exactly the moves the reference allows.
- `legality.dfy` (module `Legality`): king safety, judged by generating
  replies.
  - The legality filter of `EvaluateMoves`, the check flag and `InCheckmate`.
  - Each is related to a declarative reference, `KingAttacked`.
- `evaluation.dfy` (module `Evaluation`): the evaluator.
  - `GetBoardValue` with its exact integer rounded distance.
  - The exchange adjustment, the random term and the flag bonuses of
    `SetMoveFlagAndValue`.
  - The pawn bonus and scoring loop of `EvaluateMoves`.
- `engine.dfy` (module `Engine`): the two entry points.
  - The half-move counter and the static `PawnRankModifier` are carried in an
    explicit `Engine` value.

The generators are recursive functions that return their moves in the order
the source appends them. Random numbers are passed in as a list of draws,
one value of `random.Next(100)` per candidate.

With no enemy king on the board, `GetBoardValue` uses `distToKing = 10`
itself, the largest proximity term (`StudentAI/StudentAI.cs:543-546`), and
the model does the same.

## Model

| member | source | states |
|---|---|---|
| ChessBoard.Valid | StudentAI/StudentAI.cs:447-450 | The bounds test accepts exactly the coordinates 0..7 on both axes, so `Square` is exactly the 64 board squares. |
| ChessBoard.IsFree | StudentAI/StudentAI.cs:471-474 | A tile is free exactly when it has neither colour, which makes `TileIsFree` and `TileHasColor` (with either colour) mutually exclusive and jointly exhaustive. |
| ChessBoard.ColorOf | StudentAI/StudentAI.cs:452-457 | Reading the colour off the enum order, below or above `Empty`, gives exactly the piece's colour. Empty has no colour: the source throws there, and the model excludes it by precondition. |
| ChessBoard.Enemy | StudentAI/StudentAI.cs:459-462 | The enemy colour always differs from the given colour. |
| ChessBoard.HasColor | StudentAI/StudentAI.cs:464-469 | A tile has colour `c` exactly when it holds a piece and that piece's colour is `c`; an empty tile has no colour. |
| ChessBoard.FindPiece | StudentAI/StudentAI.cs:231-240 | The result holds the piece. No square earlier in the column-major scan holds it. `None` is returned exactly when no square holds it. |
| ChessBoard.IndexOf | StudentAI/StudentAI.cs:233-239 | The first position holding the value: it holds the value and no earlier position does. `None` only when the value is absent. |
| ChessBoard.Apply | StudentAI/StudentAI.cs:311-319 | The assumed `MakeMove` on a clone: the destination gets the moved piece, the source becomes empty, and every other square is unchanged. |
| MoveGen.NewMove | StudentAI/StudentAI.cs:311-331 | A candidate keeps the old board and the move and mover as given. Its new board differs from the old one only at the source and destination squares. |
| MoveGen.PawnPushes | StudentAI/StudentAI.cs:335-345 | At most two moves: exactly the forward pushes the reference allows. One step onto an empty square. Two steps only from rank 1 (Black) or rank 6 (White), with both squares empty. Black moves +y and White moves −y. |
| MoveGen.PawnCapture | StudentAI/StudentAI.cs:347-351 | A diagonal step yields a move exactly when that on-board square holds an enemy piece. The move lands there. |
| MoveGen.PawnMoves | StudentAI/StudentAI.cs:333-352 | At most four moves, and exactly those onto the squares the pawn reference allows: pushes onto empty squares, diagonals onto enemy pieces. |
| MoveGen.OpenToCases | StudentAI/StudentAI.cs:443 | The leaper's test "on the board, and free or enemy-held" is the same as "on the board and not own-held", the form the reach references use. |
| MoveGen.Leap | StudentAI/StudentAI.cs:438-445 | One offset yields at most one move. It yields one exactly when `(x+modX, y+modY)` is on the board and not own-held, and the move lands exactly there. |
| MoveGen.KnightOffsetsExact | StudentAI/StudentAI.cs:362-372 | The knight table holds exactly the eight jumps of one square along one axis and two along the other, each once. |
| MoveGen.KingOffsetsExact | StudentAI/StudentAI.cs:426-436 | The king table holds exactly the eight neighbouring steps, each once. |
| MoveGen.LeaperMoves | StudentAI/StudentAI.cs:362-372 | No more moves than offsets, so at most 8 for a knight or king. Exactly the moves onto on-board, not own-held squares at a table offset. |
| MoveGen.Ray | StudentAI/StudentAI.cs:394-424 | The moves along one direction are exactly those onto reachable squares: every square before the target is empty, and the target is empty or enemy-held. The walk terminates within 8 steps of the edge. |
| MoveGen.RayStopRule | StudentAI/StudentAI.cs:394-424 | With an occupied square at distance `k`, nothing beyond distance `k` is produced. An own piece at distance 1 blocks the direction entirely. |
| MoveGen.WalkIsScaled | StudentAI/StudentAI.cs:399-400 | Stepping a coordinate `i` times along a unit component is the source's `v + dv * i`, so the ray targets are the source's `(x + modX * i, y + modY * i)`. |
| MoveGen.RiderMoves | StudentAI/StudentAI.cs:354-392 | At most 7 moves per direction. Exactly the moves onto squares some ray of the table reaches. |
| MoveGen.DirectionTablesExact | StudentAI/StudentAI.cs:354-392 | The rook table is exactly the orthogonal unit directions, the bishop table exactly the diagonal ones, and the queen table all eight. |
| MoveGen.PieceMoves | StudentAI/StudentAI.cs:262-297 | The dispatch on the piece kind produces exactly the moves the reach reference of that kind allows. |
| MoveGen.SquareMoves | StudentAI/StudentAI.cs:258-263 | Empty squares and pieces the colour filter rejects contribute nothing. Otherwise the square contributes exactly the pseudo-legal moves of its piece, all with the piece's colour. |
| MoveGen.BoardScanMembers | StudentAI/StudentAI.cs:253-301 | The row and column loops collect an element exactly when some square produces it. |
| MoveGen.AllMoves | StudentAI/StudentAI.cs:251-302 | The candidates of `GetAllMoves`; its contract is stated by `AllMovesSound`, `AllMovesComplete`, `AllMovesShape` and `AllColorsExact`. |
| MoveGen.MyMoves | StudentAI/StudentAI.cs:247-250 | `GetMyMoves` is the scan filtered to one colour; its contract is stated by `MyMovesExact`: exactly the pseudo-legal moves of that colour. |
| MoveGen.AllMovesSound | StudentAI/StudentAI.cs:251-302 | Every candidate of `GetAllMoves` has an admitted colour, was built from the board, and is pseudo-legal for its mover. |
| MoveGen.AllMovesComplete | StudentAI/StudentAI.cs:251-302 | Every pseudo-legal move of an admitted colour appears as a candidate. |
| MoveGen.AllMovesShape | StudentAI/StudentAI.cs:255-291 | Every candidate starts on a piece of its colour and lands on a different, on-board square that is not own-held. Its new board moves that piece and changes nothing else. |
| MoveGen.MyMovesExact | StudentAI/StudentAI.cs:247-250 | `GetMyMoves(b, c)` yields only candidates of colour `c` built from `b`. It contains the candidate for a move iff the move is pseudo-legal for `c`. |
| MoveGen.AllColorsExact | StudentAI/StudentAI.cs:251-260 | Without the colour filter, the scan yields exactly the union of the Black and White candidates. |
| Legality.AnyHitsKing | StudentAI/StudentAI.cs:114-123 | The search with early exit finds a reply exactly when some reply in the list lands on the enemy king. |
| Legality.HitsKingMeaning | StudentAI/StudentAI.cs:117-118 | The two-case colour test says: the destination on the reply's old board holds the king of the other colour. |
| Legality.RepliesHitKing | StudentAI/StudentAI.cs:112-123 | Searching the generated replies of colour `a` finds a king capture iff the reference `KingAttacked` holds for the other colour's king. |
| Legality.Safe | StudentAI/StudentAI.cs:485-501 | The filter test of `EvaluateMoves`; `SafeMeaning` proves it holds iff the mover's king is not attacked on the new board. |
| Legality.SafeMeaning | StudentAI/StudentAI.cs:485-501 | A candidate survives the filter iff its move does not leave the mover's own king attacked on the new board. |
| Legality.LegalMoves | StudentAI/StudentAI.cs:480-503 | The filter keeps a candidate iff it is in the input and safe, and never lengthens the list. |
| Legality.LegalMovesSubsequence | StudentAI/StudentAI.cs:480-503 | The filter's output is an order-preserving subsequence of its input. |
| Legality.LegalMovesIdempotent | StudentAI/StudentAI.cs:480-503 | Filtering twice gives the same list as filtering once. |
| Legality.LegalMyMovesExact | StudentAI/StudentAI.cs:480-503 | The legal candidates of `c` are exactly the pseudo-legal moves after which `c`'s king is not attacked. |
| Legality.GivesCheck | StudentAI/StudentAI.cs:112-126 | The check test; `GivesCheckMeaning` proves it holds iff the enemy king is attacked on the new board. |
| Legality.GivesCheckMeaning | StudentAI/StudentAI.cs:112-126 | The check test is true iff the enemy king is attacked on the new board. |
| Legality.AllRepliesAnswered | StudentAI/StudentAI.cs:206-226 | The outer loop answers true iff every enemy reply leaves a counter-reply onto the enemy king. |
| Legality.InCheckmate | StudentAI/StudentAI.cs:199-229 | With no enemy reply at all the answer is true: the vacuous case. |
| Legality.InCheckmateMeaning | StudentAI/StudentAI.cs:199-229 | `InCheckmate` holds iff after every pseudo-legal enemy reply the enemy king is attacked. |
| Legality.FlagOf | StudentAI/StudentAI.cs:125-131 | The flag is set iff the move gives check, and it is Checkmate iff the move gives check and `InCheckmate` holds. So Checkmate is never set without Check. |
| Evaluation.RoundSqrt | StudentAI/StudentAI.cs:549 | `Convert.ToInt32(Math.Sqrt(n))` as the natural `k` with `k*k - k < n <= k*k + k`, with 0 for 0. |
| Evaluation.RoundSqrtNearest | StudentAI/StudentAI.cs:549 | The result is within one half of the real square root: `(2k-1)^2 < 4n < (2k+1)^2`. |
| Evaluation.RoundSqrtUnique | StudentAI/StudentAI.cs:549 | Only one natural satisfies the rounding bounds, so the rounding is determined. |
| Evaluation.RoundSqrtMonotone | StudentAI/StudentAI.cs:549 | A larger squared distance never rounds to a smaller distance. |
| Evaluation.RoundSqrtOfSquare | StudentAI/StudentAI.cs:549 | The rounded root of a perfect square is its root. |
| Evaluation.KingProximity | StudentAI/StudentAI.cs:539-552 | `distToKing` lies in 0..10. It is 10 when the enemy king is absent, 0 when that king is at rounded distance below 2, and otherwise 10 minus the rounded distance to it. |
| Evaluation.KingProximityMonotone | StudentAI/StudentAI.cs:549-551 | Away from the king's neighbourhood, a square nearer the enemy king never gets the smaller proximity term. |
| Evaluation.Worth | StudentAI/StudentAI.cs:554-594 | The unsigned worth in `GetBoardValue` against the exchange worth: equal for a pawn, the king's material value for a king, and for the other pieces the exchange worth plus its sixtieth times the proximity term. |
| Evaluation.WorthPositive | StudentAI/StudentAI.cs:554-594 | With either modifier, every piece's unsigned worth is non-negative, and every non-pawn is worth at least a knight. |
| Evaluation.SquareValue | StudentAI/StudentAI.cs:536-598 | One square's term of `GetBoardValue`; `BoardValueTerm` states it for the kings `GetBoardValue` looks up, and `SquareValueAntisymmetric` its sign. |
| Evaluation.BoardValueTerm | StudentAI/StudentAI.cs:528-598 | In the sum, an empty square adds 0 and a piece adds its worth measured to the king of its enemy colour, with sign +1 for the side evaluated and −1 for the other. |
| Evaluation.SquareValueAntisymmetric | StudentAI/StudentAI.cs:536-538 | Only `colorMulti` depends on the point of view: White and Black see every square with opposite signs. |
| Evaluation.BoardValue | StudentAI/StudentAI.cs:526-603 | `GetBoardValue`; its contract is stated by `BoardValueMeasuresEnemyKing`, `BoardValueAntisymmetric` and `NoPiecesNoValue`. |
| Evaluation.BoardValueMeasuresEnemyKing | StudentAI/StudentAI.cs:526-603 | `GetBoardValue` is the sum over the 64 squares of a reference term. The term is 0 for an empty square, and otherwise the piece's worth measured to the king of the piece's enemy colour, counted + for the side evaluated and − for the other. |
| Evaluation.BoardValueAntisymmetric | StudentAI/StudentAI.cs:526-603 | `GetBoardValue(b, White) == -GetBoardValue(b, Black)`. |
| Evaluation.NoPiecesNoValue | StudentAI/StudentAI.cs:526-603 | An empty board is worth 0 to either side, kings or not. |
| Evaluation.TruncThreeHalves | StudentAI/StudentAI.cs:185 | `(int)(value * 1.5f)` is three halves of the value truncated toward zero, bounded within one half on both signs. |
| Evaluation.AnyReplyOnto | StudentAI/StudentAI.cs:134-139 | The exchange search finds a reply exactly when some reply in the list lands on the destination. |
| Evaluation.RepliesOnto | StudentAI/StudentAI.cs:133-139 | Searching the generated enemy replies for one onto `t` succeeds iff `t` is attacked by a pseudo-legal enemy move. |
| Evaluation.ExchangeWorth | StudentAI/StudentAI.cs:143-184 | A pawn is worth 100 plus `100 / modifier` per rank advanced from its own side. A knight is worth 320, a bishop 333, a rook 510 and a queen 880; a king is worth nothing in the exchange. |
| Evaluation.PawnRankMirror | StudentAI/StudentAI.cs:147-155 | The pawn's rank term is measured from each side's start: a White pawn on row `y` is worth what a Black pawn is worth on row `7 - y`. |
| Evaluation.ExchangePenalty | StudentAI/StudentAI.cs:133-188 | The exchange step's subtraction; `ExchangePenaltyOfGenerated` and `ExchangePenaltyBounds` state its contract for generated moves. |
| Evaluation.ExchangePenaltyOfGenerated | StudentAI/StudentAI.cs:133-188 | For a generated move the penalty is 0 when the destination is not attacked. Otherwise it is one and a half times the moved piece's exchange worth, counted for the mover. |
| Evaluation.ExchangePenaltyBounds | StudentAI/StudentAI.cs:133-188 | For a generated move the penalty is never negative, and a king move pays none. |
| Evaluation.FlagBonus | StudentAI/StudentAI.cs:193-196 | No bonus without a flag; Check gives exactly 500; Checkmate gives exactly 10000 and not also the check bonus. |
| Evaluation.AddTerms | StudentAI/StudentAI.cs:185-196 | The source's sequence of additions equals board value, minus penalty, plus the single bonus of the flag, plus the centred random term. |
| Evaluation.SetMoveFlagAndValue | StudentAI/StudentAI.cs:110-197 | The candidate keeps its data and gets the flag of `FlagOf`. Its value is the noise-free base plus the draw minus 50, so it lies within [−50, 49] of the base. |
| Evaluation.ScoreNoise | StudentAI/StudentAI.cs:190-191 | Two draws change a score by exactly their difference; nothing else in the score depends on the draw. |
| Evaluation.AddPawnBonus | StudentAI/StudentAI.cs:511-521 | Past 30 half moves a pawn move gains exactly 1000; otherwise nothing changes, and the flag and data never change. |
| Evaluation.ScoreEach | StudentAI/StudentAI.cs:505-509 | Every candidate is scored with its own draw, in list order, and the list length is kept. |
| Evaluation.EvaluateMoves | StudentAI/StudentAI.cs:478-524 | The result has one scored candidate per legal candidate, in the filter's order. Each carries that candidate and its check/checkmate flag, and its value is the noise-free base plus its own draw minus 50, plus 1000 for a pawn move past 30 half moves. |
| Evaluation.PawnBonusDominates | StudentAI/StudentAI.cs:511-521 | Past the threshold, a pawn move beats a non-pawn move whose base score is less than 901 higher, whatever the draws. |
| Evaluation.EvaluatedPawnOutscores | StudentAI/StudentAI.cs:505-521 | In the list `EvaluateMoves` returns, past the threshold a pawn move outscores a non-pawn move whose base score is less than 901 higher, whatever the draws. |
| Engine.ModifierFor | StudentAI/StudentAI.cs:58 | The modifier is 1 iff more than 30 half moves have been counted, otherwise 20. |
| Engine.CountHalfMove | StudentAI/StudentAI.cs:85-88 | A pawn move resets the counter to 0; any other move adds one. |
| Engine.BestIndex | StudentAI/StudentAI.cs:63-66 | The chosen candidate has a value no smaller than any other, and it is the first such candidate. |
| Engine.ListContains | StudentAI/StudentAI.cs:242-245 | True exactly when some scored candidate carries the move. |
| Engine.Judge | StudentAI/StudentAI.cs:107 | Empty source square: throws. Otherwise accepts iff the piece has the mover's colour and a candidate carries the move. |
| Engine.IsValidMove | StudentAI/StudentAI.cs:94-108 | The counter is updated from the source square before validation. The call throws exactly when that square is empty. |
| Engine.IsValidMoveExact | StudentAI/StudentAI.cs:94-108 | A move is accepted iff it is pseudo-legal for the mover and does not leave the mover's king attacked. |
| Engine.PickMove | StudentAI/StudentAI.cs:63-66 | No choice exactly when there is no candidate. Otherwise a candidate of the list of greatest value, whose move the list carries. |
| Engine.GetNextMove | StudentAI/StudentAI.cs:40-92 | The modifier is set from the counter. There is no move iff no legal candidate exists. Otherwise the returned candidate is legal, was built from the board for the mover, carries that move's Check/Checkmate flag, and is of greatest score. The counter is reset on a pawn move and incremented otherwise. The state invariant is kept. |
| Engine.ChosenIsCandidate | StudentAI/StudentAI.cs:60-70 | A candidate of the scored list was built from the board for its own move, and carries that move's flag. |
| Engine.InitialInv | StudentAI/StudentAI.cs:22-27 | The state before the first call, no half moves and the baseline modifier, satisfies the invariant every reachable state keeps. |
| Engine.IsValidMoveKeepsInv | StudentAI/StudentAI.cs:100-103 | Validation keeps the counter non-negative and the modifier one of its two values. |
| Engine.ChosenMoveValidates | StudentAI/StudentAI.cs:40-108 | Whatever its state and draws, the validator accepts the move the engine chooses for the same side. |

## Left out

- The profiler, `Log`, `Name`, `IsMyTurnOver` and `SetDecisionTree`: host-framework plumbing with no effect on the move.
- `new Random()`: each call of `random.Next(100)` becomes a `Draw` value in 0..99, taken from a list passed in by the caller.
- `Math.Sqrt`, `Math.Pow` and `Convert.ToInt32` are floating point. They are replaced by the exact integer rounding `RoundSqrt`. No integer's square root ends in exactly .5, so the rounding mode does not matter.
- `(int)(value * 1.5f)` is modelled as exact three halves truncated toward zero. Every value the exchange step produces is small enough for the single-precision product to be exact.
- `ChessBoard`, `ChessMove`, `ChessLocation`, `Clone` and `MakeMove` belong to the host library. They are replaced by the model's own types. `MakeMove` is assumed to move the piece, empty the source square and promote nothing.
- Off-board locations: every location the generators build has passed `TileIsValid` first, so squares are an on-board subset type.
- Engine.IsValidMove: the move to validate comes from the host and is assumed to have on-board source and destination squares. The source answers false for an on-board source with an off-board destination, and indexes the board out of range for an off-board source; neither case is modelled.
- `ChessMove ==` in `MoveDataListContains` is assumed to compare the source and destination squares only. The flag and value of the move being validated are not modelled.
- `allMoves.Sort()`, `Reverse()` and the move comparator `CompareTo` belong to the host library. The choice is modelled as the first candidate of greatest value, and the contract of `GetNextMove` only promises some candidate of greatest value.
- `First()` on an empty list throws in the source. `GetNextMove` returns `None` there and leaves the counter as it was.
- The static `PawnRankModifier` is a field of the `Engine` value instead of global state. `IsValidMove` uses the modifier the last `GetNextMove` set, as the source does.
- `openMoveValue` is declared but never used by the source.
- The `default` branches that throw on an unknown piece kind cannot be reached once Empty is skipped, so they are not modelled.
- Scores inside `IsValidMove`: the validator scores every candidate, as the source does, but it then only asks which moves the candidates carry, so the scores themselves play no part in its answer.
