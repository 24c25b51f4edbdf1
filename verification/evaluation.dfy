/**
 * The static evaluator and the scoring of candidates: `GetBoardValue`, the
 * exchange adjustment, the random term and the flag bonuses of
 * `SetMoveFlagAndValue`, and the legality filter, scoring and pawn bonus of
 * `EvaluateMoves`.
 *
 * The engine's floating-point steps are replaced by exact integer
 * equivalents: the rounded Euclidean distance by `RoundSqrt`, and the
 * truncating `(int)(value * 1.5f)` by `TruncThreeHalves`. The random term is
 * a parameter: the draw the generator returned, in `0 .. 99`.
 */
module Evaluation {
  import opened ChessBoard
  import opened MoveGen
  import opened Legality

  const PawnValue := 100
  const KnightValue := 320
  const BishopValue := 333
  const RookValue := 510
  const QueenValue := 880
  const KingValue := 10000
  const CheckValue := 500
  const CheckmateValue := 10000
  const RandomValue := 50

  /** The pawn-rank divisor in normal play, and once the half-move counter passes `DrawThreshold`. */
  const BaselinePawnRankModifier := 20
  const DontDrawPawnRankModifier := 1
  const DistKingModifier := 60

  /** The counter value above which pawn moves get `PawnPushBonus` and the modifier drops to 1. */
  const DrawThreshold := 30
  const PawnPushBonus := 1000

  // ----- Rounded distance -----

  /**
   * `Convert.ToInt32(Math.Sqrt(n))` for a natural `n`: the `k` with
   * `k * k - k < n <= k * k + k`, which is the integer nearest to the square
   * root (`RoundSqrtNearest`). No integer has a square root ending in exactly
   * .5, so the rounding mode never matters.
   */
  function RoundSqrt(n: nat): (k: nat)
    ensures n == 0 ==> k == 0
    ensures n > 0 ==> k * k - k < n <= k * k + k
  {
    if n == 0 then 0
    else
      var k := RoundSqrt(n - 1);
      if n > k * k + k then
        assert (k + 1) * (k + 1) - (k + 1) == k * k + k;
        assert (k + 1) * (k + 1) + (k + 1) == k * k + 3 * k + 2;
        k + 1
      else k
  }

  /** `t * t - t` never decreases on the naturals. */
  lemma {:induction false} SquareLessMonotone(a: nat, b: nat)
    requires a <= b
    ensures a * a - a <= b * b - b
    decreases b - a
  {
    if a < b {
      SquareLessMonotone(a, b - 1);
      assert (b - 1) * (b - 1) - (b - 1) == b * b - b - 2 * (b - 1);
    }
  }

  /** The rounded root is within one half of the real root: `(2k - 1)^2 < 4n < (2k + 1)^2`. */
  lemma RoundSqrtNearest(n: nat)
    requires n > 0
    ensures var k := RoundSqrt(n); (2 * k - 1) * (2 * k - 1) < 4 * n < (2 * k + 1) * (2 * k + 1)
  {
    var k := RoundSqrt(n);
    assert (2 * k - 1) * (2 * k - 1) == 4 * (k * k - k) + 1;
    assert (2 * k + 1) * (2 * k + 1) == 4 * (k * k + k) + 1;
  }

  /** So `t * t - t` being smaller forces `t` to be smaller. */
  lemma SquareLessStrict(a: nat, b: nat)
    ensures a * a - a < b * b - b ==> a < b
  {
    if b <= a {
      SquareLessMonotone(b, a);
    }
  }

  /** Only one natural satisfies the rounding bounds of a positive `n`. */
  lemma RoundSqrtUnique(n: nat, k: nat)
    requires n > 0 && k * k - k < n <= k * k + k
    ensures RoundSqrt(n) == k
  {
    var r := RoundSqrt(n);
    assert (r + 1) * (r + 1) - (r + 1) == r * r + r;
    assert (k + 1) * (k + 1) - (k + 1) == k * k + k;
    SquareLessStrict(r, k + 1);
    SquareLessStrict(k, r + 1);
  }

  /** Rounding bounds of a smaller and a larger argument put the roots in the same order. */
  lemma BoundsOrdered(k: nat, j: nat, n: int, m: int)
    requires k * k - k < n <= m <= j * j + j
    ensures k <= j
  {
    assert (j + 1) * (j + 1) - (j + 1) == j * j + j;
    SquareLessStrict(k, j + 1);
  }

  /** The rounded root grows with its argument. */
  lemma RoundSqrtMonotone(n: nat, m: nat)
    requires n <= m
    ensures RoundSqrt(n) <= RoundSqrt(m)
  {
    if n > 0 {
      BoundsOrdered(RoundSqrt(n), RoundSqrt(m), n, m);
    }
  }

  /** The rounded root of a perfect square is its root. */
  lemma RoundSqrtOfSquare(k: nat)
    requires k > 0
    ensures RoundSqrt(k * k) == k
  {
    RoundSqrtUnique(k * k, k);
  }

  /** Distances on the board round to at most 10: the squared distance is at most 98. */
  lemma RoundSqrtOnBoard(n: nat)
    requires n <= 110
    ensures RoundSqrt(n) <= 10
  {
    SquareLessStrict(RoundSqrt(n), 11);
  }

  lemma SquareOnBoard(d: int)
    requires -7 <= d <= 7
    ensures 0 <= d * d <= 49
  {
    var a := if d < 0 then -d else d;
    assert d * d == a * a;
    assert a * a <= 7 * a <= 49;
  }

  /** The squared distance between two squares. */
  function Dist2(s: Square, t: Square): (n: nat)
    ensures n <= 98
  {
    var dx := s.x - t.x;
    var dy := s.y - t.y;
    SquareOnBoard(dx);
    SquareOnBoard(dy);
    dx * dx + dy * dy
  }

  /**
   * The king-proximity term `distToKing` of `GetBoardValue` for a piece on
   * `s`: 10 when the enemy king is not on the board, 0 when it stands at
   * rounded distance below 2, and otherwise 10 minus the rounded distance.
   */
  function KingProximity(s: Square, king: Option<Square>): (d: int)
    ensures 0 <= d <= 10
    ensures king.None? ==> d == 10
    ensures king.Some? && RoundSqrt(Dist2(s, king.value)) < 2 ==> d == 0
    ensures king.Some? && RoundSqrt(Dist2(s, king.value)) >= 2 ==> d == 10 - RoundSqrt(Dist2(s, king.value))
  {
    if king.None? then 10
    else
      var dis := RoundSqrt(Dist2(s, king.value));
      RoundSqrtOnBoard(Dist2(s, king.value));
      var dis' := if dis < 2 then 10 else dis;
      10 - dis'
  }

  /** Among squares not next to it, the one nearer the enemy king never gets the smaller proximity. */
  lemma KingProximityMonotone(s: Square, t: Square, k: Square)
    requires Dist2(s, k) <= Dist2(t, k) && RoundSqrt(Dist2(s, k)) >= 2
    ensures KingProximity(t, Some(k)) <= KingProximity(s, Some(k))
  {
    RoundSqrtMonotone(Dist2(s, k), Dist2(t, k));
  }

  // ----- GetBoardValue -----

  /** The pawn-rank step: `pawnValue / PawnRankModifier`, a positive dividend so Dafny's division agrees with C#'s. */
  function RankStep(modifier: int): int
    requires modifier != 0
  {
    PawnValue / modifier
  }

  /** How many ranks a pawn on row `y` has advanced, in the source's terms. */
  function PawnAdvance(c: Color, y: int): int
  {
    if c == Black then y - 1 else 6 - y
  }

  /**
   * The unsigned worth of a non-empty piece on `s` in `GetBoardValue`: its
   * material value plus, for a pawn, the rank term, and for knights,
   * bishops, rooks and queens, the king-proximity term scaled by value / 60.
   * Kings count their material value only.
   */
  function Worth(piece: Piece, s: Square, proximity: int, modifier: int): (w: int)
    requires piece != Empty && modifier != 0
    ensures piece.kind == Pawn ==> w == ExchangeWorth(piece, s, modifier)
    ensures piece.kind == King ==> w == KingValue
    ensures piece.kind != Pawn && piece.kind != King ==>
      w == ExchangeWorth(piece, s, modifier) + (ExchangeWorth(piece, s, modifier) / DistKingModifier) * proximity
  {
    match piece.kind
    case Pawn => PawnValue + RankStep(modifier) * PawnAdvance(piece.color, s.y)
    case Rook => RookValue + (RookValue / DistKingModifier) * proximity
    case Knight => KnightValue + (KnightValue / DistKingModifier) * proximity
    case Bishop => BishopValue + (BishopValue / DistKingModifier) * proximity
    case Queen => QueenValue + (QueenValue / DistKingModifier) * proximity
    case King => KingValue
  }

  /** Worth is perspective-free and positive for every piece in normal play. */
  lemma WorthPositive(piece: Piece, s: Square, proximity: int, modifier: int)
    requires piece != Empty && 0 <= proximity <= 10 && (modifier == BaselinePawnRankModifier || modifier == DontDrawPawnRankModifier)
    ensures Worth(piece, s, proximity, modifier) >= 0
    ensures piece.kind != Pawn ==> Worth(piece, s, proximity, modifier) >= KnightValue
  {
  }

  /**
   * The contribution of square `s` to `GetBoardValue` from the point of view
   * of colour `me`: nothing for an empty square, otherwise the piece's worth,
   * counted for `me` or against it. A piece measures its distance to the
   * king of the other colour, located once per evaluation.
   */
  function SquareValue(b: Board, me: Color, modifier: int, whiteKing: Option<Square>, blackKing: Option<Square>, s: Square): int
    requires modifier != 0
  {
    var piece := At(b, s);
    if piece == Empty then 0
    else
      var colorMulti := if ColorOf(piece) == me then 1 else -1;
      var kingLocation := if ColorOf(piece) == Black then whiteKing else blackKing;
      colorMulti * Worth(piece, s, KingProximity(s, kingLocation), modifier)
  }

  /** The sum of a list of integers, front to back. */
  function Sum(xs: seq<int>): int
  {
    if xs == [] then 0 else xs[0] + Sum(xs[1..])
  }

  lemma {:induction false} SumNegate(xs: seq<int>, ys: seq<int>)
    requires |xs| == |ys| && forall i :: 0 <= i < |xs| ==> ys[i] == -xs[i]
    ensures Sum(ys) == -Sum(xs)
  {
    if xs != [] {
      SumNegate(xs[1..], ys[1..]);
    }
  }

  lemma {:induction false} SumZero(xs: seq<int>)
    requires forall i :: 0 <= i < |xs| ==> xs[i] == 0
    ensures Sum(xs) == 0
  {
    if xs != [] {
      SumZero(xs[1..]);
    }
  }

  /**
   * The square values in the order the two loops of `GetBoardValue` visit
   * them, row `y` outer and column `x` inner, which is the board's storage
   * order.
   */
  function SquareValues(b: Board, me: Color, modifier: int, whiteKing: Option<Square>, blackKing: Option<Square>): (vs: seq<int>)
    requires modifier != 0
    ensures |vs| == 64
    ensures forall i {:trigger SquareAt(i)} :: 0 <= i < 64 ==> vs[i] == SquareValue(b, me, modifier, whiteKing, blackKing, SquareAt(i))
  {
    seq(64, i requires 0 <= i < 64 => SquareValue(b, me, modifier, whiteKing, blackKing, SquareAt(i)))
  }

  /** `GetBoardValue`: both kings located first, then the square values of the whole board from the point of view of `me`, summed. */
  function BoardValue(b: Board, me: Color, modifier: int): int
    requires modifier != 0
  {
    Sum(SquareValues(b, me, modifier, FindPiece(b, P(King, White)), FindPiece(b, P(King, Black))))
  }

  /** Only `colorMulti` depends on the point of view: the two colours see every square with opposite signs. */
  lemma SquareValueAntisymmetric(b: Board, modifier: int, whiteKing: Option<Square>, blackKing: Option<Square>, s: Square)
    requires modifier != 0
    ensures SquareValue(b, White, modifier, whiteKing, blackKing, s) == -SquareValue(b, Black, modifier, whiteKing, blackKing, s)
  {
  }

  /** The two colours see opposite board values. */
  lemma BoardValueAntisymmetric(b: Board, modifier: int)
    requires modifier != 0
    ensures BoardValue(b, White, modifier) == -BoardValue(b, Black, modifier)
  {
    var whiteKing, blackKing := FindPiece(b, P(King, White)), FindPiece(b, P(King, Black));
    var black := SquareValues(b, Black, modifier, whiteKing, blackKing);
    var white := SquareValues(b, White, modifier, whiteKing, blackKing);
    forall i | 0 <= i < 64
      ensures white[i] == -black[i]
    {
      SquareValueAntisymmetric(b, modifier, whiteKing, blackKing, SquareAt(i));
    }
    SumNegate(black, white);
  }

  /**
   * The term `GetBoardValue` adds for square `s`: nothing for an empty
   * square; otherwise the piece's worth, measured to the king of the
   * piece's enemy colour, counted for `me` when the piece is `me`'s and
   * against `me` otherwise.
   */
  lemma BoardValueTerm(b: Board, me: Color, modifier: int, s: Square)
    requires modifier != 0
    ensures var term := SquareValues(b, me, modifier, FindPiece(b, P(King, White)), FindPiece(b, P(King, Black)))[s.x + 8 * s.y];
      && (At(b, s) == Empty ==> term == 0)
      && (At(b, s).P? ==>
            term == (if At(b, s).color == me then 1 else -1)
                    * Worth(At(b, s), s, KingProximity(s, FindPiece(b, P(King, Enemy(At(b, s).color)))), modifier))
  {
    assert SquareAt(s.x + 8 * s.y) == s;
  }

  /**
   * The reference term of square `s` in `GetBoardValue`, written without
   * `SquareValue`: nothing for an empty square, otherwise the piece's worth
   * measured to the king of its enemy colour, signed for the side `me`.
   */
  function EnemyKingTerm(b: Board, me: Color, modifier: int, s: Square): int
    requires modifier != 0
  {
    var piece := At(b, s);
    if piece == Empty then 0
    else (if piece.color == me then 1 else -1) * Worth(piece, s, KingProximity(s, FindPiece(b, P(King, Enemy(piece.color)))), modifier)
  }

  /** `GetBoardValue` is the sum of the reference terms over the board in storage order. */
  lemma BoardValueMeasuresEnemyKing(b: Board, me: Color, modifier: int)
    requires modifier != 0
    ensures BoardValue(b, me, modifier) == Sum(seq(64, i requires 0 <= i < 64 => EnemyKingTerm(b, me, modifier, SquareAt(i))))
  {
    var values := SquareValues(b, me, modifier, FindPiece(b, P(King, White)), FindPiece(b, P(King, Black)));
    var terms := seq(64, i requires 0 <= i < 64 => EnemyKingTerm(b, me, modifier, SquareAt(i)));
    forall i | 0 <= i < 64
      ensures values[i] == terms[i]
    {
      BoardValueTerm(b, me, modifier, SquareAt(i));
    }
    assert values == terms;
  }

  /** On a board with nothing on it every square is worth nothing. */
  lemma SquareValuesEmpty(b: Board, me: Color, modifier: int, whiteKing: Option<Square>, blackKing: Option<Square>)
    requires modifier != 0
    requires forall s: Square :: At(b, s) == Empty
    ensures forall i :: 0 <= i < 64 ==> SquareValues(b, me, modifier, whiteKing, blackKing)[i] == 0
  {
    var values := SquareValues(b, me, modifier, whiteKing, blackKing);
    forall i | 0 <= i < 64
      ensures values[i] == 0
    {
      var s := SquareAt(i);
      assert At(b, s) == Empty;
    }
  }

  /** A board with nothing on it is worth nothing to either side. */
  lemma NoPiecesNoValue(b: Board, me: Color, modifier: int)
    requires modifier != 0
    requires forall s: Square :: At(b, s) == Empty
    ensures BoardValue(b, me, modifier) == 0
  {
    var whiteKing, blackKing := FindPiece(b, P(King, White)), FindPiece(b, P(King, Black));
    SquareValuesEmpty(b, me, modifier, whiteKing, blackKing);
    SumZero(SquareValues(b, me, modifier, whiteKing, blackKing));
  }

  // ----- The exchange adjustment -----

  /**
   * `(int)(value * 1.5f)`: three halves of `v`, truncated toward zero. For
   * the magnitudes that occur the single-precision product is exact.
   */
  function TruncThreeHalves(v: int): (r: int)
    ensures v >= 0 ==> 2 * r <= 3 * v < 2 * r + 2
    ensures v < 0 ==> 2 * r - 2 < 3 * v <= 2 * r
  {
    if v >= 0 then v * 3 / 2 else -((-v) * 3 / 2)
  }

  /** The search of the exchange loop: some reply in the list lands on `t`. */
  function AnyReplyOnto(replies: seq<MoveData>, t: Square): (found: bool)
    ensures found <==> exists i :: 0 <= i < |replies| && replies[i].move.to == t
  {
    if replies == [] then false
    else if replies[0].move.to == t then true
    else
      var rest := AnyReplyOnto(replies[1..], t);
      assert forall i :: 1 <= i < |replies| ==> replies[i] == replies[1..][i - 1];
      rest
  }

  /**
   * The unsigned value the exchange step puts on a non-empty piece standing
   * on `to`: material, plus the rank term for a pawn; nothing for a king.
   */
  function ExchangeWorth(piece: Piece, to: Square, modifier: int): (w: int)
    requires piece != Empty && modifier != 0
    ensures piece.kind == Pawn ==> w == PawnValue + RankStep(modifier) * PawnAdvance(piece.color, to.y)
    ensures piece.kind == Knight ==> w == KnightValue
    ensures piece.kind == Bishop ==> w == BishopValue
    ensures piece.kind == Rook ==> w == RookValue
    ensures piece.kind == Queen ==> w == QueenValue
    ensures piece.kind == King ==> w == 0
    ensures piece.kind != Pawn && piece.kind != King ==> KnightValue <= w <= QueenValue
  {
    match piece.kind
    case Pawn => PawnValue + RankStep(modifier) * PawnAdvance(piece.color, to.y)
    case Rook => RookValue
    case Knight => KnightValue
    case Bishop => BishopValue
    case Queen => QueenValue
    case King => 0
  }

  /**
   * The amount the exchange step of `SetMoveFlagAndValue` subtracts: when
   * some reply of the other colour on the new board lands on the
   * destination, and that square is not empty, one and a half times the
   * worth of the piece there, counted for or against the mover.
   */
  function ExchangePenalty(md: MoveData, modifier: int): int
    requires modifier != 0
  {
    var piece := At(md.newBoard, md.move.to);
    if !AnyReplyOnto(MyMoves(md.newBoard, Enemy(md.color)), md.move.to) || piece == Empty then 0
    else
      var colorMulti := if ColorOf(piece) == md.color then 1 else -1;
      TruncThreeHalves(colorMulti * ExchangeWorth(piece, md.move.to, modifier))
  }

  /** Some pseudo-legal move of the colour opposing `c` lands on `t` on board `b`. */
  ghost predicate AttackedBy(b: Board, c: Color, t: Square)
  {
    exists m: Move :: PseudoLegal(b, Enemy(c), m) && m.to == t
  }

  /** The exchange search finds a reply onto `t` exactly when `t` is attacked by the other colour. */
  lemma RepliesOnto(b: Board, c: Color, t: Square)
    ensures AnyReplyOnto(MyMoves(b, Enemy(c)), t) <==> AttackedBy(b, c, t)
  {
    var replies := MyMoves(b, Enemy(c));
    if AnyReplyOnto(replies, t) {
      var i :| 0 <= i < |replies| && replies[i].move.to == t;
      MyMovesSound(b, Enemy(c), replies[i]);
    }
    if AttackedBy(b, c, t) {
      var m: Move :| PseudoLegal(b, Enemy(c), m) && m.to == t;
      MyMovesComplete(b, Enemy(c), m);
      var i :| 0 <= i < |replies| && replies[i] == NewMove(b, m, Enemy(c));
    }
  }

  /**
   * For a generated move the penalty is zero when the other colour cannot
   * land on the destination, and otherwise one and a half times the exchange
   * worth of the moved piece, counted for the mover.
   */
  lemma ExchangePenaltyOfGenerated(b: Board, c: Color, md: MoveData, modifier: int)
    requires md in MyMoves(b, c)
    requires modifier != 0
    ensures At(b, md.move.from).P? && At(b, md.move.from).color == c
    ensures !AttackedBy(md.newBoard, c, md.move.to) ==> ExchangePenalty(md, modifier) == 0
    ensures AttackedBy(md.newBoard, c, md.move.to) ==>
      ExchangePenalty(md, modifier) == TruncThreeHalves(ExchangeWorth(At(b, md.move.from), md.move.to, modifier))
  {
    AllMovesShape(b, Some(c), md);
    RepliesOnto(md.newBoard, c, md.move.to);
  }

  /**
   * The rank term counts the ranks a pawn has advanced from its own side: a
   * White pawn is worth what a Black pawn is worth on the mirrored row.
   */
  lemma PawnRankMirror(x: int, y: int, modifier: int)
    requires Valid(x, y) && modifier != 0
    ensures ExchangeWorth(P(Pawn, White), Sq(x, y), modifier) == ExchangeWorth(P(Pawn, Black), Sq(x, 7 - y), modifier)
  {
    assert PawnAdvance(White, y) == PawnAdvance(Black, 7 - y);
  }

  /** The exchange worth of a piece is never negative in normal play, and a king's is zero. */
  lemma ExchangeWorthBounds(piece: Piece, to: Square, modifier: int)
    requires piece != Empty && (modifier == BaselinePawnRankModifier || modifier == DontDrawPawnRankModifier)
    ensures ExchangeWorth(piece, to, modifier) >= 0
    ensures piece.kind == King ==> ExchangeWorth(piece, to, modifier) == 0
  {
  }

  /** The penalty a generated move pays is never negative, and a king move pays none. */
  lemma ExchangePenaltyBounds(b: Board, c: Color, md: MoveData, modifier: int)
    requires md in MyMoves(b, c)
    requires modifier == BaselinePawnRankModifier || modifier == DontDrawPawnRankModifier
    ensures ExchangePenalty(md, modifier) >= 0
    ensures At(b, md.move.from) == P(King, c) ==> ExchangePenalty(md, modifier) == 0
  {
    ExchangePenaltyOfGenerated(b, c, md, modifier);
    ExchangeWorthBounds(At(b, md.move.from), md.move.to, modifier);
  }

  // ----- Scoring -----

  /** A candidate with the flag and value `SetMoveFlagAndValue` gives it. */
  datatype Scored = Scored(data: MoveData, flag: Flag, value: int)

  /** The flag bonus: `checkValue` for Check and `checkmateValue` for Checkmate, which does not also get the Check bonus. */
  function FlagBonus(f: Flag): (v: int)
    ensures v == 0 <==> f == NoFlag
    ensures f == Check ==> v == CheckValue
    ensures f == Checkmate ==> v == CheckmateValue
  {
    match f
    case NoFlag => 0
    case Check => CheckValue
    case Checkmate => CheckmateValue
  }

  /** A value `random.Next(100)` can return. */
  type Draw = d: int | 0 <= d < 2 * RandomValue

  /** A candidate's score without the random term and the pawn bonus. */
  function Base(md: MoveData, modifier: int): int
    requires modifier != 0
  {
    BoardValue(md.newBoard, md.color, modifier) - ExchangePenalty(md, modifier) + FlagBonus(FlagOf(md))
  }

  /**
   * The arithmetic of `SetMoveFlagAndValue` once the board value, the
   * penalty and the flag are known: the two flag tests add the single bonus
   * of the flag, and the random term is centred on zero.
   */
  function AddTerms(value: int, penalty: int, flag: Flag, draw: Draw): (v: int)
    ensures v == value - penalty + FlagBonus(flag) + draw - RandomValue
  {
    var value1 := value - penalty;
    var value2 := value1 + (draw - RandomValue);
    var value3 := if flag == Check then value2 + CheckValue else value2;
    if flag == Checkmate then value3 + CheckmateValue else value3
  }

  /**
   * `SetMoveFlagAndValue` with `draw` the value `random.Next(100)` returned:
   * the flag, then the board value for the mover, minus the exchange
   * penalty, plus the random term `draw - 50`, plus the flag bonus.
   */
  function SetMoveFlagAndValue(md: MoveData, modifier: int, draw: Draw): (s: Scored)
    requires modifier != 0
    ensures s.data == md && s.flag == FlagOf(md)
    ensures s.value == Base(md, modifier) + draw - RandomValue
    ensures -RandomValue <= s.value - Base(md, modifier) < RandomValue
  {
    var flag := FlagOf(md);
    Scored(md, flag, AddTerms(BoardValue(md.newBoard, md.color, modifier), ExchangePenalty(md, modifier), flag, draw))
  }

  /** Two draws move a score by exactly their difference, so by less than 100. */
  lemma ScoreNoise(md: MoveData, modifier: int, d1: Draw, d2: Draw)
    requires modifier != 0
    ensures SetMoveFlagAndValue(md, modifier, d1).value - SetMoveFlagAndValue(md, modifier, d2).value == d1 - d2
  {
    var s1 := SetMoveFlagAndValue(md, modifier, d1);
    var s2 := SetMoveFlagAndValue(md, modifier, d2);
  }

  /** The candidate moves a pawn: the piece on its source square of the old board. */
  predicate MovesPawn(md: MoveData)
  {
    var piece := At(md.oldBoard, md.move.from);
    piece == P(Pawn, Black) || piece == P(Pawn, White)
  }

  /** The last loop of `EvaluateMoves`: past `DrawThreshold` half moves a pawn move gains `PawnPushBonus`. */
  function AddPawnBonus(s: Scored, halfMoves: int): (r: Scored)
    ensures r.data == s.data && r.flag == s.flag
    ensures r.value - s.value == (if halfMoves > DrawThreshold && MovesPawn(s.data) then PawnPushBonus else 0)
  {
    if halfMoves > DrawThreshold && MovesPawn(s.data) then Scored(s.data, s.flag, s.value + PawnPushBonus) else s
  }

  /** The scoring loop of `EvaluateMoves`: each candidate scored with its own draw, in list order. */
  function ScoreEach(legal: seq<MoveData>, draws: seq<Draw>, score: (MoveData, Draw) -> Scored): (r: seq<Scored>)
    requires |draws| >= |legal|
    ensures |r| == |legal|
    ensures forall i :: 0 <= i < |r| ==> r[i] == score(legal[i], draws[i])
  {
    if legal == [] then []
    else [score(legal[0], draws[0])] + ScoreEach(legal[1..], draws[1..], score)
  }

  /**
   * `EvaluateMoves`: the legal candidates, in the order the filter keeps
   * them, each scored with its own draw and then given the pawn bonus.
   */
  function EvaluateMoves(xs: seq<MoveData>, halfMoves: int, modifier: int, draws: seq<Draw>): (r: seq<Scored>)
    requires modifier != 0 && |draws| >= |LegalMoves(xs)|
    ensures |r| == |LegalMoves(xs)|
    ensures forall i :: 0 <= i < |r| ==> r[i].data == LegalMoves(xs)[i] && r[i].flag == FlagOf(r[i].data)
    ensures forall i :: 0 <= i < |r| ==>
      r[i].value == Base(r[i].data, modifier) + draws[i] - RandomValue
                    + (if halfMoves > DrawThreshold && MovesPawn(r[i].data) then PawnPushBonus else 0)
  {
    ScoreEach(LegalMoves(xs), draws, (md: MoveData, d: Draw) => AddPawnBonus(SetMoveFlagAndValue(md, modifier, d), halfMoves))
  }

  /**
   * Past the threshold a pawn move outscores a non-pawn move whose score
   * before noise and bonus is less than 901 higher, whatever the draws.
   */
  lemma PawnBonusDominates(p: MoveData, q: MoveData, halfMoves: int, modifier: int, dp: Draw, dq: Draw)
    requires modifier != 0
    requires halfMoves > DrawThreshold && MovesPawn(p) && !MovesPawn(q)
    requires Base(q, modifier) - Base(p, modifier) < PawnPushBonus - 2 * RandomValue + 1
    ensures AddPawnBonus(SetMoveFlagAndValue(q, modifier, dq), halfMoves).value < AddPawnBonus(SetMoveFlagAndValue(p, modifier, dp), halfMoves).value
  {
  }

  /**
   * In the list `EvaluateMoves` returns, past the threshold a pawn move
   * outscores a non-pawn move whose score before noise and bonus is less
   * than 901 higher, whatever the draws.
   */
  lemma EvaluatedPawnOutscores(xs: seq<MoveData>, halfMoves: int, modifier: int, draws: seq<Draw>, i: nat, j: nat)
    requires modifier != 0 && |draws| >= |LegalMoves(xs)|
    requires i < |LegalMoves(xs)| && j < |LegalMoves(xs)|
    requires halfMoves > DrawThreshold && MovesPawn(LegalMoves(xs)[i]) && !MovesPawn(LegalMoves(xs)[j])
    requires Base(LegalMoves(xs)[j], modifier) - Base(LegalMoves(xs)[i], modifier) < PawnPushBonus - 2 * RandomValue + 1
    ensures EvaluateMoves(xs, halfMoves, modifier, draws)[j].value < EvaluateMoves(xs, halfMoves, modifier, draws)[i].value
  {
    var legal := LegalMoves(xs);
    PawnBonusDominates(legal[i], legal[j], halfMoves, modifier, draws[i], draws[j]);
  }
}
