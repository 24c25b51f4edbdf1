/**
 * King safety as the engine judges it, by generating replies rather than by
 * an attack table: the legality filter at the top of `EvaluateMoves`, the
 * check test and flag of `SetMoveFlagAndValue`, and `InCheckmate`.
 *
 * Each search loop (`foreach ... break`) is a recursive function over the
 * reply list, and each is related to a declarative reference, `KingAttacked`,
 * which speaks of pseudo-legal moves directly.
 */
module Legality {
  import opened ChessBoard
  import opened MoveGen

  /**
   * The test inside every reply loop: the reply's destination, on the board
   * the reply was made from, holds the king of the colour opposing `c`. The
   * source writes it as two cases, Black taking the White king and White
   * taking the Black king.
   */
  predicate HitsKing(c: Color, reply: MoveData)
  {
    var tile := At(reply.oldBoard, reply.move.to);
    (c == Black && tile == P(King, White)) || (c == White && tile == P(King, Black))
  }

  lemma HitsKingMeaning(c: Color, reply: MoveData)
    ensures HitsKing(c, reply) <==> At(reply.oldBoard, reply.move.to) == P(King, Enemy(c))
  {
  }

  /** The search with early exit: some reply in the list, made by colour `c`, lands on the enemy king. */
  function AnyHitsKing(c: Color, replies: seq<MoveData>): (found: bool)
    ensures found <==> exists i :: 0 <= i < |replies| && HitsKing(c, replies[i])
  {
    if replies == [] then false
    else if HitsKing(c, replies[0]) then true
    else
      var rest := AnyHitsKing(c, replies[1..]);
      assert forall i :: 1 <= i < |replies| ==> replies[i] == replies[1..][i - 1];
      rest
  }

  /**
   * The reference: on board `b` the king of colour `c` stands on a square
   * that some pseudo-legal move of the other colour lands on.
   */
  ghost predicate KingAttacked(b: Board, c: Color)
  {
    exists m: Move :: PseudoLegal(b, Enemy(c), m) && At(b, m.to) == P(King, c)
  }

  lemma EnemyInvolutive(c: Color)
    ensures Enemy(Enemy(c)) == c
  {
  }

  /**
   * Searching the generated replies of colour `a` on `b` for one that lands
   * on the enemy king finds one exactly when that king is attacked.
   */
  lemma RepliesHitKing(b: Board, a: Color)
    ensures AnyHitsKing(a, MyMoves(b, a)) <==> KingAttacked(b, Enemy(a))
  {
    var replies := MyMoves(b, a);
    EnemyInvolutive(a);
    if AnyHitsKing(a, replies) {
      var i :| 0 <= i < |replies| && HitsKing(a, replies[i]);
      MyMovesSound(b, a, replies[i]);
      assert PseudoLegal(b, Enemy(Enemy(a)), replies[i].move);
    }
    if KingAttacked(b, Enemy(a)) {
      var m: Move :| PseudoLegal(b, Enemy(Enemy(a)), m) && At(b, m.to) == P(King, Enemy(a));
      MyMovesComplete(b, a, m);
      var i :| 0 <= i < |replies| && replies[i] == NewMove(b, m, a);
      assert HitsKing(a, replies[i]);
    }
  }

  // ----- The legality filter -----

  /**
   * A candidate survives the filter of `EvaluateMoves` when no reply of the
   * other colour, generated on the candidate's new board, lands on the
   * square of the mover's king.
   */
  predicate Safe(md: MoveData)
  {
    !AnyHitsKing(Enemy(md.color), MyMoves(md.newBoard, Enemy(md.color)))
  }

  /** `Safe` against the reference: the move does not leave the mover's own king attacked. */
  lemma SafeMeaning(md: MoveData)
    ensures Safe(md) <==> !KingAttacked(md.newBoard, md.color)
  {
    RepliesHitKing(md.newBoard, Enemy(md.color));
    EnemyInvolutive(md.color);
  }

  /** The first loop of `EvaluateMoves`: keep, in order, the candidates that are `Safe`. */
  function LegalMoves(xs: seq<MoveData>): (r: seq<MoveData>)
    ensures |r| <= |xs|
    ensures forall md :: md in r <==> md in xs && Safe(md)
  {
    if xs == [] then []
    else
      var rest := LegalMoves(xs[1..]);
      assert forall md :: md in xs <==> md == xs[0] || md in xs[1..];
      if Safe(xs[0]) then [xs[0]] + rest else rest
  }

  /** `a` is `b` with some elements dropped, the rest kept in their order. */
  predicate Subsequence<T(==)>(a: seq<T>, b: seq<T>)
    decreases |b|
  {
    if a == [] then true
    else if b == [] then false
    else (a[0] == b[0] && Subsequence(a[1..], b[1..])) || Subsequence(a, b[1..])
  }

  /** The filter keeps the order of its input. */
  lemma {:induction false} LegalMovesSubsequence(xs: seq<MoveData>)
    ensures Subsequence(LegalMoves(xs), xs)
  {
    if xs != [] {
      LegalMovesSubsequence(xs[1..]);
      var r := LegalMoves(xs);
      if Safe(xs[0]) {
        assert r[1..] == LegalMoves(xs[1..]);
      } else if r != [] {
        assert Subsequence(r, xs[1..]);
      }
    }
  }

  /** A list of safe candidates passes through the filter unchanged. */
  lemma {:induction false} LegalMovesKeepsSafe(xs: seq<MoveData>)
    requires forall i :: 0 <= i < |xs| ==> Safe(xs[i])
    ensures LegalMoves(xs) == xs
  {
    if xs != [] {
      LegalMovesKeepsSafe(xs[1..]);
      assert [xs[0]] + xs[1..] == xs;
    }
  }

  /** Filtering twice is filtering once. */
  lemma LegalMovesIdempotent(xs: seq<MoveData>)
    ensures LegalMoves(LegalMoves(xs)) == LegalMoves(xs)
  {
    var r := LegalMoves(xs);
    forall i | 0 <= i < |r|
      ensures Safe(r[i])
    {
      assert r[i] in r;
    }
    LegalMovesKeepsSafe(r);
  }

  /**
   * The legal moves of colour `c` are exactly the candidates built from
   * pseudo-legal moves after which `c`'s king is not attacked.
   */
  lemma LegalMyMovesExact(b: Board, c: Color, m: Move)
    ensures NewMove(b, m, c) in LegalMoves(MyMoves(b, c)) <==> PseudoLegal(b, c, m) && !KingAttacked(Apply(b, m), c)
  {
    MyMovesExact(b, c);
    SafeMeaning(NewMove(b, m, c));
  }

  // ----- Check and checkmate -----

  /** The check test of `SetMoveFlagAndValue`: some own reply on the new board lands on the enemy king. */
  predicate GivesCheck(md: MoveData)
  {
    AnyHitsKing(md.color, MyMoves(md.newBoard, md.color))
  }

  /** `GivesCheck` against the reference: the enemy king is attacked on the new board. */
  lemma GivesCheckMeaning(md: MoveData)
    ensures GivesCheck(md) <==> KingAttacked(md.newBoard, Enemy(md.color))
  {
    RepliesHitKing(md.newBoard, md.color);
  }

  /** The inner loop of `InCheckmate`: on the board after `reply`, some move of colour `c` lands on the enemy king. */
  predicate Answered(c: Color, reply: MoveData)
  {
    AnyHitsKing(c, MyMoves(reply.newBoard, c))
  }

  /**
   * The outer loop of `InCheckmate`: every enemy reply in the list still
   * leaves colour `c` a counter-reply onto the enemy king. An empty list
   * answers true.
   */
  function AllRepliesAnswered(c: Color, replies: seq<MoveData>): (mate: bool)
    ensures mate <==> forall i :: 0 <= i < |replies| ==> Answered(c, replies[i])
  {
    if replies == [] then true
    else if !Answered(c, replies[0]) then false
    else
      var rest := AllRepliesAnswered(c, replies[1..]);
      assert forall i :: 1 <= i < |replies| ==> replies[i] == replies[1..][i - 1];
      rest
  }

  /** `InCheckmate`: the enemy replies on the new board, each answered by a king capture. */
  function InCheckmate(md: MoveData): (mate: bool)
    ensures MyMoves(md.newBoard, Enemy(md.color)) == [] ==> mate
  {
    AllRepliesAnswered(md.color, MyMoves(md.newBoard, Enemy(md.color)))
  }

  /** When every enemy reply is answered, every pseudo-legal enemy reply leaves its king attacked. */
  lemma InCheckmateSound(md: MoveData, m: Move)
    requires InCheckmate(md) && PseudoLegal(md.newBoard, Enemy(md.color), m)
    ensures KingAttacked(Apply(md.newBoard, m), Enemy(md.color))
  {
    var c, nb := md.color, md.newBoard;
    var replies := MyMoves(nb, Enemy(c));
    MyMovesComplete(nb, Enemy(c), m);
    var i :| 0 <= i < |replies| && replies[i] == NewMove(nb, m, Enemy(c));
    assert Answered(c, replies[i]);
    RepliesHitKing(Apply(nb, m), c);
  }

  /** When some enemy reply goes unanswered, that reply is pseudo-legal and leaves its king safe. */
  lemma InCheckmateComplete(md: MoveData)
    requires !InCheckmate(md)
    ensures exists m: Move :: PseudoLegal(md.newBoard, Enemy(md.color), m) && !KingAttacked(Apply(md.newBoard, m), Enemy(md.color))
  {
    var c, nb := md.color, md.newBoard;
    var replies := MyMoves(nb, Enemy(c));
    var i :| 0 <= i < |replies| && !Answered(c, replies[i]);
    MyMovesSound(nb, Enemy(c), replies[i]);
    RepliesHitKing(replies[i].newBoard, c);
    assert !KingAttacked(Apply(nb, replies[i].move), Enemy(c));
  }

  /**
   * `InCheckmate` against the reference: after every pseudo-legal reply of
   * the other colour, that colour's king is attacked by colour `c`.
   */
  lemma InCheckmateMeaning(md: MoveData)
    ensures InCheckmate(md) <==>
      forall m: Move :: PseudoLegal(md.newBoard, Enemy(md.color), m) ==> KingAttacked(Apply(md.newBoard, m), Enemy(md.color))
  {
    if InCheckmate(md) {
      forall m: Move | PseudoLegal(md.newBoard, Enemy(md.color), m)
        ensures KingAttacked(Apply(md.newBoard, m), Enemy(md.color))
      {
        InCheckmateSound(md, m);
      }
    } else {
      InCheckmateComplete(md);
    }
  }

  /** The flag a scored move carries. */
  datatype Flag = NoFlag | Check | Checkmate

  /** The flag part of `SetMoveFlagAndValue`: Check when the move gives check, raised to Checkmate only then. */
  function FlagOf(md: MoveData): (f: Flag)
    ensures f != NoFlag <==> GivesCheck(md)
    ensures f == Checkmate <==> GivesCheck(md) && InCheckmate(md)
  {
    var flag := if GivesCheck(md) then Check else NoFlag;
    if flag == Check && InCheckmate(md) then Checkmate else flag
  }
}
