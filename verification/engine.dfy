/**
 * The two entry points the host calls, `GetNextMove` and `IsValidMove`,
 * with the engine's state made explicit: the half-move counter and the
 * pawn-rank modifier (a static field in the source) are carried in an
 * `Engine` value that each call takes and returns.
 */
module Engine {
  import opened ChessBoard
  import opened MoveGen
  import opened Legality
  import opened Evaluation

  /** The state the engine keeps between calls. */
  datatype Engine = Engine(halfMoves: int, pawnRankModifier: int)

  /** The state before the first call: no half moves counted, baseline modifier. */
  const Initial := Engine(0, BaselinePawnRankModifier)

  /** What every reachable state satisfies. */
  predicate Inv(e: Engine)
  {
    e.halfMoves >= 0 && (e.pawnRankModifier == BaselinePawnRankModifier || e.pawnRankModifier == DontDrawPawnRankModifier)
  }

  /** The modifier `GetNextMove` sets before evaluating: the anti-draw one once the counter passes the threshold. */
  function ModifierFor(halfMoves: int): (m: int)
    ensures m == BaselinePawnRankModifier || m == DontDrawPawnRankModifier
    ensures m == DontDrawPawnRankModifier <==> halfMoves > DrawThreshold
  {
    if halfMoves > DrawThreshold then DontDrawPawnRankModifier else BaselinePawnRankModifier
  }

  /** The piece is a pawn of either colour. */
  predicate IsPawn(piece: Piece)
  {
    piece == P(Pawn, Black) || piece == P(Pawn, White)
  }

  /**
   * The counter update of both entry points for a move starting on a square
   * holding `piece`: one more half move, or back to zero for a pawn move.
   */
  function CountHalfMove(halfMoves: int, piece: Piece): (h: int)
    ensures IsPawn(piece) ==> h == 0
    ensures !IsPawn(piece) ==> h == halfMoves + 1
  {
    var h := halfMoves + 1;
    if IsPawn(piece) then 0 else h
  }

  /**
   * The choice made by `allMoves.Sort()`, `Reverse()` and `First()`: the
   * position of a candidate of greatest value, the first such one.
   */
  function BestIndex(xs: seq<Scored>): (k: nat)
    requires xs != []
    ensures k < |xs|
    ensures forall j :: 0 <= j < |xs| ==> xs[j].value <= xs[k].value
    ensures forall j :: 0 <= j < k ==> xs[j].value < xs[k].value
  {
    if |xs| == 1 then 0
    else
      var front := xs[..|xs| - 1];
      var k := BestIndex(front);
      assert forall j :: 0 <= j < |front| ==> front[j] == xs[j];
      if xs[|xs| - 1].value > xs[k].value then |xs| - 1 else k
  }

  /** `MoveDataListContains`: some scored candidate carries the move `m`. */
  function ListContains(xs: seq<Scored>, m: Move): (found: bool)
    ensures found <==> exists i :: 0 <= i < |xs| && xs[i].data.move == m
  {
    if xs == [] then false
    else if xs[0].data.move == m then true
    else
      var rest := ListContains(xs[1..], m);
      assert forall i :: 1 <= i < |xs| ==> xs[i] == xs[1..][i - 1];
      rest
  }

  /** The legal candidates of colour `c` carry the move `m` exactly when it is pseudo-legal and keeps `c`'s king safe. */
  lemma LegalCarries(b: Board, c: Color, m: Move)
    ensures (exists i :: 0 <= i < |LegalMoves(MyMoves(b, c))| && LegalMoves(MyMoves(b, c))[i].move == m)
            <==> PseudoLegal(b, c, m) && !KingAttacked(Apply(b, m), c)
  {
    var legal := LegalMoves(MyMoves(b, c));
    LegalMyMovesExact(b, c, m);
    if exists i :: 0 <= i < |legal| && legal[i].move == m {
      var i :| 0 <= i < |legal| && legal[i].move == m;
      assert legal[i] in legal;
      MyMovesSound(b, c, legal[i]);
    }
    if PseudoLegal(b, c, m) && !KingAttacked(Apply(b, m), c) {
      var i :| 0 <= i < |legal| && legal[i] == NewMove(b, m, c);
    }
  }

  /** Two lists with the same candidates position by position carry the same moves. */
  lemma ContainsAgrees(scored: seq<Scored>, legal: seq<MoveData>, m: Move)
    requires |scored| == |legal| && forall i :: 0 <= i < |scored| ==> scored[i].data == legal[i]
    ensures ListContains(scored, m) <==> exists i :: 0 <= i < |legal| && legal[i].move == m
  {
    if ListContains(scored, m) {
      var i :| 0 <= i < |scored| && scored[i].data.move == m;
      assert legal[i].move == m;
    }
  }

  /** Scoring keeps the candidates: the scored list carries `m` exactly when `m` is legal for `c`. */
  lemma ScoredCarries(b: Board, c: Color, m: Move, halfMoves: int, modifier: int, draws: seq<Draw>)
    requires modifier != 0 && |draws| >= |LegalMoves(MyMoves(b, c))|
    ensures ListContains(EvaluateMoves(MyMoves(b, c), halfMoves, modifier, draws), m)
            <==> PseudoLegal(b, c, m) && !KingAttacked(Apply(b, m), c)
  {
    ContainsAgrees(EvaluateMoves(MyMoves(b, c), halfMoves, modifier, draws), LegalMoves(MyMoves(b, c)), m);
    LegalCarries(b, c, m);
  }

  /** The outcome of `IsValidMove`: an answer, or the exception the colour lookup throws on an empty square. */
  datatype Verdict = Answer(ok: bool) | Throws

  /**
   * The decision at the end of `IsValidMove` for a source square holding
   * `piece`: throw on Empty, otherwise accept when the piece has the mover's
   * colour and a scored candidate carries the move.
   */
  function Judge(piece: Piece, c: Color, scored: seq<Scored>, m: Move): (v: Verdict)
    ensures v == Throws <==> piece == Empty
    ensures v == Answer(true) <==> piece.P? && piece.color == c && exists i :: 0 <= i < |scored| && scored[i].data.move == m
  {
    if piece == Empty then Throws
    else Answer(ColorOf(piece) == c && ListContains(scored, m))
  }

  /**
   * `IsValidMove`: count the half move, score the mover's candidates, then
   * judge. An empty source square makes the colour lookup throw, after the
   * counter has been updated.
   */
  function IsValidMove(e: Engine, b: Board, m: Move, c: Color, draws: seq<Draw>): (res: (Engine, Verdict))
    requires Inv(e) && |draws| >= |LegalMoves(MyMoves(b, c))|
    ensures res.0 == Engine(CountHalfMove(e.halfMoves, At(b, m.from)), e.pawnRankModifier)
    ensures res.1 == Throws <==> At(b, m.from) == Empty
  {
    var e' := Engine(CountHalfMove(e.halfMoves, At(b, m.from)), e.pawnRankModifier);
    (e', Judge(At(b, m.from), c, EvaluateMoves(MyMoves(b, c), e'.halfMoves, e'.pawnRankModifier, draws), m))
  }

  /**
   * The validator's answer against the reference: a move is accepted
   * exactly when it is pseudo-legal for `c` (so in particular the moved
   * piece is `c`'s) and does not leave `c`'s king attacked.
   */
  lemma IsValidMoveExact(e: Engine, b: Board, m: Move, c: Color, draws: seq<Draw>)
    requires Inv(e) && |draws| >= |LegalMoves(MyMoves(b, c))|
    ensures IsValidMove(e, b, m, c, draws).1 == Answer(true) <==> PseudoLegal(b, c, m) && !KingAttacked(Apply(b, m), c)
  {
    var h := CountHalfMove(e.halfMoves, At(b, m.from));
    ScoredCarries(b, c, m, h, e.pawnRankModifier, draws);
  }

  /** `best` is one of the scored candidates and no candidate is worth more. */
  predicate IsBest(scored: seq<Scored>, best: Scored)
  {
    best in scored && forall j :: 0 <= j < |scored| ==> scored[j].value <= best.value
  }

  /** The last step of `GetNextMove`: the best candidate, none when there is no candidate. */
  function PickMove(scored: seq<Scored>): (choice: Option<Scored>)
    ensures choice.None? <==> scored == []
    ensures choice.Some? ==> IsBest(scored, choice.value) && ListContains(scored, choice.value.data.move)
  {
    if scored == [] then None else Some(scored[BestIndex(scored)])
  }

  /**
   * `GetNextMove`: set the modifier from the counter, score the legal
   * candidates and play one of greatest value, then count the half move.
   * The result is the chosen scored candidate, so it carries the move's
   * Check/Checkmate flag and its value as the returned `ChessMove` does.
   * With no legal candidate the source's `First()` throws; here the choice
   * is `None` and the counter is left as it was.
   */
  function GetNextMove(e: Engine, b: Board, me: Color, draws: seq<Draw>): (res: (Engine, Option<Scored>))
    requires |draws| >= |LegalMoves(MyMoves(b, me))|
    ensures res.0.pawnRankModifier == ModifierFor(e.halfMoves)
    ensures e.halfMoves >= 0 ==> Inv(res.0)
    ensures res.1.None? <==> LegalMoves(MyMoves(b, me)) == []
    ensures res.1.None? ==> res.0.halfMoves == e.halfMoves
    ensures res.1.Some? ==> res.0.halfMoves == CountHalfMove(e.halfMoves, At(b, res.1.value.data.move.from))
    ensures res.1.Some? ==> PseudoLegal(b, me, res.1.value.data.move) && !KingAttacked(Apply(b, res.1.value.data.move), me)
    ensures res.1.Some? ==> res.1.value.data == NewMove(b, res.1.value.data.move, me) && res.1.value.flag == FlagOf(res.1.value.data)
    ensures res.1.Some? ==> IsBest(EvaluateMoves(MyMoves(b, me), e.halfMoves, ModifierFor(e.halfMoves), draws), res.1.value)
  {
    var modifier := ModifierFor(e.halfMoves);
    var scored := EvaluateMoves(MyMoves(b, me), e.halfMoves, modifier, draws);
    var choice := PickMove(scored);
    if choice.None? then (Engine(e.halfMoves, modifier), None)
    else
      var best := choice.value;
      ChosenIsCandidate(b, me, scored, e.halfMoves, modifier, draws, best);
      ScoredCarries(b, me, best.data.move, e.halfMoves, modifier, draws);
      (Engine(CountHalfMove(e.halfMoves, At(b, best.data.move.from)), modifier), choice)
  }

  /** A scored candidate of colour `me` was built from `b` for its own move, and carries that move's flag. */
  lemma ChosenIsCandidate(b: Board, me: Color, scored: seq<Scored>, halfMoves: int, modifier: int, draws: seq<Draw>, best: Scored)
    requires modifier != 0 && |draws| >= |LegalMoves(MyMoves(b, me))|
    requires scored == EvaluateMoves(MyMoves(b, me), halfMoves, modifier, draws) && best in scored
    ensures best.data == NewMove(b, best.data.move, me) && best.flag == FlagOf(best.data)
  {
    var legal := LegalMoves(MyMoves(b, me));
    var i :| 0 <= i < |scored| && scored[i] == best;
    assert legal[i] in legal;
    MyMovesSound(b, me, legal[i]);
  }

  /**
   * The base case of `Inv` being the reachable-state invariant: the state
   * before the first call satisfies it, and `GetNextMove` and
   * `IsValidMoveKeepsInv` show both entry points keep it.
   */
  lemma InitialInv()
    ensures Inv(Initial)
  {
  }

  lemma IsValidMoveKeepsInv(e: Engine, b: Board, m: Move, c: Color, draws: seq<Draw>)
    requires Inv(e) && |draws| >= |LegalMoves(MyMoves(b, c))|
    ensures Inv(IsValidMove(e, b, m, c, draws).0)
  {
  }

  /**
   * The two entry points agree: whatever the validator's state and draws,
   * it accepts the move the engine itself chooses for the same side.
   */
  lemma ChosenMoveValidates(e: Engine, v: Engine, b: Board, me: Color, draws: seq<Draw>, vdraws: seq<Draw>, m: Move)
    requires |draws| >= |LegalMoves(MyMoves(b, me))|
    requires GetNextMove(e, b, me, draws).1.Some? && GetNextMove(e, b, me, draws).1.value.data.move == m
    requires Inv(v) && |vdraws| >= |LegalMoves(MyMoves(b, me))|
    ensures IsValidMove(v, b, m, me, vdraws).1 == Answer(true)
  {
    IsValidMoveExact(v, b, m, me, vdraws);
  }
}
