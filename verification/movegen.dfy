/**
 * The pseudo-legal move generator (`GetAllMoves`, `GetMyMoves`,
 * `AddPawnMoves`, `AddRiderMoves`, `AddLeaperMoves` and the per-piece
 * direction and offset tables) together with `ChessMoveData`, the candidate
 * that carries the board before and after a move.
 *
 * Each generator is a pure function returning its moves in the order the
 * source appends them. Next to each stands a declarative description of
 * the squares a piece reaches (`PawnReach`, `LeapReach`, `RiderReach`,
 * `PseudoLegal`), and the contracts state that the generator produces
 * exactly those moves.
 */
module MoveGen {
  import opened ChessBoard

  /** `ChessMoveData`: the board before the move, the move, the board after it, the mover. */
  datatype MoveData = MoveData(oldBoard: Board, move: Move, newBoard: Board, color: Color)

  /**
   * `NewChessMove` and the `ChessMoveData` constructor: the old board is kept
   * as it is and the new board is a copy with the move applied.
   */
  function NewMove(b: Board, m: Move, c: Color): (md: MoveData)
    ensures md.oldBoard == b && md.move == m && md.color == c
    ensures At(md.newBoard, m.from) == Empty
    ensures m.from != m.to ==> At(md.newBoard, m.to) == At(b, m.from)
    ensures forall s: Square :: s != m.from && s != m.to ==> At(md.newBoard, s) == At(b, s)
  {
    MoveData(b, m, Apply(b, m), c)
  }

  // ----- Squares a mover may use -----

  /** `s` is on the board and empty. */
  predicate EmptyAt(b: Board, s: Sq)
  {
    Valid(s.x, s.y) && IsFree(b, s)
  }

  /** `s` is on the board and holds a piece of the colour opposing `c`. */
  predicate EnemyAt(b: Board, s: Sq, c: Color)
  {
    Valid(s.x, s.y) && HasColor(b, s, Enemy(c))
  }

  /** A piece of colour `c` may land on `s`: it is on the board and not held by colour `c`. */
  predicate OpenTo(b: Board, s: Sq, c: Color)
  {
    Valid(s.x, s.y) && !HasColor(b, s, c)
  }

  /**
   * A bridge to the source's wording of the leaper test, "free or held by
   * the enemy colour": on the board that is the same as not own-held.
   */
  lemma OpenToCases(b: Board, s: Sq, c: Color)
    ensures OpenTo(b, s, c) <==> EmptyAt(b, s) || EnemyAt(b, s, c)
  {
  }

  // ----- Pawns -----

  /** The rank direction a pawn of colour `c` moves in (`yForward`). */
  function Forward(c: Color): int
  {
    if c == Black then 1 else -1
  }

  /** The rank from which a pawn may move two squares. */
  function StartRank(c: Color): int
  {
    if c == Black then 1 else 6
  }

  /** The squares a pawn of colour `c` on `s` reaches by moving straight ahead. */
  ghost predicate PushReach(b: Board, s: Square, c: Color, t: Sq)
  {
    var f := Forward(c);
    || (t == Sq(s.x, s.y + f) && EmptyAt(b, t))
    || (t == Sq(s.x, s.y + 2 * f) && s.y == StartRank(c) && EmptyAt(b, Sq(s.x, s.y + f)) && EmptyAt(b, t))
  }

  /** The squares a pawn of colour `c` on `s` reaches: straight ahead, or one diagonal step forward onto an enemy. */
  ghost predicate PawnReach(b: Board, s: Square, c: Color, t: Sq)
  {
    || PushReach(b, s, c, t)
    || ((t == Sq(s.x + 1, s.y + Forward(c)) || t == Sq(s.x - 1, s.y + Forward(c))) && EnemyAt(b, t, c))
  }

  /**
   * The forward part of `AddPawnMoves`: a single step onto an empty square,
   * then, from the start rank and only when the single step was possible, a
   * double step onto an empty square.
   */
  function PawnPushes(b: Board, s: Square, c: Color): (r: seq<MoveData>)
    ensures |r| <= 2
    ensures forall md | md in r :: md == NewMove(b, Move(s, md.move.to), c) && PushReach(b, s, c, md.move.to)
    ensures forall t: Square :: PushReach(b, s, c, t) ==> NewMove(b, Move(s, t), c) in r
  {
    var canJump := (c == Black && s.y == 1) || (c == White && s.y == 6);
    var f := Forward(c);
    var one := Sq(s.x, s.y + f);
    var two := Sq(s.x, s.y + f * 2);
    if !(Valid(one.x, one.y) && IsFree(b, one)) then
      assert !EmptyAt(b, one);
      []
    else if canJump && Valid(two.x, two.y) && IsFree(b, two) then
      [NewMove(b, Move(s, one), c), NewMove(b, Move(s, two), c)]
    else
      assert !(s.y == StartRank(c) && EmptyAt(b, Sq(s.x, s.y + 2 * f)));
      [NewMove(b, Move(s, one), c)]
  }

  /** A diagonal part of `AddPawnMoves`: one step forward and `dx` sideways, onto an enemy piece only. */
  function PawnCapture(b: Board, s: Square, c: Color, dx: int): (r: seq<MoveData>)
    ensures |r| <= 1
    ensures r != [] <==> EnemyAt(b, Sq(s.x + dx, s.y + Forward(c)), c)
    ensures forall md | md in r :: md.move.to == Sq(s.x + dx, s.y + Forward(c)) && md == NewMove(b, Move(s, md.move.to), c)
  {
    var t := Sq(s.x + dx, s.y + Forward(c));
    if Valid(t.x, t.y) && HasColor(b, t, Enemy(c)) then [NewMove(b, Move(s, t), c)] else []
  }

  /** `AddPawnMoves`: the pushes, then the capture towards x + 1, then the capture towards x - 1. */
  function PawnMoves(b: Board, s: Square, c: Color): (r: seq<MoveData>)
    ensures |r| <= 4
    ensures forall md | md in r :: md == NewMove(b, Move(s, md.move.to), c) && PawnReach(b, s, c, md.move.to)
    ensures forall t: Square :: PawnReach(b, s, c, t) ==> NewMove(b, Move(s, t), c) in r
  {
    PawnPushes(b, s, c) + PawnCapture(b, s, c, 1) + PawnCapture(b, s, c, -1)
  }

  // ----- Leapers: knights and kings -----

  const KnightOffsets: seq<(int, int)> := [(1, 2), (1, -2), (2, 1), (2, -1), (-1, 2), (-1, -2), (-2, 1), (-2, -1)]

  const KingOffsets: seq<(int, int)> := [(0, 1), (0, -1), (1, 0), (-1, 0), (1, 1), (1, -1), (-1, 1), (-1, -1)]

  /** A knight's jump: one square along one axis and two along the other, in any direction. */
  predicate KnightJump(o: (int, int))
  {
    ((o.0 == 1 || o.0 == -1) && (o.1 == 2 || o.1 == -2)) || ((o.0 == 2 || o.0 == -2) && (o.1 == 1 || o.1 == -1))
  }

  /** The knight table holds exactly the eight knight jumps, each once. */
  lemma KnightOffsetsExact(o: (int, int))
    ensures o in KnightOffsets <==> KnightJump(o)
    ensures |KnightOffsets| == 8 && forall i, j :: 0 <= i < j < 8 ==> KnightOffsets[i] != KnightOffsets[j]
  {
  }

  /** The king table holds exactly the eight neighbouring steps, each once. */
  lemma KingOffsetsExact(o: (int, int))
    ensures o in KingOffsets <==> UnitDir(o)
    ensures |KingOffsets| == 8 && forall i, j :: 0 <= i < j < 8 ==> KingOffsets[i] != KingOffsets[j]
  {
  }

  /** The squares a leaper of colour `c` on `s` with offset table `offsets` reaches. */
  ghost predicate LeapReach(b: Board, s: Square, c: Color, offsets: seq<(int, int)>, t: Sq)
  {
    (t.x - s.x, t.y - s.y) in offsets && OpenTo(b, t, c)
  }

  /** `AddLeaperMoves`: the square at offset `o`, if it is on the board and empty or enemy-held. */
  function Leap(b: Board, s: Square, c: Color, o: (int, int)): (r: seq<MoveData>)
    ensures |r| <= 1
    ensures r != [] <==> OpenTo(b, Sq(s.x + o.0, s.y + o.1), c)
    ensures forall md | md in r :: md.move.to == Sq(s.x + o.0, s.y + o.1) && md == NewMove(b, Move(s, md.move.to), c)
  {
    var t := Sq(s.x + o.0, s.y + o.1);
    if Valid(t.x, t.y) && (IsFree(b, t) || HasColor(b, t, Enemy(c))) then [NewMove(b, Move(s, t), c)] else []
  }

  /** `AddKnightMoves` / `AddKingMoves`: one `Leap` per table entry, in table order. */
  function LeaperMoves(b: Board, s: Square, c: Color, offsets: seq<(int, int)>): (r: seq<MoveData>)
    ensures |r| <= |offsets|
    ensures forall md | md in r :: md == NewMove(b, Move(s, md.move.to), c) && LeapReach(b, s, c, offsets, md.move.to)
    ensures forall t: Square :: LeapReach(b, s, c, offsets, t) ==> NewMove(b, Move(s, t), c) in r
  {
    if offsets == [] then []
    else
      var head := Leap(b, s, c, offsets[0]);
      var tail := LeaperMoves(b, s, c, offsets[1..]);
      LeaperStep(b, s, c, offsets, head, tail);
      head + tail
  }

  /** The first offset's leap followed by the moves of the remaining offsets covers the whole table. */
  lemma LeaperStep(b: Board, s: Square, c: Color, offsets: seq<(int, int)>, head: seq<MoveData>, tail: seq<MoveData>)
    requires offsets != [] && head == Leap(b, s, c, offsets[0])
    requires forall md | md in tail :: md == NewMove(b, Move(s, md.move.to), c) && LeapReach(b, s, c, offsets[1..], md.move.to)
    requires forall t: Square :: LeapReach(b, s, c, offsets[1..], t) ==> NewMove(b, Move(s, t), c) in tail
    ensures forall md | md in head + tail :: md == NewMove(b, Move(s, md.move.to), c) && LeapReach(b, s, c, offsets, md.move.to)
    ensures forall t: Square :: LeapReach(b, s, c, offsets, t) ==> NewMove(b, Move(s, t), c) in head + tail
  {
    forall md | md in head + tail
      ensures md == NewMove(b, Move(s, md.move.to), c) && LeapReach(b, s, c, offsets, md.move.to)
    {
      var t := md.move.to;
      if md in head {
        assert (t.x - s.x, t.y - s.y) == offsets[0];
      } else {
        assert (t.x - s.x, t.y - s.y) in offsets[1..];
      }
    }
    forall t: Square | LeapReach(b, s, c, offsets, t)
      ensures NewMove(b, Move(s, t), c) in head + tail
    {
      LeapCovered(b, s, c, offsets, head, tail, t);
    }
  }

  /** One reachable target of the table is produced by the first leap or by the rest. */
  lemma LeapCovered(b: Board, s: Square, c: Color, offsets: seq<(int, int)>, head: seq<MoveData>, tail: seq<MoveData>, t: Square)
    requires offsets != [] && head == Leap(b, s, c, offsets[0])
    requires LeapReach(b, s, c, offsets[1..], t) ==> NewMove(b, Move(s, t), c) in tail
    requires LeapReach(b, s, c, offsets, t)
    ensures NewMove(b, Move(s, t), c) in head + tail
  {
    var o0 := offsets[0];
    var o := (t.x - s.x, t.y - s.y);
    if o == o0 {
      assert t == Sq(s.x + o0.0, s.y + o0.1);
      assert NewMove(b, Move(s, t), c) in head;
    } else {
      assert o in offsets[1..];
    }
  }

  // ----- Riders: rooks, bishops and queens -----

  const RookDirections: seq<(int, int)> := [(1, 0), (-1, 0), (0, 1), (0, -1)]

  const BishopDirections: seq<(int, int)> := [(1, 1), (-1, -1), (-1, 1), (1, -1)]

  const QueenDirections: seq<(int, int)> := [(1, 0), (-1, 0), (0, 1), (0, -1), (1, 1), (-1, -1), (-1, 1), (1, -1)]

  predicate UnitDir(d: (int, int))
  {
    -1 <= d.0 <= 1 && -1 <= d.1 <= 1 && d != (0, 0)
  }

  /**
   * The rook moves along files and ranks, the bishop along diagonals and the
   * queen along both: each table is exactly its set of unit directions.
   */
  lemma DirectionTablesExact(d: (int, int))
    ensures d in RookDirections <==> UnitDir(d) && (d.0 == 0 || d.1 == 0)
    ensures d in BishopDirections <==> UnitDir(d) && d.0 != 0 && d.1 != 0
    ensures d in QueenDirections <==> UnitDir(d)
  {
  }

  /** Coordinate `v` moved `i` steps along the unit component `dv`. */
  function Walk(v: int, dv: int, i: int): int
  {
    if dv > 0 then v + i else if dv < 0 then v - i else v
  }

  /**
   * A bridge to the source's arithmetic: walking is `v + dv * i` for a unit
   * component, so `Target` is the source's `(x + modX * i, y + modY * i)`.
   */
  lemma WalkIsScaled(v: int, dv: int, i: int)
    requires -1 <= dv <= 1
    ensures Walk(v, dv, i) == v + dv * i
  {
  }

  /** The square `i` steps from `s` in direction `d`. */
  function Target(s: Square, d: (int, int), i: int): Sq
  {
    Sq(Walk(s.x, d.0, i), Walk(s.y, d.1, i))
  }

  /**
   * A rider of colour `c` on `s` reaches the square `j` steps away in
   * direction `d`: every square before it is on the board and empty, and
   * that square is on the board and empty or enemy-held.
   */
  ghost predicate RayReach(b: Board, s: Square, c: Color, d: (int, int), j: int)
  {
    && 1 <= j
    && (forall k {:trigger EmptyAt(b, Target(s, d, k))} :: 1 <= k < j ==> EmptyAt(b, Target(s, d, k)))
    && OpenTo(b, Target(s, d, j), c)
  }

  /** Some square from distance `i` on in direction `d` is reachable and is `t`. */
  ghost predicate RayHit(b: Board, s: Square, c: Color, d: (int, int), i: int, t: Sq)
  {
    exists j {:trigger RayReach(b, s, c, d, j)} :: i <= j && RayReach(b, s, c, d, j) && t == Target(s, d, j)
  }

  /**
   * `AddRiderMoves` from distance `i` on (the source starts at 1): empty
   * squares are added and the walk goes on, an enemy square is added and the
   * walk stops, an own piece or the board edge stops it with nothing added.
   * The moves produced are exactly those onto the reachable squares.
   */
  function Ray(b: Board, s: Square, c: Color, d: (int, int), i: int): (r: seq<MoveData>)
    requires UnitDir(d) && 1 <= i
    requires forall k :: 1 <= k < i ==> EmptyAt(b, Target(s, d, k))
    ensures r == [] || i + |r| <= 8
    ensures forall md | md in r :: md == NewMove(b, Move(s, md.move.to), c) && RayHit(b, s, c, d, i, md.move.to)
    ensures forall j :: i <= j && RayReach(b, s, c, d, j) ==> NewMove(b, Move(s, Target(s, d, j)), c) in r
    decreases 8 - i
  {
    var t := Target(s, d, i);
    assert i > 1 ==> EmptyAt(b, Target(s, d, i - 1));
    if !Valid(t.x, t.y) then
      assert !EmptyAt(b, Target(s, d, i)) && !OpenTo(b, Target(s, d, i), c);
      []
    else if HasColor(b, t, Enemy(c)) then
      assert RayReach(b, s, c, d, i);
      assert !EmptyAt(b, Target(s, d, i));
      [NewMove(b, Move(s, t), c)]
    else if IsFree(b, t) then
      var rest := Ray(b, s, c, d, i + 1);
      assert RayReach(b, s, c, d, i);
      [NewMove(b, Move(s, t), c)] + rest
    else
      assert !EmptyAt(b, Target(s, d, i)) && !OpenTo(b, Target(s, d, i), c);
      []
  }

  /**
   * The stop rule of `AddRiderMoves`: once the walk meets an occupied square
   * at distance `k`, every move of the ray lands within distance `k`, and a
   * piece of the mover's own colour right next to it blocks the direction.
   */
  lemma RayStopRule(b: Board, s: Square, c: Color, d: (int, int), k: int)
    requires UnitDir(d) && 1 <= k
    requires Valid(Target(s, d, k).x, Target(s, d, k).y) && !IsFree(b, Target(s, d, k))
    ensures forall md | md in Ray(b, s, c, d, 1) :: exists j :: 1 <= j <= k && md.move.to == Target(s, d, j)
    ensures k == 1 && HasColor(b, Target(s, d, 1), c) ==> Ray(b, s, c, d, 1) == []
  {
    var r := Ray(b, s, c, d, 1);
    assert !EmptyAt(b, Target(s, d, k));
    forall md | md in r
      ensures exists j :: 1 <= j <= k && md.move.to == Target(s, d, j)
    {
      var j :| 1 <= j && RayReach(b, s, c, d, j) && md.move.to == Target(s, d, j);
      assert k < j ==> EmptyAt(b, Target(s, d, k));
    }
    if k == 1 && HasColor(b, Target(s, d, 1), c) {
      forall j | 1 <= j
        ensures !RayReach(b, s, c, d, j)
      {
        assert RayReach(b, s, c, d, j) && 1 < j ==> EmptyAt(b, Target(s, d, 1));
      }
    }
  }

  /** The squares a rider of colour `c` on `s` reaches along the directions `dirs`. */
  ghost predicate RiderReach(b: Board, s: Square, c: Color, dirs: seq<(int, int)>, t: Sq)
  {
    exists d, j {:trigger RayReach(b, s, c, d, j)} :: d in dirs && RayReach(b, s, c, d, j) && t == Target(s, d, j)
  }

  /** `AddRookMoves` / `AddBishopMoves` / `AddQueenMoves`: one ray per direction, in table order. */
  function RiderMoves(b: Board, s: Square, c: Color, dirs: seq<(int, int)>): (r: seq<MoveData>)
    requires forall d | d in dirs :: UnitDir(d)
    ensures |r| <= 7 * |dirs|
    ensures forall md | md in r :: md == NewMove(b, Move(s, md.move.to), c) && RiderReach(b, s, c, dirs, md.move.to)
    ensures forall t: Square :: RiderReach(b, s, c, dirs, t) ==> NewMove(b, Move(s, t), c) in r
  {
    if dirs == [] then []
    else
      var ray := Ray(b, s, c, dirs[0], 1);
      var rest := RiderMoves(b, s, c, dirs[1..]);
      RiderStep(b, s, c, dirs, ray, rest);
      ray + rest
  }

  lemma RiderStep(b: Board, s: Square, c: Color, dirs: seq<(int, int)>, ray: seq<MoveData>, rest: seq<MoveData>)
    requires dirs != [] && forall d | d in dirs :: UnitDir(d)
    requires ray == Ray(b, s, c, dirs[0], 1)
    requires forall md | md in rest :: md == NewMove(b, Move(s, md.move.to), c) && RiderReach(b, s, c, dirs[1..], md.move.to)
    requires forall t: Square :: RiderReach(b, s, c, dirs[1..], t) ==> NewMove(b, Move(s, t), c) in rest
    ensures forall md | md in ray + rest :: md == NewMove(b, Move(s, md.move.to), c) && RiderReach(b, s, c, dirs, md.move.to)
    ensures forall t: Square :: RiderReach(b, s, c, dirs, t) ==> NewMove(b, Move(s, t), c) in ray + rest
  {
    var d0 := dirs[0];
    forall md | md in ray + rest
      ensures md == NewMove(b, Move(s, md.move.to), c) && RiderReach(b, s, c, dirs, md.move.to)
    {
      if md in ray {
        var j :| 1 <= j && RayReach(b, s, c, d0, j) && md.move.to == Target(s, d0, j);
      } else {
        var d, j :| d in dirs[1..] && RayReach(b, s, c, d, j) && md.move.to == Target(s, d, j);
        assert d in dirs;
      }
    }
    forall t: Square | RiderReach(b, s, c, dirs, t)
      ensures NewMove(b, Move(s, t), c) in ray + rest
    {
      var d, j :| d in dirs && RayReach(b, s, c, d, j) && t == Target(s, d, j);
      if d == d0 {
        assert NewMove(b, Move(s, Target(s, d0, j)), c) in ray;
      } else {
        assert d in dirs[1..];
        assert RiderReach(b, s, c, dirs[1..], t);
      }
    }
  }

  // ----- Dispatch on the piece kind -----

  /** The squares a piece of kind `k` and colour `c` on `s` reaches. */
  ghost predicate KindReach(b: Board, s: Square, k: Kind, c: Color, t: Sq)
  {
    match k
    case Pawn => PawnReach(b, s, c, t)
    case Knight => LeapReach(b, s, c, KnightOffsets, t)
    case Bishop => RiderReach(b, s, c, BishopDirections, t)
    case Rook => RiderReach(b, s, c, RookDirections, t)
    case Queen => RiderReach(b, s, c, QueenDirections, t)
    case King => LeapReach(b, s, c, KingOffsets, t)
  }

  /** The `switch` in `GetAllMoves`: the generator for one piece. */
  function PieceMoves(b: Board, s: Square, k: Kind, c: Color): (r: seq<MoveData>)
    ensures forall md | md in r :: md == NewMove(b, Move(s, md.move.to), c) && KindReach(b, s, k, c, md.move.to)
    ensures forall t: Square :: KindReach(b, s, k, c, t) ==> NewMove(b, Move(s, t), c) in r
  {
    match k
    case Pawn => PawnMoves(b, s, c)
    case Rook => RiderMoves(b, s, c, RookDirections)
    case Knight => LeaperMoves(b, s, c, KnightOffsets)
    case Bishop => RiderMoves(b, s, c, BishopDirections)
    case Queen => RiderMoves(b, s, c, QueenDirections)
    case King => LeaperMoves(b, s, c, KingOffsets)
  }

  // ----- The board scan -----

  /**
   * The reference definition of a pseudo-legal move for colour `c`: its
   * source square holds a piece of colour `c`, and that piece reaches the
   * destination by its kind's rule.
   */
  ghost predicate PseudoLegal(b: Board, c: Color, m: Move)
  {
    At(b, m.from).P? && At(b, m.from).color == c && KindReach(b, m.from, At(b, m.from).kind, c, m.to)
  }

  /** The colour filter of `GetAllMoves`: `None` is `AllColorsAllowed`. */
  predicate Admits(filter: Option<Color>, c: Color)
  {
    filter.None? || filter.value == c
  }

  /** One square of the scan: skip Empty and pieces the filter rejects, otherwise dispatch. */
  function SquareMoves(b: Board, s: Square, filter: Option<Color>): (r: seq<MoveData>)
    ensures forall md | md in r ::
              && md.move.from == s && Admits(filter, md.color)
              && md == NewMove(b, md.move, md.color) && PseudoLegal(b, md.color, md.move)
    ensures forall m: Move, c: Color {:trigger PseudoLegal(b, c, m)} :: m.from == s && Admits(filter, c) && PseudoLegal(b, c, m) ==> NewMove(b, m, c) in r
  {
    var piece := At(b, s);
    if piece == Empty then []
    else if filter.Some? && ColorOf(piece) != filter.value then []
    else PieceMoves(b, s, piece.kind, ColorOf(piece))
  }

  /** The lists of `xss` joined in order. */
  function Concat<T>(xss: seq<seq<T>>): seq<T>
  {
    if xss == [] then [] else xss[0] + Concat(xss[1..])
  }

  /** An element is in the join exactly when it is in one of the lists. */
  lemma {:induction false} ConcatMembers<T>(xss: seq<seq<T>>, e: T)
    ensures e in Concat(xss) <==> exists i :: 0 <= i < |xss| && e in xss[i]
  {
    if xss != [] {
      ConcatMembers(xss[1..], e);
      if e in Concat(xss[1..]) {
        var i :| 0 <= i < |xss[1..]| && e in xss[1..][i];
        assert xss[1..][i] == xss[i + 1];
      }
      if exists i :: 0 <= i < |xss| && e in xss[i] {
        var i :| 0 <= i < |xss| && e in xss[i];
        if i > 0 {
          assert xss[1..][i - 1] == xss[i];
        }
      }
    }
  }

  /** What square `(x, y)` contributes to one row of the scan. */
  function Row<T>(gen: Square -> seq<T>, y: int): (row: seq<seq<T>>)
    requires 0 <= y < 8
    ensures |row| == 8 && forall x :: 0 <= x < 8 ==> row[x] == gen(Sq(x, y))
  {
    seq(8, x requires 0 <= x < 8 => gen(Sq(x, y)))
  }

  /** The rows of the scan, each joined from its squares. */
  function Rows<T>(gen: Square -> seq<T>): (rows: seq<seq<T>>)
    ensures |rows| == 8 && forall y :: 0 <= y < 8 ==> rows[y] == Concat(Row(gen, y))
  {
    seq(8, y requires 0 <= y < 8 => Concat(Row(gen, y)))
  }

  /**
   * The two loops of `GetAllMoves`: rows `y = 0 .. 7` outer, columns
   * `x = 0 .. 7` inner, each square contributing `gen` of it. The scan is
   * written over any per-square generator so that its membership facts are
   * proved once, independently of what the generator does on each square.
   */
  function BoardScan<T>(gen: Square -> seq<T>): seq<T>
  {
    Concat(Rows(gen))
  }

  /** An element is in the board scan exactly when some square generates it. */
  lemma BoardScanMembers<T>(gen: Square -> seq<T>, e: T)
    ensures e in BoardScan(gen) <==> exists s: Square :: e in gen(s)
  {
    var rows := Rows(gen);
    ConcatMembers(rows, e);
    if e in BoardScan(gen) {
      var y :| 0 <= y < 8 && e in rows[y];
      ConcatMembers(Row(gen, y), e);
      var x :| 0 <= x < 8 && e in Row(gen, y)[x];
      assert e in gen(Sq(x, y));
    }
    if exists s: Square :: e in gen(s) {
      var s: Square :| e in gen(s);
      assert Row(gen, s.y)[s.x] == gen(s);
      ConcatMembers(Row(gen, s.y), e);
      assert e in rows[s.y];
    }
  }

  /** `GetAllMoves`: the scan over rows `y = 0 .. 7` and, inside each, columns `x = 0 .. 7`. */
  function AllMoves(b: Board, filter: Option<Color>): seq<MoveData>
  {
    BoardScan((s: Square) => SquareMoves(b, s, filter))
  }

  /** `GetMyMoves`: the scan restricted to pieces of colour `c`. */
  function MyMoves(b: Board, c: Color): seq<MoveData>
  {
    AllMoves(b, Some(c))
  }

  /** A candidate produced for colour `c` on board `b`: built from `b` and pseudo-legal for `c`. */
  ghost predicate Produced(b: Board, c: Color, md: MoveData)
  {
    md == NewMove(b, md.move, c) && PseudoLegal(b, c, md.move)
  }

  /**
   * Soundness of `GetAllMoves`: every candidate has an admitted mover, was
   * built from `b`, and is pseudo-legal for its mover.
   */
  lemma AllMovesSound(b: Board, filter: Option<Color>, md: MoveData)
    requires md in AllMoves(b, filter)
    ensures Admits(filter, md.color) && Produced(b, md.color, md)
  {
    BoardScanMembers((s: Square) => SquareMoves(b, s, filter), md);
  }

  /** Completeness of `GetAllMoves`: every pseudo-legal move of an admitted colour is produced. */
  lemma AllMovesComplete(b: Board, filter: Option<Color>, m: Move, c: Color)
    requires Admits(filter, c) && PseudoLegal(b, c, m)
    ensures NewMove(b, m, c) in AllMoves(b, filter)
  {
    var gen := (s: Square) => SquareMoves(b, s, filter);
    assert NewMove(b, m, c) in gen(m.from);
    BoardScanMembers(gen, NewMove(b, m, c));
  }

  /** What every reach rule shares: the target is open to the mover and differs from the start. */
  lemma ReachShape(b: Board, s: Square, k: Kind, c: Color, t: Sq)
    requires KindReach(b, s, k, c, t)
    ensures OpenTo(b, t, c) && t != s
  {
    match k
    case Pawn =>
    case Knight =>
    case King =>
    case _ =>
      var dirs := if k == Bishop then BishopDirections else if k == Rook then RookDirections else QueenDirections;
      var d, j :| d in dirs && RayReach(b, s, c, d, j) && t == Target(s, d, j);
  }

  /**
   * Every candidate `GetAllMoves` produces starts on a square holding a piece
   * of the candidate's colour, lands on a different, on-board square that is
   * empty or enemy-held, and its new board is the old one with that piece
   * moved there.
   */
  lemma AllMovesShape(b: Board, filter: Option<Color>, md: MoveData)
    requires md in AllMoves(b, filter)
    ensures md.oldBoard == b && Admits(filter, md.color)
    ensures At(b, md.move.from).P? && At(b, md.move.from).color == md.color
    ensures md.move.to != md.move.from && !HasColor(b, md.move.to, md.color)
    ensures At(md.newBoard, md.move.to) == At(b, md.move.from) && At(md.newBoard, md.move.from) == Empty
    ensures forall q: Square :: q != md.move.from && q != md.move.to ==> At(md.newBoard, q) == At(b, q)
  {
    AllMovesSound(b, filter, md);
    ReachShape(b, md.move.from, At(b, md.move.from).kind, md.color, md.move.to);
  }

  /** Soundness of `GetMyMoves` for one candidate. */
  lemma MyMovesSound(b: Board, c: Color, md: MoveData)
    requires md in MyMoves(b, c)
    ensures md.color == c && Produced(b, c, md)
  {
    AllMovesSound(b, Some(c), md);
  }

  /** Completeness of `GetMyMoves` for one move. */
  lemma MyMovesComplete(b: Board, c: Color, m: Move)
    requires PseudoLegal(b, c, m)
    ensures NewMove(b, m, c) in MyMoves(b, c)
  {
    AllMovesComplete(b, Some(c), m, c);
  }

  /**
   * `GetMyMoves` produces exactly the pseudo-legal moves of colour `c`, each
   * as the candidate built from `b`.
   */
  lemma MyMovesExact(b: Board, c: Color)
    ensures forall md | md in MyMoves(b, c) :: md.color == c && Produced(b, c, md)
    ensures forall m: Move :: NewMove(b, m, c) in MyMoves(b, c) <==> PseudoLegal(b, c, m)
  {
    forall md | md in MyMoves(b, c)
      ensures md.color == c && Produced(b, c, md)
    {
      MyMovesSound(b, c, md);
    }
    forall m: Move
      ensures NewMove(b, m, c) in MyMoves(b, c) <==> PseudoLegal(b, c, m)
    {
      if PseudoLegal(b, c, m) {
        MyMovesComplete(b, c, m);
      }
      if NewMove(b, m, c) in MyMoves(b, c) {
        MyMovesSound(b, c, NewMove(b, m, c));
      }
    }
  }

  /** With no colour filter, the scan produces exactly the candidates of both colours. */
  lemma AllColorsExact(b: Board)
    ensures forall md :: md in AllMoves(b, None) <==> md in MyMoves(b, Black) || md in MyMoves(b, White)
  {
    forall md
      ensures md in AllMoves(b, None) <==> md in MyMoves(b, Black) || md in MyMoves(b, White)
    {
      if md in AllMoves(b, None) {
        AllMovesSound(b, None, md);
        AllMovesComplete(b, Some(md.color), md.move, md.color);
      }
      if md in MyMoves(b, Black) {
        MyMovesSound(b, Black, md);
        AllMovesComplete(b, None, md.move, Black);
      }
      if md in MyMoves(b, White) {
        MyMovesSound(b, White, md);
        AllMovesComplete(b, None, md.move, White);
      }
    }
  }
}
