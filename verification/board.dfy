/**
 * The board the engine reads: colours, piece kinds, squares, an 8x8 board
 * stored row by row, the tile tests (`TileIsValid`, `TileIsFree`,
 * `TileHasColor`, `GetChessPieceColor`, `EnemyColor`, `GetPiecePosition`)
 * and the move application the host library performs on a cloned board.
 */
module ChessBoard {

  datatype Option<+T> = None | Some(value: T)

  datatype Color = Black | White

  datatype Kind = Pawn | Knight | Bishop | Rook | Queen | King

  /** The content of a square: nothing, or a piece of one kind and one colour. */
  datatype Piece = Empty | P(kind: Kind, color: Color)

  /** A file/rank pair, possibly off the board. */
  datatype Sq = Sq(x: int, y: int)

  /** Bounds test for a coordinate pair (`TileIsValid`). */
  predicate Valid(x: int, y: int)
    ensures Valid(x, y) <==> 0 <= x < 8 && 0 <= y < 8
  {
    !(x < 0 || y < 0 || x > 7 || y > 7)
  }

  /** A square on the board; locations are only ever built after the bounds test. */
  type Square = s: Sq | Valid(s.x, s.y) witness Sq(0, 0)

  /** The 64 cells in row order: the cell of (x, y) is `x + 8 * y`. */
  type Board = b: seq<Piece> | |b| == 64 witness seq(64, _ => Empty)

  /** A move between two squares; flags and scores live with the evaluation. */
  datatype Move = Move(from: Square, to: Square)

  /** The square stored in cell `i`. */
  function SquareAt(i: int): (s: Square)
    requires 0 <= i < 64
    ensures s.x + 8 * s.y == i
  {
    Sq(i % 8, i / 8)
  }

  /** The board indexer `board[x, y]`. */
  function At(b: Board, s: Square): Piece
  {
    b[s.x + 8 * s.y]
  }

  function KindRank(k: Kind): int
  {
    match k
    case Pawn => 1
    case Knight => 2
    case Bishop => 3
    case Rook => 4
    case Queen => 5
    case King => 6
  }

  /**
   * The value of a piece in the host's piece enumeration: every Black piece
   * is ordered below Empty and every White piece above it.
   */
  function Ordinal(p: Piece): int
  {
    match p
    case Empty => 0
    case P(k, Black) => -KindRank(k)
    case P(k, White) => KindRank(k)
  }

  /**
   * `GetChessPieceColor`: the colour is read off the enumeration order
   * relative to Empty. Asking for the colour of Empty is the source's
   * "you didn't check whether this was an empty tile" exception, so it is
   * excluded here and every caller tests for Empty first.
   */
  function ColorOf(p: Piece): (c: Color)
    requires p != Empty
    ensures c == p.color
  {
    if Ordinal(p) < Ordinal(Empty) then Black
    else
      assert Ordinal(p) > Ordinal(Empty);
      White
  }

  /** `EnemyColor`. */
  function Enemy(c: Color): (e: Color)
    ensures e != c
  {
    if c == Black then White else Black
  }

  /** `TileIsFree`. */
  predicate IsFree(b: Board, s: Square)
    ensures IsFree(b, s) <==> !HasColor(b, s, Black) && !HasColor(b, s, White)
  {
    At(b, s) == Empty
  }

  /** `TileHasColor`: the square holds a piece and that piece is of colour `c`. */
  predicate HasColor(b: Board, s: Square, c: Color)
    ensures HasColor(b, s, c) <==> At(b, s).P? && At(b, s).color == c
  {
    var piece := At(b, s);
    if piece == Empty then false else c == ColorOf(piece)
  }

  /** The square at position `n` of the x-major scan of `GetPiecePosition`, whose position is `8 * x + y`. */
  function ScanSquare(n: int): (s: Square)
    requires 0 <= n < 64
    ensures 8 * s.x + s.y == n
  {
    Sq(n / 8, n % 8)
  }

  /** The position of the first occurrence of `x` in `xs`; `None` when there is none. */
  function IndexOf<T(==)>(xs: seq<T>, x: T): (r: Option<nat>)
    ensures r.Some? ==> r.value < |xs| && xs[r.value] == x
    ensures r.Some? ==> forall j :: 0 <= j < r.value ==> xs[j] != x
    ensures r.None? ==> x !in xs
  {
    if xs == [] then None
    else if xs[0] == x then Some(0)
    else
      match IndexOf(xs[1..], x)
      case None => None
      case Some(k) =>
        assert forall j :: 1 <= j <= k ==> xs[j] == xs[1..][j - 1];
        Some(k + 1)
  }

  /** The cells in the order `GetPiecePosition` scans them: column `x` outer, row `y` inner. */
  function ScanCells(b: Board): (cells: seq<Piece>)
    ensures |cells| == 64
    ensures forall n {:trigger ScanSquare(n)} :: 0 <= n < 64 ==> cells[n] == At(b, ScanSquare(n))
  {
    seq(64, n requires 0 <= n < 64 => At(b, ScanSquare(n)))
  }

  /** `s` comes before `t` in the scan of `GetPiecePosition`: a smaller column, or the same column and a smaller row. */
  predicate ScannedBefore(s: Square, t: Square)
  {
    s.x < t.x || (s.x == t.x && s.y < t.y)
  }

  /** Every square occupies its own position of the scanned cells. */
  lemma ScanCellsAt(b: Board, s: Square)
    ensures ScanCells(b)[8 * s.x + s.y] == At(b, s)
  {
    assert ScanSquare(8 * s.x + s.y) == s;
  }

  /** `GetPiecePosition`: the first square in scan order that holds `p`; `None` when there is none. */
  function FindPiece(b: Board, p: Piece): (r: Option<Square>)
    ensures r.Some? ==> At(b, r.value) == p
    ensures r.Some? ==> forall s: Square :: ScannedBefore(s, r.value) ==> At(b, s) != p
    ensures r.None? ==> forall s: Square :: At(b, s) != p
  {
    match IndexOf(ScanCells(b), p)
    case None =>
      forall s: Square
        ensures At(b, s) != p
      {
        ScanCellsAt(b, s);
      }
      None
    case Some(n) =>
      var t := ScanSquare(n);
      forall s: Square | ScannedBefore(s, t)
        ensures At(b, s) != p
      {
        ScanCellsAt(b, s);
      }
      Some(t)
  }

  /**
   * The host's `MakeMove` on a cloned board, as this model assumes it: the
   * piece on `from` moves to `to`, `from` becomes empty, nothing is promoted
   * and no other square changes.
   */
  function Apply(b: Board, m: Move): (nb: Board)
    ensures m.from != m.to ==> At(nb, m.to) == At(b, m.from)
    ensures At(nb, m.from) == Empty
    ensures forall s: Square :: s != m.from && s != m.to ==> At(nb, s) == At(b, s)
  {
    b[m.to.x + 8 * m.to.y := At(b, m.from)][m.from.x + 8 * m.from.y := Empty]
  }
}
