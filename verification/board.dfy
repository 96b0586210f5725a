/** The board of every variant: an n-by-n grid of cells, each empty or holding
    one player's mark, together with the query helpers the engines share
    (fresh board, available moves in row-major order, fullness, piece counts). */
module Board {

  /** The two players. Their display symbols live elsewhere (see Engine.Symbols). */
  datatype Player = X | O

  function Opp(p: Player): (q: Player)
    ensures q != p
  {
    if p == X then O else X
  }

  /** A cell; the source stores `None`, "X" or "O". */
  datatype Cell = Empty | Mark(player: Player)

  datatype Option<T> = None | Some(value: T)

  datatype Pos = Pos(row: int, col: int)

  type Grid = seq<seq<Cell>>

  /** Every row has as many cells as there are rows. */
  predicate IsBoard(b: Grid)
  {
    forall r :: 0 <= r < |b| ==> |b[r]| == |b|
  }

  predicate InBounds(p: Pos, n: int)
  {
    0 <= p.row < n && 0 <= p.col < n
  }

  function At(b: Grid, p: Pos): Cell
    requires IsBoard(b) && InBounds(p, |b|)
  {
    b[p.row][p.col]
  }

  /** A fresh n-by-n board. */
  function NewBoard(n: nat): (b: Grid)
    ensures IsBoard(b) && |b| == n
    ensures forall r, c :: 0 <= r < n && 0 <= c < n ==> b[r][c] == Empty
  {
    seq(n, _ => seq(n, _ => Empty))
  }

  /** The board with cell `p` overwritten by `v` (a placement, or the reset to
      `None` that the search and the undo handlers perform). */
  function Place(b: Grid, p: Pos, v: Cell): (b': Grid)
    requires IsBoard(b) && InBounds(p, |b|)
    ensures IsBoard(b') && |b'| == |b|
    ensures b'[p.row][p.col] == v
    ensures forall r, c :: 0 <= r < |b| && 0 <= c < |b| && (r, c) != (p.row, p.col) ==> b'[r][c] == b[r][c]
  {
    b[p.row := b[p.row][p.col := v]]
  }

  /** Clearing a cell that was empty before a placement gives back the board
      exactly: the try-then-reset of the search and the undo handlers restore it. */
  lemma PlaceThenClear(b: Grid, p: Pos, v: Cell)
    requires IsBoard(b) && InBounds(p, |b|) && At(b, p) == Empty
    ensures Place(Place(b, p, v), p, Empty) == b
  {
    var b' := Place(Place(b, p, v), p, Empty);
    forall r | 0 <= r < |b|
      ensures b'[r] == b[r]
    {
      assert |b'[r]| == |b[r]|;
      forall c | 0 <= c < |b| ensures b'[r][c] == b[r][c] {
      }
    }
  }

  /** True iff no empty cell remains. */
  predicate BoardFull(b: Grid)
    requires IsBoard(b)
  {
    forall r, c :: 0 <= r < |b| && 0 <= c < |b| ==> b[r][c] != Empty
  }

  /** The row-major order on coordinates. */
  predicate Before(p: Pos, q: Pos)
  {
    p.row < q.row || (p.row == q.row && p.col < q.col)
  }

  /** The empty cells of row `r` whose column is at least `c`, left to right. */
  function AvailInRow(b: Grid, r: nat, c: nat): (ms: seq<Pos>)
    requires IsBoard(b) && r < |b|
    decreases |b| - c
    ensures forall i :: 0 <= i < |ms| ==> ms[i].row == r && c <= ms[i].col < |b|
    ensures forall q :: q in ms <==> q.row == r && c <= q.col < |b| && b[r][q.col] == Empty
    ensures forall i, j :: 0 <= i < j < |ms| ==> ms[i].col < ms[j].col
    ensures |ms| == 0 <==> forall k :: c <= k < |b| ==> b[r][k] != Empty
  {
    if c >= |b| then []
    else if b[r][c] == Empty then [Pos(r, c)] + AvailInRow(b, r, c + 1)
    else AvailInRow(b, r, c + 1)
  }

  /** The empty cells of rows `r` onwards, in row-major order. */
  function AvailFrom(b: Grid, r: nat): (ms: seq<Pos>)
    requires IsBoard(b)
    decreases |b| - r
    ensures forall i :: 0 <= i < |ms| ==> r <= ms[i].row
    ensures forall q :: q in ms <==> InBounds(q, |b|) && r <= q.row && At(b, q) == Empty
    ensures forall i, j :: 0 <= i < j < |ms| ==> Before(ms[i], ms[j])
    ensures |ms| == 0 <==> forall r', k :: r <= r' < |b| && 0 <= k < |b| ==> b[r'][k] != Empty
  {
    if r >= |b| then []
    else AvailInRow(b, r, 0) + AvailFrom(b, r + 1)
  }

  /** `avail_moves`: every empty cell, exactly once, in row-major order; there
      is none exactly when the board is full. */
  function AvailMoves(b: Grid): (ms: seq<Pos>)
    requires IsBoard(b)
    ensures forall q :: q in ms <==> InBounds(q, |b|) && At(b, q) == Empty
    ensures forall i, j :: 0 <= i < j < |ms| ==> Before(ms[i], ms[j])
    ensures |ms| == 0 <==> BoardFull(b)
  {
    AvailFrom(b, 0)
  }

  /** The number of cells of a row holding `v`. */
  function CountRow(row: seq<Cell>, v: Cell): (k: nat)
    ensures k <= |row|
  {
    if |row| == 0 then 0
    else (if row[|row| - 1] == v then 1 else 0) + CountRow(row[..|row| - 1], v)
  }

  /** The number of cells of a board holding `v`. */
  function CountBoard(b: Grid, v: Cell): nat
  {
    if |b| == 0 then 0
    else CountRow(b[|b| - 1], v) + CountBoard(b[..|b| - 1], v)
  }

  function Indicator(cond: bool): nat
  {
    if cond then 1 else 0
  }

  lemma {:induction false} CountRowUpdate(row: seq<Cell>, c: nat, v: Cell, w: Cell)
    requires c < |row|
    ensures CountRow(row[c := w], v) + Indicator(row[c] == v) == CountRow(row, v) + Indicator(w == v)
    decreases |row|
  {
    var last := |row| - 1;
    assert row[c := w][..last] == if c == last then row[..last] else row[..last][c := w];
    if c < last {
      CountRowUpdate(row[..last], c, v, w);
    }
  }

  lemma {:induction false} CountBoardUpdate(b: Grid, r: nat, row: seq<Cell>, c: nat, v: Cell, w: Cell)
    requires r < |b| && row == b[r] && c < |row|
    ensures CountBoard(b[r := row[c := w]], v) + Indicator(row[c] == v) == CountBoard(b, v) + Indicator(w == v)
    decreases |b|
  {
    var last := |b| - 1;
    var b' := b[r := row[c := w]];
    if r == last {
      assert b'[..last] == b[..last];
      CountRowUpdate(row, c, v, w);
    } else {
      assert b'[..last] == b[..last][r := row[c := w]];
      CountBoardUpdate(b[..last], r, row, c, v, w);
    }
  }

  /** Placing a mark on an empty cell adds exactly one piece of that player and
      leaves the other player's count alone. */
  lemma CountAfterPlace(b: Grid, p: Pos, who: Player, v: Cell)
    requires IsBoard(b) && InBounds(p, |b|) && At(b, p) == Empty && v != Empty
    ensures CountBoard(Place(b, p, Mark(who)), v) == CountBoard(b, v) + Indicator(v == Mark(who))
  {
    CountBoardUpdate(b, p.row, b[p.row], p.col, v, Mark(who));
  }

  lemma {:induction false} CountRowEmpty(row: seq<Cell>, v: Cell)
    requires forall c :: 0 <= c < |row| ==> row[c] == Empty
    requires v != Empty
    ensures CountRow(row, v) == 0
    decreases |row|
  {
    if |row| > 0 {
      CountRowEmpty(row[..|row| - 1], v);
    }
  }

  lemma {:induction false} CountBoardEmpty(b: Grid, v: Cell)
    requires forall r, c :: 0 <= r < |b| && 0 <= c < |b[r]| ==> b[r][c] == Empty
    requires v != Empty
    ensures CountBoard(b, v) == 0
    decreases |b|
  {
    if |b| > 0 {
      CountRowEmpty(b[|b| - 1], v);
      CountBoardEmpty(b[..|b| - 1], v);
    }
  }

  /** A fresh board holds no piece of either player. */
  lemma NewBoardCounts(n: nat, who: Player)
    ensures CountBoard(NewBoard(n), Mark(who)) == 0
  {
    CountBoardEmpty(NewBoard(n), Mark(who));
  }

  /** Every cell of a row is empty or holds X or O, and no cell of the row is
      empty exactly when the empty count is zero. */
  lemma {:induction false} RowCountsSum(row: seq<Cell>)
    ensures CountRow(row, Mark(X)) + CountRow(row, Mark(O)) + CountRow(row, Empty) == |row|
    ensures CountRow(row, Empty) == 0 <==> forall c :: 0 <= c < |row| ==> row[c] != Empty
    decreases |row|
  {
    if |row| > 0 {
      var init := row[..|row| - 1];
      RowCountsSum(init);
      assert forall c :: 0 <= c < |init| ==> init[c] == row[c];
      match row[|row| - 1]
      case Empty =>
      case Mark(p) => assert p == X || p == O;
    }
  }

  /** The same for a grid whose rows all have `n` cells. */
  lemma {:induction false} GridCountsSum(b: Grid, n: nat)
    requires forall r :: 0 <= r < |b| ==> |b[r]| == n
    ensures CountBoard(b, Mark(X)) + CountBoard(b, Mark(O)) + CountBoard(b, Empty) == |b| * n
    ensures CountBoard(b, Empty) == 0 <==> forall r, c :: 0 <= r < |b| && 0 <= c < n ==> b[r][c] != Empty
    decreases |b|
  {
    if |b| > 0 {
      var init := b[..|b| - 1];
      GridCountsSum(init, n);
      RowCountsSum(b[|b| - 1]);
      assert |b| * n == (|b| - 1) * n + n;
      assert forall r :: 0 <= r < |init| ==> init[r] == b[r];
    }
  }

  /** `board_full`: the board is full exactly when the two players' pieces
      fill all n² cells. */
  lemma BoardFullIffPiecesFill(b: Grid)
    requires IsBoard(b)
    ensures BoardFull(b) <==> CountBoard(b, Mark(X)) + CountBoard(b, Mark(O)) == |b| * |b|
  {
    GridCountsSum(b, |b|);
  }
}
