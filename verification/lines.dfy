/** The candidate winning lines of an n-by-n board for win length w
    (`win_lines`): every horizontal, vertical, down-right and up-right run of
    w consecutive cells, generated family by family in that order. */
module Lines {
  import opened Board

  /** The four orientations, in the order the generator emits them. */
  datatype Dir = Horizontal | Vertical | DownRight | UpRight

  /** The i-th cell of the run that starts at `s` and steps along `d`
      (up-right runs climb: the row decreases as the column increases). */
  function Along(s: Pos, d: Dir, i: int): Pos
  {
    match d
    case Horizontal => Pos(s.row, s.col + i)
    case Vertical => Pos(s.row + i, s.col)
    case DownRight => Pos(s.row + i, s.col + i)
    case UpRight => Pos(s.row - i, s.col + i)
  }

  /** The run of `w` cells from `s` along `d`. */
  function Line(s: Pos, d: Dir, w: nat): seq<Pos>
  {
    seq(w, i => Along(s, d, i))
  }

  predicate AllInBounds(line: seq<Pos>, n: int)
  {
    forall i :: 0 <= i < |line| ==> InBounds(line[i], n)
  }

  /** A straight run of `w` cells that lies entirely on the board. */
  ghost predicate IsRun(line: seq<Pos>, n: nat, w: nat)
  {
    exists s, d :: line == Line(s, d, w) && AllInBounds(line, n)
  }

  /** How many starting offsets a run of `w` has along one axis of an
      n-cell side (`range(n - w + 1)`, empty when negative). */
  function Span(n: nat, w: nat): nat
  {
    if w <= n + 1 then n + 1 - w else 0
  }

  /** The number of values the outer loop of a family takes. */
  function Outer(d: Dir, n: nat, w: nat): nat
  {
    if d == Horizontal || d == Vertical then n else Span(n, w)
  }

  /** The start cell for outer index `a` and inner index `b`: rows iterate the
      row outside, columns the column outside, and up-right runs start at rows
      `w - 1` onwards. */
  function Start(d: Dir, a: int, b: int, w: nat): Pos
  {
    match d
    case Horizontal => Pos(a, b)
    case Vertical => Pos(b, a)
    case DownRight => Pos(a, b)
    case UpRight => Pos(w - 1 + a, b)
  }

  function Concat<T>(ss: seq<seq<T>>): seq<T>
  {
    if |ss| == 0 then [] else ss[0] + Concat(ss[1..])
  }

  lemma {:induction false} ConcatMember<T>(ss: seq<seq<T>>, x: T)
    ensures x in Concat(ss) <==> exists i, j :: 0 <= i < |ss| && 0 <= j < |ss[i]| && ss[i][j] == x
  {
    if |ss| > 0 {
      ConcatMember(ss[1..], x);
      if x in Concat(ss[1..]) {
        var i, j :| 0 <= i < |ss[1..]| && 0 <= j < |ss[1..][i]| && ss[1..][i][j] == x;
        assert ss[i + 1][j] == x;
      }
      if exists i, j :: 0 <= i < |ss| && 0 <= j < |ss[i]| && ss[i][j] == x {
        var i, j :| 0 <= i < |ss| && 0 <= j < |ss[i]| && ss[i][j] == x;
        if i > 0 {
          assert ss[1..][i - 1][j] == x;
        }
      }
    }
  }

  lemma {:induction false} ConcatLength<T>(ss: seq<seq<T>>, k: nat)
    requires forall i :: 0 <= i < |ss| ==> |ss[i]| == k
    ensures |Concat(ss)| == |ss| * k
  {
    if |ss| > 0 {
      ConcatLength(ss[1..], k);
      assert |ss| * k == k + (|ss| - 1) * k;
    }
  }

  /** The runs of one orientation, outer index first then inner index. */
  function Family(d: Dir, n: nat, w: nat): seq<seq<Pos>>
  {
    var m := Span(n, w);
    Concat(seq(Outer(d, n, w), a => seq(m, b => Line(Start(d, a, b, w), d, w))))
  }

  lemma FamilyMember(d: Dir, n: nat, w: nat, line: seq<Pos>)
    ensures line in Family(d, n, w) <==>
      exists a, b :: 0 <= a < Outer(d, n, w) && 0 <= b < Span(n, w) && line == Line(Start(d, a, b, w), d, w)
  {
    var m := Span(n, w);
    var ss := seq(Outer(d, n, w), a => seq(m, b => Line(Start(d, a, b, w), d, w)));
    ConcatMember(ss, line);
    if line in Family(d, n, w) {
      var a, b :| 0 <= a < |ss| && 0 <= b < |ss[a]| && ss[a][b] == line;
      assert line == Line(Start(d, a, b, w), d, w);
    }
    if exists a, b :: 0 <= a < Outer(d, n, w) && 0 <= b < m && line == Line(Start(d, a, b, w), d, w) {
      var a, b :| 0 <= a < Outer(d, n, w) && 0 <= b < m && line == Line(Start(d, a, b, w), d, w);
      assert ss[a][b] == line;
    }
  }

  lemma FamilyLength(d: Dir, n: nat, w: nat)
    ensures |Family(d, n, w)| == Outer(d, n, w) * Span(n, w)
  {
    var m := Span(n, w);
    ConcatLength(seq(Outer(d, n, w), a => seq(m, b => Line(Start(d, a, b, w), d, w))), m);
  }

  lemma {:induction false} ConcatSingletons<T>(ss: seq<seq<T>>)
    requires forall i :: 0 <= i < |ss| ==> |ss[i]| == 1
    ensures Concat(ss) == seq(|ss|, i requires 0 <= i < |ss| => ss[i][0])
  {
    if |ss| > 0 {
      ConcatSingletons(ss[1..]);
    }
  }

  /** When a run fits exactly once along an axis, a family has one run per
      outer index. */
  lemma FamilySpanOne(d: Dir, n: nat, w: nat)
    requires Span(n, w) == 1
    ensures |Family(d, n, w)| == Outer(d, n, w)
    ensures forall a :: 0 <= a < Outer(d, n, w) ==> Family(d, n, w)[a] == Line(Start(d, a, 0, w), d, w)
  {
    var m := Span(n, w);
    var ss := seq(Outer(d, n, w), a => seq(m, b => Line(Start(d, a, b, w), d, w)));
    ConcatSingletons(ss);
  }

  /** Every run a family generates has `w` cells, lies on the board and is straight. */
  lemma FamilyWellFormed(d: Dir, n: nat, w: nat)
    ensures forall line :: line in Family(d, n, w) ==> |line| == w && AllInBounds(line, n) && IsRun(line, n, w)
  {
    forall line | line in Family(d, n, w)
      ensures |line| == w && AllInBounds(line, n) && IsRun(line, n, w)
    {
      FamilyMember(d, n, w, line);
      var a, b :| 0 <= a < Outer(d, n, w) && 0 <= b < Span(n, w) && line == Line(Start(d, a, b, w), d, w);
      assert AllInBounds(line, n);
    }
  }

  lemma WinLinesCount(n: nat, w: nat)
    ensures |Family(Horizontal, n, w)| + |Family(Vertical, n, w)| + |Family(DownRight, n, w)| + |Family(UpRight, n, w)|
         == 2 * n * Span(n, w) + 2 * Span(n, w) * Span(n, w)
  {
    FamilyLength(Horizontal, n, w);
    FamilyLength(Vertical, n, w);
    FamilyLength(DownRight, n, w);
    FamilyLength(UpRight, n, w);
  }

  /** `win_lines(n, w)`: rows, then columns, then down-right diagonals, then
      up-right diagonals. There are 2·n·m + 2·m² of them for m = n - w + 1;
      each has exactly `w` cells, all on the board, and is a straight run. */
  function WinLines(n: nat, w: nat): (ls: seq<seq<Pos>>)
    ensures |ls| == 2 * n * Span(n, w) + 2 * Span(n, w) * Span(n, w)
    ensures forall line :: line in ls ==> |line| == w && AllInBounds(line, n) && IsRun(line, n, w)
  {
    WinLinesCount(n, w);
    FamilyWellFormed(Horizontal, n, w);
    FamilyWellFormed(Vertical, n, w);
    FamilyWellFormed(DownRight, n, w);
    FamilyWellFormed(UpRight, n, w);
    Family(Horizontal, n, w) + Family(Vertical, n, w) + Family(DownRight, n, w) + Family(UpRight, n, w)
  }

  /** Completeness: every straight run of `w` cells that lies on the board is
      generated, so together with the contract of `WinLines` the generated
      lines are exactly the on-board runs. */
  lemma WinLinesAreExactlyRuns(n: nat, w: nat, line: seq<Pos>)
    requires 1 <= w
    ensures line in WinLines(n, w) <==> IsRun(line, n, w)
  {
    if IsRun(line, n, w) {
      var s, d :| line == Line(s, d, w) && AllInBounds(line, n);
      assert InBounds(line[0], n) && InBounds(line[w - 1], n);
      var ab := match d
        case Horizontal => (s.row, s.col)
        case Vertical => (s.col, s.row)
        case DownRight => (s.row, s.col)
        case UpRight => (s.row - (w - 1), s.col);
      var a, b := ab.0, ab.1;
      assert Start(d, a, b, w) == s;
      FamilyMember(d, n, w, line);
      assert line in Family(d, n, w);
    }
  }
}
