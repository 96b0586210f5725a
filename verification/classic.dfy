/** The fixed 3-by-3 detector of the three small variants: test the three
    rows, the three columns, the main diagonal and the anti-diagonal in that
    order, report the first triple held by one player, and otherwise report a
    draw on a full board and no result on a board with a free cell. The
    variants differ only in what they return; this is the richest form
    (verdict and cells). */
module Classic {
  import opened Board
  import opened Lines
  import opened Winner

  function Row(r: int): seq<Pos>
  {
    [Pos(r, 0), Pos(r, 1), Pos(r, 2)]
  }

  function Col(c: int): seq<Pos>
  {
    [Pos(0, c), Pos(1, c), Pos(2, c)]
  }

  const Diagonal: seq<Pos> := [Pos(0, 0), Pos(1, 1), Pos(2, 2)]

  /** From the top-right corner down to the bottom-left one. */
  const AntiDiagonal: seq<Pos> := [Pos(0, 2), Pos(1, 1), Pos(2, 0)]

  /** The eight triples in the order the detectors test them. */
  const Triples: seq<seq<Pos>> := [Row(0), Row(1), Row(2), Col(0), Col(1), Col(2), Diagonal, AntiDiagonal]

  /** A result: a player's win, a draw, or no result yet (`None`). */
  datatype Verdict = Undecided | Won(player: Player) | Drawn

  /** The verdict and the winning cells (empty unless someone won). */
  datatype Outcome = Outcome(verdict: Verdict, cells: seq<Pos>)

  lemma TriplesOnBoard(b: Grid)
    requires IsBoard(b) && |b| == 3
    ensures LinesOnBoard(b, Triples)
  {
  }

  /** No triple is held entirely by one player. */
  predicate NoUniformTriple(b: Grid)
    requires IsBoard(b) && |b| == 3
  {
    forall k, p :: 0 <= k < |Triples| ==> !Uniform(b, Triples[k], p)
  }

  /** `check_winner(board)`: the first triple (in testing order) whose three
      cells hold the same player, else a draw on a full board, else no result.
      The contract gives the shape of each verdict; `CheckWinnerSpec` says
      exactly when each one is reported. */
  function CheckWinner(b: Grid): (r: Outcome)
    requires IsBoard(b) && |b| == 3
    ensures r.verdict.Won? ==> r.cells in Triples && Uniform(b, r.cells, r.verdict.player)
    ensures r.verdict.Drawn? ==> BoardFull(b)
    ensures !r.verdict.Won? ==> r.cells == []
  {
    TriplesOnBoard(b);
    match FirstWinning(b, Triples)
    case Some(win) => Outcome(Won(win.player), win.line)
    case None => if BoardFull(b) then Outcome(Drawn, []) else Outcome(Undecided, [])
  }

  /** A win is the first held triple in testing order; a draw is a full
      board with no held triple, so a win on the last free cell is a win and
      not a draw; no result exactly when no triple is held and a cell is
      free. */
  lemma CheckWinnerSpec(b: Grid)
    requires IsBoard(b) && |b| == 3
    ensures LinesOnBoard(b, Triples)
    ensures var r := CheckWinner(b);
            && (r.verdict.Won? ==>
                  exists k :: 0 <= k < |Triples| && r.cells == Triples[k]
                              && forall j :: 0 <= j < k ==> LineOwner(b, Triples[j]).None?)
            && (r.verdict.Drawn? <==> NoUniformTriple(b) && BoardFull(b))
            && (r.verdict.Undecided? <==> NoUniformTriple(b) && !BoardFull(b))
  {
    TriplesOnBoard(b);
  }

  /** The up-right diagonal as the general generator emits it: from the
      bottom-left corner up to the top-right one. */
  const UpRightDiagonal: seq<Pos> := [Pos(2, 0), Pos(1, 1), Pos(0, 2)]

  /** For a 3-by-3 board and win length 3 the general generator emits the
      eight triples in the same order; only the last one runs the other way. */
  lemma WinLinesThreeByThree()
    ensures WinLines(3, 3) == Triples[..7] + [UpRightDiagonal]
  {
    RowsThreeByThree();
    ColumnsThreeByThree();
    DiagonalsThreeByThree();
    assert Triples[..7] + [UpRightDiagonal]
        == [Row(0), Row(1), Row(2)] + [Col(0), Col(1), Col(2)] + [Diagonal] + [UpRightDiagonal];
  }

  lemma RowsThreeByThree()
    ensures Family(Horizontal, 3, 3) == [Row(0), Row(1), Row(2)]
  {
    FamilySpanOne(Horizontal, 3, 3);
    var h := Family(Horizontal, 3, 3);
    assert h[0] == Row(0) && h[1] == Row(1) && h[2] == Row(2);
  }

  lemma ColumnsThreeByThree()
    ensures Family(Vertical, 3, 3) == [Col(0), Col(1), Col(2)]
  {
    FamilySpanOne(Vertical, 3, 3);
    var v := Family(Vertical, 3, 3);
    assert v[0] == Col(0) && v[1] == Col(1) && v[2] == Col(2);
  }

  lemma DiagonalsThreeByThree()
    ensures Family(DownRight, 3, 3) == [Diagonal]
    ensures Family(UpRight, 3, 3) == [UpRightDiagonal]
  {
    FamilySpanOne(DownRight, 3, 3);
    FamilySpanOne(UpRight, 3, 3);
    assert Family(DownRight, 3, 3)[0] == Diagonal;
    assert Family(UpRight, 3, 3)[0] == UpRightDiagonal;
  }

  /** On a triple, the owner test reads the three cells. */
  lemma LineOwnerTriple(b: Grid, t: seq<Pos>)
    requires IsBoard(b) && AllInBounds(t, |b|) && |t| == 3
    ensures LineOwner(b, t) ==
      if At(b, t[0]) != Empty && At(b, t[1]) == At(b, t[0]) && At(b, t[2]) == At(b, t[0])
      then Some(At(b, t[0]).player) else None
  {
    if At(b, t[0]) != Empty && At(b, t[1]) == At(b, t[0]) && At(b, t[2]) == At(b, t[0]) {
      assert forall i :: 0 <= i < |t| ==> At(b, t[i]) == At(b, t[0]);
    }
  }

  /** Index by index, the general generator's lines are the triples, except
      the last, which is the anti-diagonal reversed. */
  lemma LinesByIndex()
    ensures |WinLines(3, 3)| == |Triples|
    ensures forall k :: 0 <= k < 7 ==> WinLines(3, 3)[k] == Triples[k]
    ensures WinLines(3, 3)[7] == UpRightDiagonal
  {
    WinLinesThreeByThree();
  }

  /** The general generator's lines for a 3-by-3 board lie on it. */
  lemma GeneralOnBoard(b: Grid)
    requires IsBoard(b) && |b| == 3
    ensures LinesOnBoard(b, WinLines(3, 3))
  {
    var general := WinLines(3, 3);
    forall k | 0 <= k < |general|
      ensures AllInBounds(general[k], 3)
    {
      assert general[k] in general;
    }
  }

  /** The anti-diagonal has the same owner in either direction. */
  lemma ReversedDiagonalOwner(b: Grid)
    requires IsBoard(b) && |b| == 3
    ensures AllInBounds(AntiDiagonal, 3) && AllInBounds(UpRightDiagonal, 3)
    ensures LineOwner(b, AntiDiagonal) == LineOwner(b, UpRightDiagonal)
  {
    LineOwnerTriple(b, AntiDiagonal);
    LineOwnerTriple(b, UpRightDiagonal);
  }

  /** Index by index, a triple and the general generator's line have the
      same owner. */
  lemma OwnersAgree(b: Grid)
    requires IsBoard(b) && |b| == 3
    ensures LinesOnBoard(b, Triples) && LinesOnBoard(b, WinLines(3, 3)) && |WinLines(3, 3)| == |Triples|
    ensures forall k :: 0 <= k < |Triples| ==> LineOwner(b, Triples[k]) == LineOwner(b, WinLines(3, 3)[k])
  {
    var general := WinLines(3, 3);
    LinesByIndex();
    TriplesOnBoard(b);
    GeneralOnBoard(b);
    ReversedDiagonalOwner(b);
    forall k | 0 <= k < |Triples|
      ensures LineOwner(b, Triples[k]) == LineOwner(b, general[k])
    {
      if k < 7 {
        assert general[k] == Triples[k];
      }
    }
  }

  /** The general detector on a 3-by-3 board is the scan of the generated lines. */
  lemma GeneralIsScan(b: Grid)
    requires IsBoard(b) && |b| == 3 && LinesOnBoard(b, WinLines(3, 3))
    ensures Winner.CheckWinner(b, 3) == FirstWinning(b, WinLines(3, 3))
  {
  }

  /** On a 3-by-3 board the fixed detector and the general one with win
      length 3 agree: one reports a win exactly when the other does, for the
      same player, and on the same three cells (the anti-diagonal listed in
      the opposite order). */
  lemma AgreesWithGeneral(b: Grid)
    requires IsBoard(b) && |b| == 3
    ensures var g := Winner.CheckWinner(b, 3);
            var c := CheckWinner(b);
            && (g.None? <==> !c.verdict.Won?)
            && (g.Some? ==> c.verdict == Won(g.value.player)
                            && (set q | q in g.value.line) == (set q | q in c.cells))
  {
    var general := WinLines(3, 3);
    OwnersAgree(b);
    LinesByIndex();
    GeneralIsScan(b);
    FirstWinningParallel(b, Triples, general);
    var g := FirstWinning(b, general);
    var f := FirstWinning(b, Triples);
    if g.Some? {
      var k :| 0 <= k < |Triples| && f.value.line == Triples[k] && g.value.line == general[k];
      SameCells(g.value.line, f.value.line);
    }
  }

  /** A generated line and the triple at the same index cover the same cells. */
  lemma SameCells(l1: seq<Pos>, l2: seq<Pos>)
    requires l1 == l2 || (l1 == UpRightDiagonal && l2 == AntiDiagonal)
    ensures (set q | q in l1) == (set q | q in l2)
  {
  }
}
