/** Winner detection over a list of candidate lines, and the general detector
    `check_winner(board, win_len)` of the N-by-N engine, which scans the lines
    of `win_lines` in generation order and reports the first uniform one. */
module Winner {
  import opened Board
  import opened Lines

  /** A detected win: the owner and the line that is entirely theirs. */
  datatype Win = Win(player: Player, line: seq<Pos>)

  /** Every cell of every candidate line lies on the board. */
  predicate LinesOnBoard(b: Grid, lines: seq<seq<Pos>>)
  {
    IsBoard(b) && forall k :: 0 <= k < |lines| ==> AllInBounds(lines[k], |b|)
  }

  /** `p` holds every cell of a nonempty line. */
  predicate Uniform(b: Grid, line: seq<Pos>, p: Player)
    requires IsBoard(b) && AllInBounds(line, |b|)
  {
    |line| > 0 && forall i :: 0 <= i < |line| ==> At(b, line[i]) == Mark(p)
  }

  /** The test the source applies to one line: its first cell is occupied and
      every cell equals the first. */
  function LineOwner(b: Grid, line: seq<Pos>): (r: Option<Player>)
    requires IsBoard(b) && AllInBounds(line, |b|)
    ensures r.Some? ==> Uniform(b, line, r.value)
    ensures r.None? <==> forall p :: !Uniform(b, line, p)
  {
    if |line| > 0 && At(b, line[0]) != Empty && forall i :: 0 <= i < |line| ==> At(b, line[i]) == At(b, line[0])
    then
      var p := At(b, line[0]).player;
      assert Uniform(b, line, p);
      Some(p)
    else None
  }

  /** The first line (in list order) owned by a player, if any. */
  function FirstWinning(b: Grid, lines: seq<seq<Pos>>): (r: Option<Win>)
    requires LinesOnBoard(b, lines)
    ensures r.None? <==> forall k :: 0 <= k < |lines| ==> LineOwner(b, lines[k]).None?
    ensures r.Some? ==> exists k :: 0 <= k < |lines| && lines[k] == r.value.line
                          && Uniform(b, lines[k], r.value.player)
                          && forall j :: 0 <= j < k ==> LineOwner(b, lines[j]).None?
  {
    if |lines| == 0 then None
    else
      match LineOwner(b, lines[0])
      case Some(p) => Some(Win(p, lines[0]))
      case None =>
        var rest := FirstWinning(b, lines[1..]);
        assert forall k :: 1 <= k < |lines| ==> lines[k] == lines[1..][k - 1];
        rest
  }

  /** Two scans over lists whose k-th lines have the same owner report the
      same player at the same position. */
  lemma {:induction false} FirstWinningParallel(b: Grid, l1: seq<seq<Pos>>, l2: seq<seq<Pos>>)
    requires LinesOnBoard(b, l1) && LinesOnBoard(b, l2) && |l1| == |l2|
    requires forall k :: 0 <= k < |l1| ==> LineOwner(b, l1[k]) == LineOwner(b, l2[k])
    ensures FirstWinning(b, l1).None? <==> FirstWinning(b, l2).None?
    ensures FirstWinning(b, l1).Some? ==>
      FirstWinning(b, l1).value.player == FirstWinning(b, l2).value.player
      && exists k :: 0 <= k < |l1| && FirstWinning(b, l1).value.line == l1[k] && FirstWinning(b, l2).value.line == l2[k]
  {
    if |l1| > 0 && LineOwner(b, l1[0]).None? {
      FirstWinningParallel(b, l1[1..], l2[1..]);
      if FirstWinning(b, l1).Some? {
        var k :| 0 <= k < |l1[1..]| && FirstWinning(b, l1[1..]).value.line == l1[1..][k] && FirstWinning(b, l2[1..]).value.line == l2[1..][k];
        assert FirstWinning(b, l1).value.line == l1[k + 1];
      }
    } else if |l1| > 0 {
      assert FirstWinning(b, l1).value.line == l1[0];
    }
  }

  /** `check_winner(board, win_len)`: the first line of `win_lines` whose cells
      all hold the same player. The contract gives the shape of a reported
      win; `CheckWinnerSpec` says which line is reported and when none is. */
  function CheckWinner(b: Grid, w: nat): (r: Option<Win>)
    requires IsBoard(b) && 1 <= w
    ensures r.Some? ==> |r.value.line| == w && AllInBounds(r.value.line, |b|) && Uniform(b, r.value.line, r.value.player)
  {
    var lines := WinLines(|b|, w);
    assert forall k :: 0 <= k < |lines| ==> lines[k] in lines;
    FirstWinning(b, lines)
  }

  /** The reported line is the first uniform line of `win_lines`, and there
      is none exactly when no generated line is uniform. */
  lemma CheckWinnerSpec(b: Grid, w: nat)
    requires IsBoard(b) && 1 <= w
    ensures var r := CheckWinner(b, w);
            var lines := WinLines(|b|, w);
            && (r.Some? ==> exists k :: 0 <= k < |lines| && lines[k] == r.value.line
                              && forall j :: 0 <= j < k ==> LineOwner(b, lines[j]).None?)
            && (r.None? <==> forall line, p :: line in lines ==> !Uniform(b, line, p))
  {
    var lines := WinLines(|b|, w);
    assert forall k :: 0 <= k < |lines| ==> lines[k] in lines;
  }

  /** No winner exactly when no straight on-board run of `w` cells is held
      entirely by one player. */
  lemma NoWinnerIffNoUniformRun(b: Grid, w: nat)
    requires IsBoard(b) && 1 <= w
    ensures CheckWinner(b, w).None? <==>
      forall line, p :: IsRun(line, |b|, w) && AllInBounds(line, |b|) ==> !Uniform(b, line, p)
  {
    CheckWinnerSpec(b, w);
    forall line | IsRun(line, |b|, w)
      ensures line in WinLines(|b|, w)
    {
      WinLinesAreExactlyRuns(|b|, w, line);
    }
  }
}
