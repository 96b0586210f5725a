/** The AI player of the N-by-N engine: the potential-line `heuristic`, the
    depth-limited `minimax` and the move decision of `ai_move`.

    The source tries each available move by writing the mover's mark into the
    board, recursing, and writing `None` back. Here boards are values: a trial
    is `Place(b, m, Mark(p))`, and `Board.PlaceThenClear` is the fact that the
    write-back restores the board exactly. The source's loop, which evaluates
    and compares in one pass, is split into `ChildScores` (evaluation) and
    `SelectBest` (the strict-comparison fold); both are pure, so the order of
    evaluation does not change the result. */
module Search {
  import opened Board
  import opened Lines
  import opened Winner

  // ---------------------------------------------------------------------
  // Heuristic
  // ---------------------------------------------------------------------

  /** Cells of `line` holding `p`. */
  function CountOn(b: Grid, line: seq<Pos>, p: Player): (k: nat)
    requires IsBoard(b) && AllInBounds(line, |b|)
    ensures k <= |line|
  {
    if |line| == 0 then 0
    else (if At(b, line[0]) == Mark(p) then 1 else 0) + CountOn(b, line[1..], p)
  }

  /** The opponent of `p` holds no cell of `line`. */
  predicate OpenFor(b: Grid, line: seq<Pos>, p: Player)
    requires IsBoard(b) && AllInBounds(line, |b|)
  {
    forall i :: 0 <= i < |line| ==> At(b, line[i]) == Empty || At(b, line[i]) == Mark(p)
  }

  /** `count_p`: over the lines still open for `p`, the number of `p`'s marks
      on each plus one. */
  function Potential(b: Grid, lines: seq<seq<Pos>>, p: Player): (k: nat)
    requires LinesOnBoard(b, lines)
    ensures k == 0 <==> forall i :: 0 <= i < |lines| ==> !OpenFor(b, lines[i], p)
  {
    if |lines| == 0 then 0
    else (if OpenFor(b, lines[0], p) then CountOn(b, lines[0], p) + 1 else 0) + Potential(b, lines[1..], p)
  }

  /** `heuristic(board, win_len, ai_p, human_p)`: the AI's potential minus
      the human's. Each side's potential is at most `w + 1` per line, and the
      score cannot favour a side that has no line left open. */
  function Heuristic(b: Grid, w: nat, ai: Player, human: Player): (h: int)
    requires IsBoard(b)
    ensures -|WinLines(|b|, w)| * (w + 1) <= h <= |WinLines(|b|, w)| * (w + 1)
    ensures (forall line :: line in WinLines(|b|, w) ==> !OpenFor(b, line, human)) ==> h >= 0
    ensures (forall line :: line in WinLines(|b|, w) ==> !OpenFor(b, line, ai)) ==> h <= 0
  {
    var lines := WinLines(|b|, w);
    assert forall k :: 0 <= k < |lines| ==> lines[k] in lines;
    PotentialBound(b, lines, ai, w);
    PotentialBound(b, lines, human, w);
    Potential(b, lines, ai) - Potential(b, lines, human)
  }

  /** The board with every X turned into O and every O into X. */
  function Mirror(b: Grid): (m: Grid)
    requires IsBoard(b)
    ensures IsBoard(m) && |m| == |b|
    ensures forall r, c :: 0 <= r < |b| && 0 <= c < |b| ==>
      m[r][c] == (if b[r][c] == Empty then Empty else Mark(Opp(b[r][c].player)))
  {
    seq(|b|, r requires 0 <= r < |b| => seq(|b|, c requires 0 <= c < |b| =>
      if b[r][c] == Empty then Empty else Mark(Opp(b[r][c].player))))
  }

  lemma {:induction false} CountOnMirror(b: Grid, line: seq<Pos>, p: Player)
    requires IsBoard(b) && AllInBounds(line, |b|)
    ensures CountOn(Mirror(b), line, p) == CountOn(b, line, Opp(p))
    decreases |line|
  {
    if |line| > 0 {
      CountOnMirror(b, line[1..], p);
    }
  }

  lemma {:induction false} PotentialMirror(b: Grid, lines: seq<seq<Pos>>, p: Player)
    requires LinesOnBoard(b, lines)
    ensures LinesOnBoard(Mirror(b), lines)
    ensures Potential(Mirror(b), lines, p) == Potential(b, lines, Opp(p))
    decreases |lines|
  {
    if |lines| > 0 {
      PotentialMirror(b, lines[1..], p);
      CountOnMirror(b, lines[0], p);
      assert OpenFor(Mirror(b), lines[0], p) == OpenFor(b, lines[0], Opp(p));
    }
  }

  /** The heuristic is antisymmetric: exchanging every X and O on the board
      negates the score. The first clause, exchanging the roles of the two
      symbols, is immediate from the score being a difference of potentials;
      the second needs the potentials of the mirrored board. */
  lemma HeuristicAntisymmetric(b: Grid, w: nat, ai: Player)
    requires IsBoard(b)
    ensures Heuristic(b, w, Opp(ai), ai) == -Heuristic(b, w, ai, Opp(ai))
    ensures Heuristic(Mirror(b), w, ai, Opp(ai)) == -Heuristic(b, w, ai, Opp(ai))
  {
    var lines := WinLines(|b|, w);
    assert forall k :: 0 <= k < |lines| ==> lines[k] in lines;
    PotentialMirror(b, lines, ai);
    PotentialMirror(b, lines, Opp(ai));
  }

  /** Consequently the empty board scores 0 for either side. */
  lemma HeuristicEmptyBoard(n: nat, w: nat, ai: Player)
    ensures Heuristic(NewBoard(n), w, ai, Opp(ai)) == 0
  {
    var b := NewBoard(n);
    forall r | 0 <= r < n
      ensures Mirror(b)[r] == b[r]
    {
      assert |Mirror(b)[r]| == |b[r]|;
    }
    assert Mirror(b) == b;
    HeuristicAntisymmetric(b, w, ai);
  }

  lemma {:induction false} PotentialBound(b: Grid, lines: seq<seq<Pos>>, p: Player, w: nat)
    requires LinesOnBoard(b, lines)
    requires forall k :: 0 <= k < |lines| ==> |lines[k]| == w
    ensures Potential(b, lines, p) <= |lines| * (w + 1)
    decreases |lines|
  {
    if |lines| > 0 {
      PotentialBound(b, lines[1..], p, w);
      assert |lines| * (w + 1) == (w + 1) + (|lines| - 1) * (w + 1);
    }
  }

  lemma LineCountBound(n: nat, w: nat)
    requires n <= 5 && 1 <= w <= n
    ensures |WinLines(n, w)| * (w + 1) <= 600
  {
    var m := Span(n, w);
    assert 1 <= m <= 5 && w + m == n + 1;
    WinLinesBoundStep(n, m, w, |WinLines(n, w)|);
  }

  lemma WinLinesBoundStep(n: nat, m: nat, w: nat, count: nat)
    requires 1 <= n <= 5 && 1 <= m && 1 <= w && w + m == n + 1
    requires count == 2 * n * m + 2 * m * m
    ensures count * (w + 1) <= 600
  {
    if n == 1 { } else if n == 2 { } else if n == 3 { } else if n == 4 {
      if m == 1 { } else if m == 2 { } else if m == 3 { } else { }
    } else {
      if m == 1 { } else if m == 2 { } else if m == 3 { } else if m == 4 { } else { }
    }
  }

  /** On the board sizes the settings allow, the heuristic stays within ±600. */
  lemma HeuristicBound(b: Grid, w: nat, ai: Player, human: Player)
    requires IsBoard(b) && |b| <= 5 && 1 <= w <= |b|
    ensures -600 <= Heuristic(b, w, ai, human) <= 600
  {
    var lines := WinLines(|b|, w);
    assert forall k :: 0 <= k < |lines| ==> lines[k] in lines;
    PotentialBound(b, lines, ai, w);
    PotentialBound(b, lines, human, w);
    LineCountBound(|b|, w);
  }

  // ---------------------------------------------------------------------
  // Minimax
  // ---------------------------------------------------------------------

  /** A search result: the score and the move that achieves it, if any. */
  datatype Scored = Scored(score: int, move: Option<Pos>)

  /** `10**9`, the initial best value of the source's loops. */
  const Infinity: int := 1000000000

  /** The strict comparison of the source: `>` when maximizing, `<` when
      minimizing. */
  predicate Better(isMax: bool, a: int, b: int)
  {
    if isMax then a > b else a < b
  }

  function InitialBest(isMax: bool): int
  {
    if isMax then -Infinity else Infinity
  }

  /** The source's selection loop: scan the moves in order and keep a move
      only when its score is strictly better than the best so far. The result
      is the accumulator when no score beats it; otherwise it is the first
      move whose score is optimal, every earlier move scoring strictly worse
      and no later move scoring better. */
  function SelectBest(isMax: bool, moves: seq<Pos>, scores: seq<int>, best: int, bestMove: Option<Pos>): (r: Scored)
    requires |moves| == |scores|
    ensures !Better(isMax, best, r.score)
    ensures forall j :: 0 <= j < |scores| ==> !Better(isMax, scores[j], r.score)
    ensures (r == Scored(best, bestMove) && forall j :: 0 <= j < |scores| ==> !Better(isMax, scores[j], best))
         || (exists i :: 0 <= i < |scores| && r == Scored(scores[i], Some(moves[i]))
               && Better(isMax, scores[i], best)
               && forall j :: 0 <= j < i ==> Better(isMax, scores[i], scores[j]))
    ensures r.move == bestMove || r.move.value in moves
  {
    if |moves| == 0 then Scored(best, bestMove)
    else if Better(isMax, scores[0], best) then
      var r := SelectBest(isMax, moves[1..], scores[1..], scores[0], Some(moves[0]));
      assert forall j :: 1 <= j < |scores| ==> scores[j] == scores[1..][j - 1];
      assert forall j :: 1 <= j < |moves| ==> moves[j] == moves[1..][j - 1];
      r
    else
      var r := SelectBest(isMax, moves[1..], scores[1..], best, bestMove);
      assert forall j :: 1 <= j < |scores| ==> scores[j] == scores[1..][j - 1];
      assert forall j :: 1 <= j < |moves| ==> moves[j] == moves[1..][j - 1];
      r
  }

  /** The search stops here: a win for either side, a full board, or the
      depth limit. */
  predicate Terminal(b: Grid, w: nat, depth: nat, maxDepth: nat, ai: Player, human: Player)
    requires IsBoard(b) && 1 <= w
  {
    || (CheckWinner(b, w).Some? && CheckWinner(b, w).value.player in {ai, human})
    || BoardFull(b)
    || depth >= maxDepth
  }

  /** The scores of trying each of `moves` for the side to move, one level
      deeper, in order. */
  function ChildScores(b: Grid, w: nat, depth: nat, maxDepth: nat, isMax: bool, ai: Player, human: Player, moves: seq<Pos>): (scores: seq<int>)
    requires IsBoard(b) && 1 <= w && depth < maxDepth
    requires forall k :: 0 <= k < |moves| ==> InBounds(moves[k], |b|)
    ensures |scores| == |moves|
    decreases maxDepth - depth, 0, |moves|
  {
    if |moves| == 0 then []
    else
      var mover := if isMax then ai else human;
      var child := Minimax(Place(b, moves[0], Mark(mover)), w, depth + 1, maxDepth, !isMax, ai, human);
      [child.score] + ChildScores(b, w, depth, maxDepth, isMax, ai, human, moves[1..])
  }

  /** `minimax(board, win_len, depth, max_depth, is_max, ai_p, human_p)`.
      A win for the AI scores `1000 - depth`, a win for the human
      `-1000 + depth`, a full board 0 and the depth limit the heuristic, all
      without a move. Otherwise the result is the first optimal move among the
      available moves in row-major order, with its score. */
  function Minimax(b: Grid, w: nat, depth: nat, maxDepth: nat, isMax: bool, ai: Player, human: Player): (r: Scored)
    requires IsBoard(b) && 1 <= w
    decreases if depth <= maxDepth then maxDepth - depth else 0, 1, 0
    ensures r.move.Some? ==> !Terminal(b, w, depth, maxDepth, ai, human) && r.move.value in AvailMoves(b)
  {
    var win := CheckWinner(b, w);
    if win.Some? && win.value.player == ai then Scored(1000 - depth, None)
    else if win.Some? && win.value.player == human then Scored(-1000 + depth, None)
    else if BoardFull(b) then Scored(0, None)
    else if depth >= maxDepth then Scored(Heuristic(b, w, ai, human), None)
    else
      var moves := AvailMoves(b);
      var r := SelectBest(isMax, moves, ChildScores(b, w, depth, maxDepth, isMax, ai, human, moves), InitialBest(isMax), None);
      assert forall k :: 0 <= k < |moves| ==> moves[k] in moves;
      r
  }

  /** The terminal scores of `minimax`: a win for the AI scores
      `1000 - depth`, a win for the human `-1000 + depth`, a full board 0 and
      the depth limit the heuristic, all without a move. */
  lemma MinimaxTerminalScores(b: Grid, w: nat, depth: nat, maxDepth: nat, isMax: bool, ai: Player, human: Player)
    requires IsBoard(b) && 1 <= w
    ensures var r := Minimax(b, w, depth, maxDepth, isMax, ai, human);
            var win := CheckWinner(b, w);
            && (win.Some? && win.value.player == ai ==> r == Scored(1000 - depth, None))
            && (win.Some? && win.value.player == human && human != ai ==> r == Scored(-1000 + depth, None))
            && (win.None? && BoardFull(b) ==> r == Scored(0, None))
            && (win.None? && !BoardFull(b) && depth >= maxDepth ==> r == Scored(Heuristic(b, w, ai, human), None))
  {
  }

  /** Off the terminal positions minimax is the selection fold over the
      child scores of the available moves, from the initial `∓10**9`. */
  lemma MinimaxUnfold(b: Grid, w: nat, depth: nat, maxDepth: nat, isMax: bool, ai: Player, human: Player)
    requires IsBoard(b) && 1 <= w && !Terminal(b, w, depth, maxDepth, ai, human)
    ensures var moves := AvailMoves(b);
            Minimax(b, w, depth, maxDepth, isMax, ai, human)
              == SelectBest(isMax, moves, ChildScores(b, w, depth, maxDepth, isMax, ai, human, moves), InitialBest(isMax), None)
  {
  }

  /** Minimax on a board that is not terminal returns the first optimal move:
      its score is the child score at that move, every earlier move's child
      scores strictly worse and no later one better; it returns no move only
      when no child beats the initial `∓10**9`. */
  lemma MinimaxSelectsFirstBest(b: Grid, w: nat, depth: nat, maxDepth: nat, isMax: bool, ai: Player, human: Player)
    requires IsBoard(b) && 1 <= w && !Terminal(b, w, depth, maxDepth, ai, human)
    ensures var moves := AvailMoves(b);
            var scores := ChildScores(b, w, depth, maxDepth, isMax, ai, human, moves);
            var r := Minimax(b, w, depth, maxDepth, isMax, ai, human);
            (r.move.None? ==> forall j :: 0 <= j < |scores| ==> !Better(isMax, scores[j], InitialBest(isMax)))
            && (r.move.Some? ==>
                  exists i :: 0 <= i < |moves| && r.move.value == moves[i] && r.score == scores[i]
                    && (forall j :: 0 <= j < i ==> Better(isMax, scores[i], scores[j]))
                    && (forall j :: 0 <= j < |moves| ==> !Better(isMax, scores[j], scores[i])))
  {
    MinimaxUnfold(b, w, depth, maxDepth, isMax, ai, human);
  }

  /** The settings bound every score: board side at most 5, win length between
      1 and the side, depth limit at most 1000. */
  predicate SearchBounds(b: Grid, w: nat, depth: nat, maxDepth: nat)
  {
    IsBoard(b) && |b| <= 5 && 1 <= w <= |b| && depth <= maxDepth <= 1000
  }

  lemma {:induction false} MinimaxBounded(b: Grid, w: nat, depth: nat, maxDepth: nat, isMax: bool, ai: Player, human: Player)
    requires SearchBounds(b, w, depth, maxDepth)
    ensures -1000 <= Minimax(b, w, depth, maxDepth, isMax, ai, human).score <= 1000
    decreases maxDepth - depth, 1, 0
  {
    var r := Minimax(b, w, depth, maxDepth, isMax, ai, human);
    if !Terminal(b, w, depth, maxDepth, ai, human) {
      ChildScoresBounded(b, w, depth, maxDepth, isMax, ai, human, AvailMoves(b));
      NonTerminalScore(b, w, depth, maxDepth, isMax, ai, human);
    } else {
      MinimaxTerminalScores(b, w, depth, maxDepth, isMax, ai, human);
      if CheckWinner(b, w).None? && !BoardFull(b) {
        HeuristicBound(b, w, ai, human);
      }
    }
  }

  /** Off the terminal positions, once every child score is within ±1000 the
      search returns an available move whose score is one of them. */
  lemma NonTerminalScore(b: Grid, w: nat, depth: nat, maxDepth: nat, isMax: bool, ai: Player, human: Player)
    requires IsBoard(b) && 1 <= w && !Terminal(b, w, depth, maxDepth, ai, human)
    requires var scores := ChildScores(b, w, depth, maxDepth, isMax, ai, human, AvailMoves(b));
             forall j :: 0 <= j < |scores| ==> -1000 <= scores[j] <= 1000
    ensures var r := Minimax(b, w, depth, maxDepth, isMax, ai, human);
            r.move.Some? && r.move.value in AvailMoves(b) && -1000 <= r.score <= 1000
  {
    var moves := AvailMoves(b);
    var scores := ChildScores(b, w, depth, maxDepth, isMax, ai, human, moves);
    MinimaxUnfold(b, w, depth, maxDepth, isMax, ai, human);
    var r := SelectBest(isMax, moves, scores, InitialBest(isMax), None);
    assert |moves| > 0;
    assert Better(isMax, scores[0], InitialBest(isMax));
    var i :| 0 <= i < |scores| && r == Scored(scores[i], Some(moves[i]));
    assert moves[i] in moves;
  }

  lemma {:induction false} ChildScoresBounded(b: Grid, w: nat, depth: nat, maxDepth: nat, isMax: bool, ai: Player, human: Player, moves: seq<Pos>)
    requires SearchBounds(b, w, depth, maxDepth) && depth < maxDepth
    requires forall k :: 0 <= k < |moves| ==> InBounds(moves[k], |b|)
    ensures var scores := ChildScores(b, w, depth, maxDepth, isMax, ai, human, moves);
            forall j :: 0 <= j < |scores| ==> -1000 <= scores[j] <= 1000
    decreases maxDepth - depth, 0, |moves|
  {
    if |moves| > 0 {
      var child := Place(b, moves[0], Mark(if isMax then ai else human));
      var d: nat, im := depth + 1, !isMax;
      MinimaxBounded(child, w, d, maxDepth, im, ai, human);
      ChildScoresBounded(b, w, depth, maxDepth, isMax, ai, human, moves[1..]);
      ChildScoresHead(b, w, depth, maxDepth, isMax, ai, human, moves, child, d, im);
      ChildScoresTail(b, w, depth, maxDepth, isMax, ai, human, moves);
      ScoresWithinFromTail(ChildScores(b, w, depth, maxDepth, isMax, ai, human, moves));
    }
  }

  /** A score sequence lies within ±1000 when its head and its tail do. */
  lemma ScoresWithinFromTail(scores: seq<int>)
    requires |scores| > 0 && -1000 <= scores[0] <= 1000
    requires forall j :: 0 <= j < |scores[1..]| ==> -1000 <= scores[1..][j] <= 1000
    ensures forall j :: 0 <= j < |scores| ==> -1000 <= scores[j] <= 1000
  {
    assert forall j :: 1 <= j < |scores| ==> scores[j] == scores[1..][j - 1];
  }

  /** The first child score is the score of the first trial board, searched
      one level deeper by the other side. */
  lemma ChildScoresHead(b: Grid, w: nat, depth: nat, maxDepth: nat, isMax: bool, ai: Player, human: Player, moves: seq<Pos>,
                        child: Grid, d: nat, im: bool)
    requires IsBoard(b) && 1 <= w && depth < maxDepth
    requires forall k :: 0 <= k < |moves| ==> InBounds(moves[k], |b|)
    requires |moves| > 0 && child == Place(b, moves[0], Mark(if isMax then ai else human)) && d == depth + 1 && im == !isMax
    ensures ChildScores(b, w, depth, maxDepth, isMax, ai, human, moves)[0] == Minimax(child, w, d, maxDepth, im, ai, human).score
  {
  }

  /** The remaining child scores are those of the remaining moves. */
  lemma ChildScoresTail(b: Grid, w: nat, depth: nat, maxDepth: nat, isMax: bool, ai: Player, human: Player, moves: seq<Pos>)
    requires IsBoard(b) && 1 <= w && depth < maxDepth
    requires forall k :: 0 <= k < |moves| ==> InBounds(moves[k], |b|)
    requires |moves| > 0
    ensures ChildScores(b, w, depth, maxDepth, isMax, ai, human, moves)[1..] == ChildScores(b, w, depth, maxDepth, isMax, ai, human, moves[1..])
  {
  }

  /** The k-th child score is the search value of the board with the side to
      move placed on the k-th move, one ply deeper, for the other side. */
  lemma {:induction false} ChildScoresAt(b: Grid, w: nat, depth: nat, maxDepth: nat, isMax: bool, ai: Player, human: Player, moves: seq<Pos>, k: nat)
    requires IsBoard(b) && 1 <= w && depth < maxDepth
    requires forall j :: 0 <= j < |moves| ==> InBounds(moves[j], |b|)
    requires k < |moves|
    ensures ChildScores(b, w, depth, maxDepth, isMax, ai, human, moves)[k]
         == Minimax(Place(b, moves[k], Mark(if isMax then ai else human)), w, depth + 1, maxDepth, !isMax, ai, human).score
    decreases k
  {
    if k == 0 {
      ChildScoresHead(b, w, depth, maxDepth, isMax, ai, human, moves,
                      Place(b, moves[0], Mark(if isMax then ai else human)), depth + 1, !isMax);
    } else {
      ChildScoresTail(b, w, depth, maxDepth, isMax, ai, human, moves);
      ChildScoresAt(b, w, depth, maxDepth, isMax, ai, human, moves[1..], k - 1);
      assert moves[1..][k - 1] == moves[k];
    }
  }

  /** Within the settings' bounds, a non-terminal search always returns a
      move, and it is an available one. */
  lemma MinimaxReturnsMove(b: Grid, w: nat, depth: nat, maxDepth: nat, isMax: bool, ai: Player, human: Player)
    requires SearchBounds(b, w, depth, maxDepth) && !Terminal(b, w, depth, maxDepth, ai, human)
    ensures Minimax(b, w, depth, maxDepth, isMax, ai, human).move.Some?
    ensures Minimax(b, w, depth, maxDepth, isMax, ai, human).move.value in AvailMoves(b)
  {
    ChildScoresBounded(b, w, depth, maxDepth, isMax, ai, human, AvailMoves(b));
    NonTerminalScore(b, w, depth, maxDepth, isMax, ai, human);
  }

  /** The decision part of `ai_move`: the move minimax returns from the root
      (depth 0, maximizing), or, when it returns none, the available move the
      random fallback picks (`pick` stands for the random index). No move
      exactly when the board is full. */
  function ChooseMove(b: Grid, w: nat, maxDepth: nat, ai: Player, pick: nat): (r: Option<Pos>)
    requires IsBoard(b) && 1 <= w
    ensures r.Some? ==> r.value in AvailMoves(b)
    ensures r.None? <==> BoardFull(b)
  {
    match Minimax(b, w, 0, maxDepth, true, ai, Opp(ai)).move
    case Some(m) => Some(m)
    case None =>
      var moves := AvailMoves(b);
      if |moves| == 0 then None else Some(moves[pick % |moves|])
  }

  /** On a board with no winner and a free cell, and a depth limit of at
      least 1, the AI's choice is deterministic: it is minimax's move
      whatever the fallback would have picked. */
  lemma ChooseMoveDeterministic(b: Grid, w: nat, maxDepth: nat, ai: Player, pick1: nat, pick2: nat)
    requires SearchBounds(b, w, 0, maxDepth) && 1 <= maxDepth
    requires CheckWinner(b, w).None? && !BoardFull(b)
    ensures ChooseMove(b, w, maxDepth, ai, pick1) == ChooseMove(b, w, maxDepth, ai, pick2)
    ensures ChooseMove(b, w, maxDepth, ai, pick1) == Minimax(b, w, 0, maxDepth, true, ai, Opp(ai)).move
  {
    MinimaxReturnsMove(b, w, 0, maxDepth, true, ai, Opp(ai));
  }
}
