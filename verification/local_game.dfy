/** The local two-player 3-by-3 game: its cell click, Undo and New Game
    handlers. X always starts; a click places the side to move, and a win or
    a draw ends the game without passing the turn; Undo works only while the
    game is running. The handlers of the two local variants differ only in
    how they read the detector's result (`is not None` against plain
    truthiness), which agree because every result other than "no result" is
    a non-empty string. */
module LocalGame {
  import opened Board
  import opened History
  import opened Classic
  import Winner

  datatype State = State(
    board: Grid,
    turn: Player,
    history: seq<Move>,
    gameOver: bool,
    winner: Verdict,
    winningCells: seq<Pos>)

  predicate Shaped(s: State)
  {
    IsBoard(s.board) && |s.board| == 3 && MovesInBounds(s.history, 3)
  }

  /** The New Game button. */
  function NewGame(): (s: State)
    ensures Shaped(s) && s.history == [] && s.turn == X
    ensures forall r, c :: 0 <= r < 3 && 0 <= c < 3 ==> s.board[r][c] == Empty
    ensures !s.gameOver && s.winner == Undecided && s.winningCells == []
  {
    State(NewBoard(3), X, [], false, Undecided, [])
  }

  /** A click on cell `p`. On a finished game or a taken cell nothing
      changes. Otherwise exactly that cell receives the side to move and
      exactly `(turn, p)` is appended; then a win or a draw ends the game and
      records the verdict and the winning cells with the turn kept, and any
      other position passes the turn. */
  function Click(s: State, p: Pos): (t: State)
    requires Shaped(s) && InBounds(p, 3)
    ensures s.gameOver || At(s.board, p) != Empty ==> t == s
    ensures !s.gameOver && At(s.board, p) == Empty ==>
      && t.board == Place(s.board, p, Mark(s.turn))
      && t.history == s.history + [Move(s.turn, p)]
      && (CheckWinner(t.board).verdict != Undecided ==>
            t.gameOver && t.winner == CheckWinner(t.board).verdict
            && t.winningCells == CheckWinner(t.board).cells && t.turn == s.turn)
      && (CheckWinner(t.board).verdict == Undecided ==>
            !t.gameOver && t.winner == s.winner && t.winningCells == s.winningCells && t.turn == Opp(s.turn))
  {
    if s.gameOver || At(s.board, p) != Empty then s
    else
      var board := Place(s.board, p, Mark(s.turn));
      var history := s.history + [Move(s.turn, p)];
      var outcome := CheckWinner(board);
      if outcome.verdict != Undecided then
        s.(board := board, history := history, gameOver := true, winner := outcome.verdict,
           winningCells := outcome.cells)
      else
        s.(board := board, history := history, turn := Opp(s.turn))
  }

  /** The Undo button: only with a move to undo and the game still running,
      pop the last entry, empty its cell and pass the turn back. */
  function Undo(s: State): (t: State)
    requires Shaped(s)
    ensures |s.history| == 0 || s.gameOver ==> t == s
    ensures |s.history| > 0 && !s.gameOver ==>
      && t.history == s.history[..|s.history| - 1]
      && t.board == Place(s.board, s.history[|s.history| - 1].pos, Empty)
      && t.turn == Opp(s.turn)
      && t.gameOver == s.gameOver && t.winner == s.winner && t.winningCells == s.winningCells
  {
    if |s.history| == 0 || s.gameOver then s
    else
      var last := s.history[|s.history| - 1];
      s.(history := s.history[..|s.history| - 1], board := Place(s.board, last.pos, Empty), turn := Opp(s.turn))
  }

  // ---------------------------------------------------------------------
  // The invariant
  // ---------------------------------------------------------------------

  /** X made the even-numbered entries and O the odd-numbered ones. */
  predicate Alternating(h: seq<Move>)
  {
    forall k :: 0 <= k < |h| ==> h[k].player == (if k % 2 == 0 then X else O)
  }

  /** Every move of `h` was played while the detector had no result. */
  predicate PrefixesUndecided(h: seq<Move>)
    requires MovesInBounds(h, 3)
  {
    forall k :: 0 <= k < |h| ==> CheckWinner(Replay(3, h[..k])).verdict == Undecided
  }

  /** The side to move: the next in the alternation while the game runs,
      and the side that made the last move once it is over. */
  function ExpectedTurn(n: nat, over: bool): Player
  {
    if (n % 2 == 0) != over then X else O
  }

  /** The board is the replay of an alternating history of moves onto empty
      cells of undecided positions. */
  predicate Replayed(s: State)
  {
    && Shaped(s)
    && s.board == Replay(3, s.history)
    && PlacedOnEmpty(3, s.history)
    && Alternating(s.history)
    && PrefixesUndecided(s.history)
  }

  /** The recorded result is the detector's, and the game is over exactly
      when there is one. */
  predicate Recorded(s: State)
    requires Shaped(s)
  {
    && (s.gameOver <==> CheckWinner(s.board).verdict != Undecided)
    && s.winner == CheckWinner(s.board).verdict
    && s.winningCells == CheckWinner(s.board).cells
  }

  /** One more move passes the turn while the game runs, and keeps it with
      the side that moved when that move ends the game. */
  lemma ExpectedTurnStep(n: nat)
    ensures ExpectedTurn(n + 1, false) == Opp(ExpectedTurn(n, false))
    ensures ExpectedTurn(n + 1, true) == ExpectedTurn(n, false)
  {
  }

  /** What every reachable state satisfies: its board replays its history,
      its recorded result is the detector's, and the turn follows the
      alternation. */
  predicate Inv(s: State)
  {
    && Replayed(s)
    && Recorded(s)
    && s.turn == ExpectedTurn(|s.history|, s.gameOver)
  }

  /** The empty board has no result. */
  lemma NewBoardUndecided()
    ensures CheckWinner(NewBoard(3)).verdict == Undecided
  {
    var b := NewBoard(3);
    CheckWinnerSpec(b);
    forall k, p | 0 <= k < |Triples|
      ensures !Winner.Uniform(b, Triples[k], p)
    {
      assert At(b, Triples[k][0]) == Empty;
    }
    assert b[0][0] == Empty;
  }

  lemma NewGameInv()
    ensures Inv(NewGame())
  {
    NewBoardUndecided();
  }

  /** Playing on an undecided position extends a history of moves on
      undecided positions. */
  lemma PrefixesUndecidedExtends(h: seq<Move>, m: Move)
    requires MovesInBounds(h, 3) && PrefixesUndecided(h)
    requires InBounds(m.pos, 3) && CheckWinner(Replay(3, h)).verdict == Undecided
    ensures MovesInBounds(h + [m], 3) && PrefixesUndecided(h + [m])
  {
    var h' := h + [m];
    forall k | 0 <= k < |h'|
      ensures CheckWinner(Replay(3, h'[..k])).verdict == Undecided
    {
      if k < |h| {
        PrefixOfAppend(h, m, k);
      } else {
        assert h'[..k] == h;
      }
    }
  }

  lemma ClickKeepsReplayed(s: State, p: Pos)
    requires Inv(s) && InBounds(p, 3)
    ensures Replayed(Click(s, p))
  {
    if !s.gameOver && At(s.board, p) == Empty {
      var m := Move(s.turn, p);
      ReplayAppend(3, s.history, m);
      PlacedOnEmptyExtends(3, s.history, m);
      PrefixesUndecidedExtends(s.history, m);
      assert Alternating(s.history + [m]);
    }
  }

  /** A click that produces a result records it and keeps the turn. */
  lemma ClickRecordsResult(s: State, p: Pos)
    requires Shaped(s) && s.turn == ExpectedTurn(|s.history|, s.gameOver) && InBounds(p, 3)
    requires !s.gameOver && At(s.board, p) == Empty
    requires CheckWinner(Click(s, p).board).verdict != Undecided
    ensures Recorded(Click(s, p)) && Click(s, p).turn == ExpectedTurn(|Click(s, p).history|, Click(s, p).gameOver)
  {
    ExpectedTurnStep(|s.history|);
  }

  /** A click without a result keeps the empty record and passes the turn. */
  lemma ClickKeepsUndecided(s: State, p: Pos)
    requires Shaped(s) && Recorded(s) && s.turn == ExpectedTurn(|s.history|, s.gameOver) && InBounds(p, 3)
    requires !s.gameOver && At(s.board, p) == Empty
    requires CheckWinner(Click(s, p).board).verdict == Undecided
    ensures Recorded(Click(s, p)) && Click(s, p).turn == ExpectedTurn(|Click(s, p).history|, Click(s, p).gameOver)
  {
    ExpectedTurnStep(|s.history|);
    var t := Click(s, p);
    assert t.winner == s.winner == Undecided;
    assert t.winningCells == s.winningCells == [] == CheckWinner(t.board).cells;
  }

  lemma ClickKeepsRecorded(s: State, p: Pos)
    requires Shaped(s) && Recorded(s) && s.turn == ExpectedTurn(|s.history|, s.gameOver) && InBounds(p, 3)
    ensures Recorded(Click(s, p)) && Click(s, p).turn == ExpectedTurn(|Click(s, p).history|, Click(s, p).gameOver)
  {
    if !s.gameOver && At(s.board, p) == Empty {
      if CheckWinner(Click(s, p).board).verdict != Undecided {
        ClickRecordsResult(s, p);
      } else {
        ClickKeepsUndecided(s, p);
      }
    }
  }

  lemma ClickPreservesInv(s: State, p: Pos)
    requires Inv(s) && InBounds(p, 3)
    ensures Inv(Click(s, p))
  {
    ClickKeepsReplayed(s, p);
    ClickKeepsRecorded(s, p);
  }

  /** Dropping the last move keeps the history alternating and its moves on
      undecided positions, and the position before that move was undecided. */
  lemma HistoryDropLast(h: seq<Move>)
    requires MovesInBounds(h, 3) && Alternating(h) && PrefixesUndecided(h) && |h| > 0
    ensures MovesInBounds(h[..|h| - 1], 3) && Alternating(h[..|h| - 1])
    ensures PrefixesUndecided(h[..|h| - 1]) && CheckWinner(Replay(3, h[..|h| - 1])).verdict == Undecided
  {
    var h' := h[..|h| - 1];
    forall k | 0 <= k < |h'|
      ensures CheckWinner(Replay(3, h'[..k])).verdict == Undecided
    {
      assert h'[..k] == h[..k];
    }
  }

  lemma UndoKeepsReplayed(s: State)
    requires Inv(s)
    ensures Replayed(Undo(s))
    ensures |s.history| > 0 && !s.gameOver ==> CheckWinner(Undo(s).board).verdict == Undecided
  {
    if |s.history| > 0 && !s.gameOver {
      ReplayDropLast(3, s.history);
      HistoryDropLast(s.history);
    }
  }

  lemma UndoPreservesInv(s: State)
    requires Inv(s)
    ensures Inv(Undo(s))
  {
    UndoKeepsReplayed(s);
    var t := Undo(s);
    if |s.history| > 0 && !s.gameOver {
      var n: nat := |s.history| - 1;
      ExpectedTurnStep(n);
      assert CheckWinner(t.board).verdict == Undecided;
      assert t.winner == s.winner == Undecided;
      assert t.winningCells == s.winningCells == [] == CheckWinner(t.board).cells;
    }
  }

  /** Undo inverts a click that placed a piece without ending the game: the
      state is exactly as before. */
  lemma UndoInvertsClick(s: State, p: Pos)
    requires Inv(s) && InBounds(p, 3) && !s.gameOver && At(s.board, p) == Empty
    requires !Click(s, p).gameOver
    ensures Undo(Click(s, p)) == s
  {
    var t := Click(s, p);
    PlaceThenClear(s.board, p, Mark(s.turn));
    assert t.history[..|t.history| - 1] == s.history;
  }

  /** Once the game is over, neither clicks nor Undo change anything. */
  lemma FinishedGameFrozen(s: State, p: Pos)
    requires Shaped(s) && InBounds(p, 3) && s.gameOver
    ensures Click(s, p) == s && Undo(s) == s
  {
  }

  lemma {:induction false} AlternatingCounts(h: seq<Move>)
    requires Alternating(h)
    ensures CountMoves(h, X) == (|h| + 1) / 2 && CountMoves(h, O) == |h| / 2
    decreases |h|
  {
    if |h| > 0 {
      var h' := h[..|h| - 1];
      assert forall k :: 0 <= k < |h'| ==> h'[k] == h[k];
      AlternatingCounts(h');
    }
  }

  /** The turn and the piece counts: X has as many pieces as O or one more,
      and while the game runs it is X's turn exactly when the counts are
      equal; once it is over, the side that made the last move keeps the
      turn, so it is X's turn exactly when X has one more. */
  lemma TurnMatchesCounts(s: State)
    requires Inv(s)
    ensures var x, o := CountBoard(s.board, Mark(X)), CountBoard(s.board, Mark(O));
            && (x == o || x == o + 1)
            && (!s.gameOver ==> (s.turn == X <==> x == o))
            && (s.gameOver ==> (s.turn == X <==> x == o + 1))
  {
    ReplayCounts(3, s.history, X);
    ReplayCounts(3, s.history, O);
    AlternatingCounts(s.history);
  }
}
