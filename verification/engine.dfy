/** The game transitions of the N-by-N engine, lifted out of the UI handlers
    into pure functions on a `GameState` record: `make_move`, the decision
    and placement of `ai_move`, the cell-click dispatch, and the Undo, Reset
    and Swap buttons. The settings a game runs under are a `Config`, fixed
    between resets. */
module Engine {
  import opened Board
  import opened History
  import Lines
  import opened Winner
  import opened Search

  datatype Mode = HumanVsAI | HumanVsHuman

  /** Who moves first: the human (who then plays X) or the AI. */
  datatype Starter = Human | AI

  /** The display strings of the two players; swapping exchanges them. */
  datatype Symbols = Symbols(x: string, o: string)

  /** The settings of a game. `powerCellsCount` only feeds the power-cell
      generator, which is an input of `Reset` here. */
  datatype Config = Config(
    size: nat, winLen: nat, mode: Mode, aiDepth: nat, first: Starter, aiSymbol: Player,
    powerCellsEnabled: bool, powerCellsCount: nat, swapRuleEnabled: bool, swapAfterMovesEach: nat)

  /** The ranges the settings widgets allow. */
  predicate ValidConfig(cfg: Config)
  {
    && 3 <= cfg.size <= 5
    && 3 <= cfg.winLen <= cfg.size
    && 1 <= cfg.aiDepth <= 6
    && 1 <= cfg.swapAfterMovesEach <= 2
    && cfg.powerCellsCount <= 4 && cfg.powerCellsCount <= cfg.size * cfg.size / 3
  }

  /** The human plays the symbol the AI does not. */
  function HumanSymbol(cfg: Config): (p: Player)
    ensures p != cfg.aiSymbol
  {
    Opp(cfg.aiSymbol)
  }

  datatype GameState = GameState(
    board: Grid,
    turn: Player,
    history: seq<Move>,
    powerCells: set<Pos>,
    swapAvailable: bool,
    hasSwapped: bool,
    gameOver: bool,
    winningLine: Option<seq<Pos>>,
    symbols: Symbols)

  // ---------------------------------------------------------------------
  // The invariant
  // ---------------------------------------------------------------------

  /** The position is still being played: nobody has a line and a cell is free. */
  predicate Open(b: Grid, w: nat)
    requires IsBoard(b) && 1 <= w
  {
    CheckWinner(b, w).None? && !BoardFull(b)
  }

  /** Every move of `h` was played on an open position. */
  predicate PrefixesOpen(n: nat, w: nat, h: seq<Move>)
    requires MovesInBounds(h, n) && 1 <= w
  {
    forall k :: 0 <= k < |h| ==> Open(Replay(n, h[..k]), w)
  }

  /** The swap becomes available once the rule is enabled, it has not been
      used, and each of X and O has made the configured number of moves. */
  predicate SwapReady(cfg: Config, hasSwapped: bool, h: seq<Move>)
  {
    cfg.swapRuleEnabled && !hasSwapped
    && CountMoves(h, X) >= cfg.swapAfterMovesEach && CountMoves(h, O) >= cfg.swapAfterMovesEach
  }

  /** The line recorded for a finished game: the winner's line, or none on a draw. */
  function RecordedLine(b: Grid, w: nat, over: bool): Option<seq<Pos>>
    requires IsBoard(b) && 1 <= w
  {
    if over && CheckWinner(b, w).Some? then Some(CheckWinner(b, w).value.line) else None
  }

  /** What every reachable state satisfies: the board is the replay of the
      history, each move went onto an empty cell of an open position, the
      game is over exactly when the position is no longer open, the winning
      line is the detector's, a power cell is unplayed (or is the cell of the
      move that just ended the game), and an available swap meets its
      conditions. The turn is not constrained: power cells break the
      alternation of the two players. */
  predicate Inv(s: GameState, cfg: Config)
  {
    && Shaped(s, cfg)
    && PlacedOnEmpty(cfg.size, s.history)
    && PrefixesOpen(cfg.size, cfg.winLen, s.history)
    && StatusAgrees(s, cfg)
    && PowerCellsUnplayed(s, cfg)
    && (s.swapAvailable ==> SwapReady(cfg, s.hasSwapped, s.history))
  }

  /** The board is the replay of the history. */
  predicate Shaped(s: GameState, cfg: Config)
  {
    1 <= cfg.winLen && MovesInBounds(s.history, cfg.size) && s.board == Replay(cfg.size, s.history)
  }

  /** The game-over flag and the winning line agree with the board. */
  predicate StatusAgrees(s: GameState, cfg: Config)
    requires Shaped(s, cfg)
  {
    (s.gameOver <==> !Open(s.board, cfg.winLen)) && s.winningLine == RecordedLine(s.board, cfg.winLen, s.gameOver)
  }

  /** Power cells lie on the board and are still empty, except that the move
      that ends a game may have landed on one. */
  predicate PowerCellsUnplayed(s: GameState, cfg: Config)
    requires Shaped(s, cfg)
  {
    forall q :: q in s.powerCells ==>
      InBounds(q, cfg.size)
      && (At(s.board, q) == Empty || (s.gameOver && |s.history| > 0 && q == s.history[|s.history| - 1].pos))
  }

  // ---------------------------------------------------------------------
  // make_move
  // ---------------------------------------------------------------------

  /** `make_move(r, c, player)`. A finished game or an occupied cell rejects
      the move and nothing changes. Otherwise exactly cell `p` receives
      `player`'s mark, exactly `(player, p)` is appended to the history, and
      exactly one of four things follows: a win ends the game and records its
      line; a full board ends it with no line; a power cell is consumed and
      the same side moves again; or the turn passes to the other side. In the
      last two the swap becomes available once its conditions hold; a move
      never withdraws it. */
  function MakeMove(s: GameState, cfg: Config, p: Pos, player: Player): (t: GameState)
    requires IsBoard(s.board) && InBounds(p, |s.board|) && 1 <= cfg.winLen
    ensures s.gameOver || At(s.board, p) != Empty ==> t == s
    ensures !s.gameOver && At(s.board, p) == Empty ==>
      && t.board == Place(s.board, p, Mark(player))
      && t.history == s.history + [Move(player, p)]
      && t.symbols == s.symbols && t.hasSwapped == s.hasSwapped
      && (s.swapAvailable ==> t.swapAvailable)
      && (t.gameOver <==> !Open(t.board, cfg.winLen))
      && (t.gameOver ==> t.winningLine == RecordedLine(t.board, cfg.winLen, true))
      && (!t.gameOver ==> t.winningLine == s.winningLine)
      && (t.gameOver ==> t.turn == s.turn && t.powerCells == s.powerCells && t.swapAvailable == s.swapAvailable)
      && (!t.gameOver ==> (t.swapAvailable <==> s.swapAvailable || SwapReady(cfg, s.hasSwapped, t.history)))
      && (!t.gameOver && p in s.powerCells ==> t.turn == s.turn && t.powerCells == s.powerCells - {p})
      && (!t.gameOver && p !in s.powerCells ==> t.turn == Opp(s.turn) && t.powerCells == s.powerCells)
  {
    if s.gameOver || At(s.board, p) != Empty then s
    else
      var board := Place(s.board, p, Mark(player));
      var history := s.history + [Move(player, p)];
      var s1 := s.(board := board, history := history);
      var win := CheckWinner(board, cfg.winLen);
      if win.Some? then s1.(gameOver := true, winningLine := Some(win.value.line))
      else if BoardFull(board) then s1.(gameOver := true, winningLine := None)
      else
        var swap := s.swapAvailable || SwapReady(cfg, s.hasSwapped, history);
        if p in s.powerCells then s1.(swapAvailable := swap, powerCells := s.powerCells - {p})
        else s1.(swapAvailable := swap, turn := Opp(s.turn))
  }

  /** Playing on an open position extends a history of moves on open positions. */
  lemma PrefixesOpenExtends(n: nat, w: nat, h: seq<Move>, m: Move)
    requires MovesInBounds(h, n) && 1 <= w && PrefixesOpen(n, w, h)
    requires InBounds(m.pos, n) && Open(Replay(n, h), w)
    ensures MovesInBounds(h + [m], n) && PrefixesOpen(n, w, h + [m])
  {
    var h' := h + [m];
    forall k | 0 <= k < |h'|
      ensures Open(Replay(n, h'[..k]), w)
    {
      if k < |h| {
        PrefixOfAppend(h, m, k);
      } else {
        assert h'[..k] == h;
      }
    }
  }

  /** Playing an empty cell of an open position extends a legal history. */
  lemma HistoryExtends(n: nat, w: nat, h: seq<Move>, m: Move)
    requires MovesInBounds(h, n) && 1 <= w && PlacedOnEmpty(n, h) && PrefixesOpen(n, w, h)
    requires InBounds(m.pos, n) && At(Replay(n, h), m.pos) == Empty && Open(Replay(n, h), w)
    ensures MovesInBounds(h + [m], n)
    ensures Replay(n, h + [m]) == Place(Replay(n, h), m.pos, Mark(m.player))
    ensures PlacedOnEmpty(n, h + [m]) && PrefixesOpen(n, w, h + [m])
  {
    ReplayAppend(n, h, m);
    PlacedOnEmptyExtends(n, h, m);
    PrefixesOpenExtends(n, w, h, m);
  }

  /** A move leaves the other power cells unplayed; a power cell it lands on
      is consumed unless the move ends the game. */
  lemma MoveKeepsPowerCells(s: GameState, cfg: Config, p: Pos, player: Player)
    requires Shaped(s, cfg) && PowerCellsUnplayed(s, cfg)
    requires InBounds(p, cfg.size) && !s.gameOver && At(s.board, p) == Empty
    requires Shaped(MakeMove(s, cfg, p, player), cfg)
    ensures PowerCellsUnplayed(MakeMove(s, cfg, p, player), cfg)
  {
    var t := MakeMove(s, cfg, p, player);
    forall q | q in t.powerCells
      ensures At(t.board, q) == Empty || (t.gameOver && |t.history| > 0 && q == t.history[|t.history| - 1].pos)
    {
      if q != p {
        assert At(t.board, q) == At(s.board, q);
      }
    }
  }

  /** An accepted move keeps every clause of the invariant. */
  lemma MakeMovePreservesInv(s: GameState, cfg: Config, p: Pos, player: Player)
    requires Inv(s, cfg) && InBounds(p, cfg.size)
    ensures Inv(MakeMove(s, cfg, p, player), cfg)
  {
    if !s.gameOver && At(s.board, p) == Empty {
      var t := MakeMove(s, cfg, p, player);
      HistoryExtends(cfg.size, cfg.winLen, s.history, Move(player, p));
      assert Shaped(t, cfg);
      assert StatusAgrees(t, cfg);
      MoveKeepsPowerCells(s, cfg, p, player);
      CountMovesAppend(s.history, Move(player, p), X);
      CountMovesAppend(s.history, Move(player, p), O);
    }
  }

  // ---------------------------------------------------------------------
  // Undo, Swap, Reset
  // ---------------------------------------------------------------------

  /** The "Undo last move" button as the source writes it: pop the last
      entry, empty its cell, clear the game-over flag, the winning line and
      both swap flags, and toggle the turn. An empty history changes nothing. */
  function UndoAsWritten(s: GameState): (t: GameState)
    requires IsBoard(s.board)
    requires |s.history| > 0 ==> InBounds(s.history[|s.history| - 1].pos, |s.board|)
    ensures |s.history| == 0 ==> t == s
    ensures |s.history| > 0 ==>
      && t.history == s.history[..|s.history| - 1]
      && t.board == Place(s.board, s.history[|s.history| - 1].pos, Empty)
      && t.turn == Opp(s.turn)
      && !t.gameOver && t.winningLine.None? && !t.swapAvailable && !t.hasSwapped
      && t.powerCells == s.powerCells && t.symbols == s.symbols
  {
    if |s.history| == 0 then s
    else
      var last := s.history[|s.history| - 1];
      s.(history := s.history[..|s.history| - 1], board := Place(s.board, last.pos, Empty),
         gameOver := false, winningLine := None, swapAvailable := false, hasSwapped := false,
         turn := Opp(s.turn))
  }

  /** Undo with the turn handed back to the side whose move is undone, which
      is who was to move before it whatever the move triggered. Everything
      else is as in `UndoAsWritten`. */
  function Undo(s: GameState): (t: GameState)
    requires IsBoard(s.board)
    requires |s.history| > 0 ==> InBounds(s.history[|s.history| - 1].pos, |s.board|)
    ensures |s.history| == 0 ==> t == s
    ensures |s.history| > 0 ==>
      && t.history == s.history[..|s.history| - 1]
      && t.board == Place(s.board, s.history[|s.history| - 1].pos, Empty)
      && t.turn == s.history[|s.history| - 1].player
      && !t.gameOver && t.winningLine.None? && !t.swapAvailable && !t.hasSwapped
      && t.powerCells == s.powerCells && t.symbols == s.symbols
  {
    if |s.history| == 0 then s
    else
      var last := s.history[|s.history| - 1];
      s.(history := s.history[..|s.history| - 1], board := Place(s.board, last.pos, Empty),
         gameOver := false, winningLine := None, swapAvailable := false, hasSwapped := false,
         turn := last.player)
  }

  /** Dropping the last move keeps the moves on open positions, and the
      position before that move was open. */
  lemma PrefixesOpenDropLast(n: nat, w: nat, h: seq<Move>)
    requires MovesInBounds(h, n) && 1 <= w && PrefixesOpen(n, w, h) && |h| > 0
    ensures MovesInBounds(h[..|h| - 1], n)
    ensures PrefixesOpen(n, w, h[..|h| - 1]) && Open(Replay(n, h[..|h| - 1]), w)
  {
    var h' := h[..|h| - 1];
    forall k | 0 <= k < |h'|
      ensures Open(Replay(n, h'[..k]), w)
    {
      assert h'[..k] == h[..k];
    }
  }

  /** Undo leaves every power cell empty. */
  lemma UndoKeepsPowerCells(s: GameState, cfg: Config)
    requires Shaped(s, cfg) && PowerCellsUnplayed(s, cfg) && |s.history| > 0
    requires Shaped(Undo(s), cfg)
    ensures PowerCellsUnplayed(Undo(s), cfg)
  {
    var t := Undo(s);
    var last := s.history[|s.history| - 1].pos;
    forall q | q in t.powerCells
      ensures At(t.board, q) == Empty
    {
      if q != last {
        assert At(t.board, q) == At(s.board, q);
      }
    }
  }

  /** Undo keeps the invariant: the position it returns to was open. */
  lemma UndoPreservesInv(s: GameState, cfg: Config)
    requires Inv(s, cfg)
    ensures Inv(Undo(s), cfg)
  {
    if |s.history| > 0 {
      var t := Undo(s);
      ReplayDropLast(cfg.size, s.history);
      PrefixesOpenDropLast(cfg.size, cfg.winLen, s.history);
      assert Shaped(t, cfg);
      assert StatusAgrees(t, cfg);
      UndoKeepsPowerCells(s, cfg);
    }
  }

  /** The invariant does not mention the turn, so the as-written undo keeps
      it too. */
  lemma UndoAsWrittenPreservesInv(s: GameState, cfg: Config)
    requires Inv(s, cfg)
    ensures Inv(UndoAsWritten(s), cfg)
  {
    UndoPreservesInv(s, cfg);
    if |s.history| > 0 {
      assert UndoAsWritten(s) == Undo(s).(turn := Opp(s.turn));
    }
  }

  /** Undo inverts an accepted move by the side to move: board, history,
      turn, game-over flag and winning line are back as they were. (A
      consumed power cell stays consumed and the swap flags are cleared.) */
  lemma UndoInvertsMove(s: GameState, cfg: Config, p: Pos)
    requires Inv(s, cfg) && InBounds(p, cfg.size) && !s.gameOver && At(s.board, p) == Empty
    ensures var t := Undo(MakeMove(s, cfg, p, s.turn));
            t.board == s.board && t.history == s.history && t.turn == s.turn
            && t.gameOver == s.gameOver && t.winningLine == s.winningLine && t.symbols == s.symbols
  {
    var m := MakeMove(s, cfg, p, s.turn);
    PlaceThenClear(s.board, p, Mark(s.turn));
    assert m.history[..|m.history| - 1] == s.history;
  }

  /** The as-written undo gets the turn right after a plain move, but after
      a move that ended the game or landed on a power cell the turn was not
      toggled, so toggling it back hands it to the opponent of the side that
      has to replay. */
  lemma UndoAsWrittenLosesTurn(s: GameState, cfg: Config, p: Pos)
    requires Inv(s, cfg) && InBounds(p, cfg.size) && !s.gameOver && At(s.board, p) == Empty
    ensures var m := MakeMove(s, cfg, p, s.turn);
            var t := UndoAsWritten(m);
            && (!m.gameOver && p !in s.powerCells ==> t.turn == s.turn)
            && (m.gameOver || p in s.powerCells ==> t.turn == Opp(s.turn) && t.turn != Undo(m).turn)
  {
  }

  /** The "Swap symbols" button: only while the swap is available and unused,
      it exchanges the display symbols of X and O and uses up the swap;
      board, history, turn and game status are untouched. */
  function Swap(s: GameState): (t: GameState)
    ensures !(s.swapAvailable && !s.hasSwapped) ==> t == s
    ensures s.swapAvailable && !s.hasSwapped ==>
      && t.symbols == Symbols(s.symbols.o, s.symbols.x)
      && t.hasSwapped && !t.swapAvailable
      && t.board == s.board && t.history == s.history && t.turn == s.turn
      && t.gameOver == s.gameOver && t.winningLine == s.winningLine && t.powerCells == s.powerCells
  {
    if s.swapAvailable && !s.hasSwapped then
      s.(symbols := Symbols(s.symbols.o, s.symbols.x), hasSwapped := true, swapAvailable := false)
    else s
  }

  /** The swap can be used once: a second press does nothing, until an undo
      or a reset clears the flags. */
  lemma SwapOnce(s: GameState)
    ensures Swap(Swap(s)) == Swap(s)
  {
  }

  lemma SwapPreservesInv(s: GameState, cfg: Config)
    requires Inv(s, cfg)
    ensures Inv(Swap(s), cfg)
  {
  }

  /** The turn at the start of a game as the source computes it: X when the
      human starts, otherwise the AI's symbol. */
  function StartTurnAsWritten(cfg: Config): (p: Player)
    ensures cfg.first == AI ==> p == cfg.aiSymbol
    ensures cfg.first == Human ==> (p == HumanSymbol(cfg) <==> cfg.aiSymbol == O)
  {
    if cfg.first == Human then X else cfg.aiSymbol
  }

  /** The turn at the start of a game: the starting side's symbol. Against
      the AI that is the human's symbol when the human starts; otherwise it
      is as the source computes it. */
  function StartTurn(cfg: Config): (p: Player)
    ensures cfg.mode == HumanVsAI ==> (p == cfg.aiSymbol <==> cfg.first == AI)
    ensures cfg.mode == HumanVsHuman ==> p == StartTurnAsWritten(cfg)
  {
    if cfg.mode == HumanVsAI && cfg.first == Human then HumanSymbol(cfg) else StartTurnAsWritten(cfg)
  }

  /** The "Reset game" button. `generated` stands for the power-cell
      generator's output, used only when power cells are enabled. The
      symbols are kept. The turn follows `StartTurn`. */
  function Reset(s: GameState, cfg: Config, generated: set<Pos>): (t: GameState)
    ensures t.board == NewBoard(cfg.size) && t.history == [] && t.turn == StartTurn(cfg)
    ensures !t.gameOver && t.winningLine.None? && !t.swapAvailable && !t.hasSwapped
    ensures t.powerCells == (if cfg.powerCellsEnabled then generated else {})
    ensures t.symbols == s.symbols
  {
    GameState(NewBoard(cfg.size), StartTurn(cfg), [], if cfg.powerCellsEnabled then generated else {},
              false, false, false, None, s.symbols)
  }

  /** A fresh board of side at least 1 is open: no cell is taken, so no line
      is held, and some cell is free. */
  lemma NewBoardOpen(n: nat, w: nat)
    requires 1 <= n && 1 <= w
    ensures Open(NewBoard(n), w)
  {
    var b := NewBoard(n);
    CheckWinnerSpec(b, w);
    forall line, p | line in Lines.WinLines(n, w)
      ensures !Uniform(b, line, p)
    {
      if |line| > 0 {
        assert At(b, line[0]) == Empty;
      }
    }
    assert b[0][0] == Empty;
  }

  /** Reset starts a game that satisfies the invariant, whatever state it
      is pressed in, when the generated cells lie on the board. */
  lemma ResetEstablishesInv(s: GameState, cfg: Config, generated: set<Pos>)
    requires ValidConfig(cfg)
    requires forall q :: q in generated ==> InBounds(q, cfg.size)
    ensures Inv(Reset(s, cfg, generated), cfg)
  {
    NewBoardOpen(cfg.size, cfg.winLen);
  }

  // ---------------------------------------------------------------------
  // The AI's move and the click dispatch
  // ---------------------------------------------------------------------

  /** `ai_move`: on a game still running, place the AI's symbol on the move
      `ChooseMove` decides (`pick` stands for the random fallback's index).
      On a finished game or a full board nothing happens; otherwise exactly
      one AI move onto an empty cell is appended. */
  function AiMove(s: GameState, cfg: Config, pick: nat): (t: GameState)
    requires IsBoard(s.board) && 1 <= cfg.winLen
    ensures s.gameOver || BoardFull(s.board) ==> t == s
    ensures !s.gameOver && !BoardFull(s.board) ==>
      exists m :: m in AvailMoves(s.board) && t == MakeMove(s, cfg, m, cfg.aiSymbol)
                  && t.history == s.history + [Move(cfg.aiSymbol, m)]
  {
    if s.gameOver then s
    else
      match ChooseMove(s.board, cfg.winLen, cfg.aiDepth, cfg.aiSymbol, pick)
      case None => s
      case Some(m) => MakeMove(s, cfg, m, cfg.aiSymbol)
  }

  lemma AiMovePreservesInv(s: GameState, cfg: Config, pick: nat)
    requires Inv(s, cfg)
    ensures Inv(AiMove(s, cfg, pick), cfg)
  {
    if !s.gameOver {
      var choice := ChooseMove(s.board, cfg.winLen, cfg.aiDepth, cfg.aiSymbol, pick);
      if choice.Some? {
        assert InBounds(choice.value, cfg.size);
        MakeMovePreservesInv(s, cfg, choice.value, cfg.aiSymbol);
      }
    }
  }

  /** Within the settings' ranges the AI's move never depends on the random
      fallback: on a running game minimax always returns a move. */
  lemma AiMoveIgnoresPick(s: GameState, cfg: Config, pick1: nat, pick2: nat)
    requires Inv(s, cfg) && ValidConfig(cfg)
    ensures AiMove(s, cfg, pick1) == AiMove(s, cfg, pick2)
  {
    if !s.gameOver {
      ChooseMoveDeterministic(s.board, cfg.winLen, cfg.aiDepth, cfg.aiSymbol, pick1, pick2);
    }
  }

  /** The opening clause that runs before the controls: against the AI, when
      the AI starts and nothing has been played, the AI moves. */
  function OpeningMove(s: GameState, cfg: Config, pick: nat): (t: GameState)
    requires IsBoard(s.board) && 1 <= cfg.winLen
    ensures cfg.mode == HumanVsAI && cfg.first == AI && s.history == [] ==> t == AiMove(s, cfg, pick)
    ensures !(cfg.mode == HumanVsAI && cfg.first == AI && s.history == []) ==> t == s
  {
    if cfg.mode == HumanVsAI && cfg.first == AI && |s.history| == 0 then AiMove(s, cfg, pick) else s
  }

  lemma OpeningMovePreservesInv(s: GameState, cfg: Config, pick: nat)
    requires Inv(s, cfg)
    ensures Inv(OpeningMove(s, cfg, pick), cfg)
  {
    AiMovePreservesInv(s, cfg, pick);
  }

  /** A click on cell `p` as the source dispatches it. Human vs Human: the
      side to move plays there. Human vs AI: only on the human's turn, the
      human plays there and then, unless that ended the game or landed on a
      power cell (the rerun that grants the extra move abandons the
      handler), the AI answers. The AI answers even when the human's move was
      rejected because the cell was taken. */
  function ClickAsWritten(s: GameState, cfg: Config, p: Pos, pick: nat): (t: GameState)
    requires IsBoard(s.board) && InBounds(p, |s.board|) && 1 <= cfg.winLen
    ensures s.gameOver ==> t == s
    ensures cfg.mode == HumanVsHuman ==> t == MakeMove(s, cfg, p, s.turn)
    ensures cfg.mode == HumanVsAI && s.turn != HumanSymbol(cfg) ==> t == s
  {
    if s.gameOver then s
    else if cfg.mode == HumanVsAI then
      var human := HumanSymbol(cfg);
      if s.turn != human then s
      else
        var s1 := MakeMove(s, cfg, p, human);
        if s1.gameOver then s1
        else if At(s.board, p) == Empty && p in s.powerCells then s1
        else AiMove(s1, cfg, pick)
    else MakeMove(s, cfg, p, s.turn)
  }

  /** The AI's whole turn: it moves, and moves again for as long as its move
      landed on a power cell without ending the game, which leaves the turn
      with the AI. */
  function AiTurn(s: GameState, cfg: Config, pick: nat): (t: GameState)
    requires IsBoard(s.board) && 1 <= cfg.winLen
    ensures IsBoard(t.board) && |t.board| == |s.board|
    ensures t.symbols == s.symbols && t.powerCells <= s.powerCells
    ensures s.gameOver ==> t == s
    decreases s.powerCells
  {
    var a := AiMove(s, cfg, pick);
    AiMoveAppends(s, cfg, pick);
    if !a.gameOver && a.turn == cfg.aiSymbol && a.powerCells < s.powerCells then AiTurn(a, cfg, pick)
    else a
  }

  /** The AI's whole turn appends only AI moves. */
  lemma {:induction false} AiTurnAppends(s: GameState, cfg: Config, pick: nat)
    requires IsBoard(s.board) && 1 <= cfg.winLen
    ensures ExtendsWith(s.history, AiTurn(s, cfg, pick).history, cfg.aiSymbol)
    decreases s.powerCells
  {
    var a := AiMove(s, cfg, pick);
    AiMoveAppends(s, cfg, pick);
    if !a.gameOver && a.turn == cfg.aiSymbol && a.powerCells < s.powerCells {
      AiTurnAppends(a, cfg, pick);
      ExtendsWithTrans(s.history, a.history, AiTurn(a, cfg, pick).history, cfg.aiSymbol);
    }
  }

  /** `make_move` appends at most one move, and only `player`'s. */
  lemma MakeMoveAppends(s: GameState, cfg: Config, p: Pos, player: Player)
    requires IsBoard(s.board) && InBounds(p, |s.board|) && 1 <= cfg.winLen
    ensures var t := MakeMove(s, cfg, p, player);
            IsBoard(t.board) && |t.history| <= |s.history| + 1 && ExtendsWith(s.history, t.history, player)
            && |t.board| == |s.board| && t.symbols == s.symbols && t.powerCells <= s.powerCells
  {
    if !s.gameOver && At(s.board, p) == Empty {
      var t := MakeMove(s, cfg, p, player);
      assert t.history[..|s.history|] == s.history;
    }
  }

  /** `ai_move` appends at most one move, and only the AI's. */
  lemma AiMoveAppends(s: GameState, cfg: Config, pick: nat)
    requires IsBoard(s.board) && 1 <= cfg.winLen
    ensures var a := AiMove(s, cfg, pick);
            IsBoard(a.board) && |a.history| <= |s.history| + 1 && ExtendsWith(s.history, a.history, cfg.aiSymbol)
            && |a.board| == |s.board| && a.symbols == s.symbols && a.powerCells <= s.powerCells
  {
    if !s.gameOver {
      var choice := ChooseMove(s.board, cfg.winLen, cfg.aiDepth, cfg.aiSymbol, pick);
      if choice.Some? {
        MakeMoveAppends(s, cfg, choice.value, cfg.aiSymbol);
      }
    }
  }

  lemma AiTurnPreservesInv(s: GameState, cfg: Config, pick: nat)
    requires Inv(s, cfg)
    ensures Inv(AiTurn(s, cfg, pick), cfg)
    decreases s.powerCells
  {
    AiMovePreservesInv(s, cfg, pick);
    var a := AiMove(s, cfg, pick);
    if !a.gameOver && a.turn == cfg.aiSymbol && a.powerCells < s.powerCells {
      AiTurnPreservesInv(a, cfg, pick);
    }
  }

  /** On a running game with the AI to move, the AI's whole turn plays at
      least one move and ends with the game over or the human to move. */
  lemma AiTurnEndsWithHuman(s: GameState, cfg: Config, pick: nat)
    requires Inv(s, cfg) && !s.gameOver && s.turn == cfg.aiSymbol
    ensures var t := AiTurn(s, cfg, pick);
            |t.history| > |s.history| && (!t.gameOver ==> t.turn == HumanSymbol(cfg))
    decreases s.powerCells
  {
    AiMovePreservesInv(s, cfg, pick);
    var a := AiMove(s, cfg, pick);
    var m :| m in AvailMoves(s.board) && a == MakeMove(s, cfg, m, cfg.aiSymbol)
             && a.history == s.history + [Move(cfg.aiSymbol, m)];
    if !a.gameOver && m in s.powerCells {
      AiTurnEndsWithHuman(a, cfg, pick);
    }
  }

  /** The dispatch as evidently intended: a click on a taken cell is ignored
      like every other rejected click, and against the AI the AI keeps moving
      while it lands on power cells. */
  function Click(s: GameState, cfg: Config, p: Pos, pick: nat): (t: GameState)
    requires IsBoard(s.board) && InBounds(p, |s.board|) && 1 <= cfg.winLen
    ensures s.gameOver || At(s.board, p) != Empty ==> t == s
    ensures cfg.mode == HumanVsHuman ==> t == MakeMove(s, cfg, p, s.turn)
    ensures cfg.mode == HumanVsAI && s.turn != HumanSymbol(cfg) ==> t == s
  {
    if s.gameOver || At(s.board, p) != Empty then s
    else if cfg.mode == HumanVsAI then
      var human := HumanSymbol(cfg);
      if s.turn != human then s
      else
        var s1 := MakeMove(s, cfg, p, human);
        if s1.gameOver || p in s.powerCells then s1 else AiTurn(s1, cfg, pick)
    else MakeMove(s, cfg, p, s.turn)
  }

  /** Against the AI, an accepted click on the human's turn appends the
      human's move on that cell followed by AI moves only. */
  lemma ClickAppendsHumanThenAi(s: GameState, cfg: Config, p: Pos, pick: nat)
    requires IsBoard(s.board) && InBounds(p, |s.board|) && 1 <= cfg.winLen
    requires cfg.mode == HumanVsAI && s.turn == HumanSymbol(cfg) && !s.gameOver && At(s.board, p) == Empty
    ensures ExtendsWith(s.history + [Move(HumanSymbol(cfg), p)], Click(s, cfg, p, pick).history, cfg.aiSymbol)
  {
    var s1 := MakeMove(s, cfg, p, HumanSymbol(cfg));
    assert s1.history == s.history + [Move(HumanSymbol(cfg), p)];
    if s1.gameOver || p in s.powerCells {
      assert s1.history[..|s1.history|] == s1.history;
    } else {
      AiTurnAppends(s1, cfg, pick);
    }
  }

  /** No click and no opening clause changes the state: only Undo or Reset
      lets the game go on. */
  ghost predicate Stuck(t: GameState, cfg: Config)
    requires IsBoard(t.board) && 1 <= cfg.winLen
  {
    forall q, pick :: InBounds(q, |t.board|) ==> ClickAsWritten(t, cfg, q, pick) == t && OpeningMove(t, cfg, pick) == t
  }

  /** Against the AI, once moves have been played and the turn is the AI's,
      no click and no opening clause advances the game. */
  lemma StuckOnAiTurn(t: GameState, cfg: Config)
    requires IsBoard(t.board) && 1 <= cfg.winLen
    requires cfg.mode == HumanVsAI && t.turn == cfg.aiSymbol && |t.history| > 0
    ensures Stuck(t, cfg)
  {
  }

  /** In Human vs AI, a click on a taken cell on the human's turn makes the
      AI move although the human did not: the history gains an AI move and
      no human move. Unless that move ends the game or lands on a power cell,
      the turn is then the AI's, so every later click is refused, while the
      corrected dispatch ignores the click. */
  lemma ClickAsWrittenOccupiedCell(s: GameState, cfg: Config, p: Pos, pick: nat)
    requires Inv(s, cfg) && InBounds(p, cfg.size)
    requires cfg.mode == HumanVsAI && !s.gameOver && s.turn == HumanSymbol(cfg) && At(s.board, p) != Empty
    ensures var t := ClickAsWritten(s, cfg, p, pick);
            && |t.history| == |s.history| + 1 && t.history[|s.history|].player == cfg.aiSymbol
            && (!t.gameOver && t.history[|s.history|].pos !in s.powerCells ==>
                  t.turn == cfg.aiSymbol && IsBoard(t.board) && Stuck(t, cfg))
            && Click(s, cfg, p, pick) == s
  {
    var t := ClickAsWritten(s, cfg, p, pick);
    if !t.gameOver && t.history[|s.history|].pos !in s.powerCells {
      StuckOnAiTurn(t, cfg);
    }
  }

  /** The human's move and the AI's answer each keep the invariant. */
  lemma HumanTurnPreservesInv(s: GameState, cfg: Config, p: Pos, pick: nat)
    requires Inv(s, cfg) && InBounds(p, cfg.size)
    requires !s.gameOver && cfg.mode == HumanVsAI && s.turn == HumanSymbol(cfg)
    ensures Inv(ClickAsWritten(s, cfg, p, pick), cfg)
  {
    var s1 := MakeMove(s, cfg, p, HumanSymbol(cfg));
    MakeMovePreservesInv(s, cfg, p, HumanSymbol(cfg));
    AiMovePreservesInv(s1, cfg, pick);
    assert ClickAsWritten(s, cfg, p, pick) in {s1, AiMove(s1, cfg, pick)};
  }

  /** Every click keeps the invariant, in either dispatch. */
  lemma ClickAsWrittenPreservesInv(s: GameState, cfg: Config, p: Pos, pick: nat)
    requires Inv(s, cfg) && InBounds(p, cfg.size)
    ensures Inv(ClickAsWritten(s, cfg, p, pick), cfg)
  {
    if !s.gameOver && cfg.mode == HumanVsAI && s.turn == HumanSymbol(cfg) {
      HumanTurnPreservesInv(s, cfg, p, pick);
    } else if cfg.mode == HumanVsHuman {
      MakeMovePreservesInv(s, cfg, p, s.turn);
    }
  }

  /** An accepted click of the human against the AI keeps the invariant. */
  lemma HumanClickPreservesInv(s: GameState, cfg: Config, p: Pos, pick: nat)
    requires Inv(s, cfg) && InBounds(p, cfg.size)
    requires cfg.mode == HumanVsAI && s.turn == HumanSymbol(cfg) && !s.gameOver && At(s.board, p) == Empty
    ensures Inv(Click(s, cfg, p, pick), cfg)
  {
    var s1 := MakeMove(s, cfg, p, HumanSymbol(cfg));
    MakeMovePreservesInv(s, cfg, p, HumanSymbol(cfg));
    if !s1.gameOver && p !in s.powerCells {
      AiTurnPreservesInv(s1, cfg, pick);
    }
  }

  lemma ClickPreservesInv(s: GameState, cfg: Config, p: Pos, pick: nat)
    requires Inv(s, cfg) && InBounds(p, cfg.size)
    ensures Inv(Click(s, cfg, p, pick), cfg)
  {
    var t := Click(s, cfg, p, pick);
    if !s.gameOver && At(s.board, p) == Empty && cfg.mode == HumanVsAI && s.turn == HumanSymbol(cfg) {
      HumanClickPreservesInv(s, cfg, p, pick);
    } else if cfg.mode == HumanVsHuman {
      MakeMovePreservesInv(s, cfg, p, s.turn);
      assert t == MakeMove(s, cfg, p, s.turn);
    } else {
      assert t == s;
    }
  }

  /** When the AI's answer lands on a power cell without ending the game,
      `make_move` leaves the turn with the AI, but nothing makes the AI move
      again: every later click is refused as not the human's turn and the
      opening clause needs an empty history, so nothing advances the game
      until Undo or Reset. */
  lemma AiPowerCellStalls(s: GameState, cfg: Config, p: Pos, pick: nat)
    requires IsBoard(s.board) && InBounds(p, |s.board|) && 1 <= cfg.winLen
    requires cfg.mode == HumanVsAI && !s.gameOver && s.turn == HumanSymbol(cfg)
    requires At(s.board, p) == Empty && p !in s.powerCells
    requires var t := ClickAsWritten(s, cfg, p, pick);
             !t.gameOver && |t.history| == |s.history| + 2 && t.history[|s.history| + 1].pos in s.powerCells
    ensures var t := ClickAsWritten(s, cfg, p, pick);
            t.turn == cfg.aiSymbol && IsBoard(t.board) && Stuck(t, cfg)
  {
    var s1 := MakeMove(s, cfg, p, HumanSymbol(cfg));
    assert !s1.gameOver && s1.turn == cfg.aiSymbol && s1.powerCells == s.powerCells;
    var choice := ChooseMove(s1.board, cfg.winLen, cfg.aiDepth, cfg.aiSymbol, pick);
    assert choice.Some?;
    var t := ClickAsWritten(s, cfg, p, pick);
    assert t == MakeMove(s1, cfg, choice.value, cfg.aiSymbol);
    assert t.history == s1.history + [Move(cfg.aiSymbol, choice.value)];
    assert t.turn == cfg.aiSymbol && IsBoard(t.board) && |t.board| == |s.board|;
    StuckOnAiTurn(t, cfg);
  }

  /** With the corrected dispatch, a click on the human's turn in a running
      game against the AI always hands the move back: afterwards the game is
      over or the human is to move. */
  lemma ClickReturnsTurnToHuman(s: GameState, cfg: Config, p: Pos, pick: nat)
    requires Inv(s, cfg) && InBounds(p, cfg.size)
    requires cfg.mode == HumanVsAI && !s.gameOver && s.turn == HumanSymbol(cfg)
    ensures var t := Click(s, cfg, p, pick);
            !t.gameOver ==> t.turn == HumanSymbol(cfg)
  {
    if At(s.board, p) == Empty {
      var s1 := MakeMove(s, cfg, p, HumanSymbol(cfg));
      MakeMovePreservesInv(s, cfg, p, HumanSymbol(cfg));
      if !s1.gameOver && p !in s.powerCells {
        AiTurnEndsWithHuman(s1, cfg, pick);
      }
    }
  }

  // ---------------------------------------------------------------------
  // Resuming the AI
  // ---------------------------------------------------------------------

  /** The opening clause as evidently intended: on every rerun, against the
      AI, while the game runs and the AI is to move, the AI takes its whole
      turn. Besides the first move of a game the AI starts, this covers an
      opening move onto a power cell and a turn handed back to the AI by
      undo. */
  function Resume(s: GameState, cfg: Config, pick: nat): (t: GameState)
    requires IsBoard(s.board) && 1 <= cfg.winLen
    ensures !(cfg.mode == HumanVsAI && !s.gameOver && s.turn == cfg.aiSymbol) ==> t == s
  {
    if cfg.mode == HumanVsAI && !s.gameOver && s.turn == cfg.aiSymbol then AiTurn(s, cfg, pick) else s
  }

  lemma ResumePreservesInv(s: GameState, cfg: Config, pick: nat)
    requires Inv(s, cfg)
    ensures Inv(Resume(s, cfg, pick), cfg)
  {
    AiTurnPreservesInv(s, cfg, pick);
  }

  /** Against the AI, the resume clause appends AI moves only, plays at least
      one when the AI is to move in a running game, and leaves the game over
      or the human to move. */
  lemma ResumeHandsTurnToHuman(s: GameState, cfg: Config, pick: nat)
    requires Inv(s, cfg) && cfg.mode == HumanVsAI
    ensures var t := Resume(s, cfg, pick);
            && ExtendsWith(s.history, t.history, cfg.aiSymbol)
            && (!s.gameOver && s.turn == cfg.aiSymbol ==> |t.history| > |s.history|)
            && (t.gameOver || t.turn == HumanSymbol(cfg))
  {
    if !s.gameOver && s.turn == cfg.aiSymbol {
      AiTurnEndsWithHuman(s, cfg, pick);
      AiTurnAppends(s, cfg, pick);
    } else {
      assert s.history[..|s.history|] == s.history;
    }
  }

  /** The AI's whole turn starts with the single move `ai_move` makes. */
  lemma AiTurnStartsWithAiMove(s: GameState, cfg: Config, pick: nat)
    requires IsBoard(s.board) && 1 <= cfg.winLen
    ensures ExtendsWith(AiMove(s, cfg, pick).history, AiTurn(s, cfg, pick).history, cfg.aiSymbol)
  {
    var a := AiMove(s, cfg, pick);
    AiMoveAppends(s, cfg, pick);
    if !a.gameOver && a.turn == cfg.aiSymbol && a.powerCells < s.powerCells {
      AiTurnAppends(a, cfg, pick);
    } else {
      assert a.history[..|a.history|] == a.history;
    }
  }

  /** On a fresh game the AI starts, the resume clause plays the opening
      clause's move and possibly more AI moves, and then hands the move to
      the human unless the game is over. */
  lemma ResumeAfterReset(s: GameState, cfg: Config, generated: set<Pos>, pick: nat)
    requires ValidConfig(cfg) && cfg.mode == HumanVsAI && cfg.first == AI
    requires forall q :: q in generated ==> InBounds(q, cfg.size)
    ensures var t := Reset(s, cfg, generated);
            var u := Resume(t, cfg, pick);
            && |u.history| > 0 && ExtendsWith(OpeningMove(t, cfg, pick).history, u.history, cfg.aiSymbol)
            && (u.gameOver || u.turn == HumanSymbol(cfg))
  {
    var t := Reset(s, cfg, generated);
    ResetEstablishesInv(s, cfg, generated);
    ResumeHandsTurnToHuman(t, cfg, pick);
    AiTurnStartsWithAiMove(t, cfg, pick);
  }

  /** On a fresh game the human starts, the first click is recorded first,
      followed by AI moves only. */
  lemma FirstClickAfterReset(s: GameState, cfg: Config, generated: set<Pos>, p: Pos, pick: nat)
    requires ValidConfig(cfg) && cfg.mode == HumanVsAI && cfg.first == Human && InBounds(p, cfg.size)
    ensures ExtendsWith([Move(HumanSymbol(cfg), p)], Click(Reset(s, cfg, generated), cfg, p, pick).history, cfg.aiSymbol)
  {
    var t := Reset(s, cfg, generated);
    ClickAppendsHumanThenAi(t, cfg, p, pick);
    assert t.history + [Move(HumanSymbol(cfg), p)] == [Move(HumanSymbol(cfg), p)];
  }

  /** Against the AI, undo followed by the resume clause leaves the game over
      or the human to move, even when the undone move was the AI's. */
  lemma UndoThenResume(s: GameState, cfg: Config, pick: nat)
    requires Inv(s, cfg) && cfg.mode == HumanVsAI
    ensures var t := Resume(Undo(s), cfg, pick);
            t.gameOver || t.turn == HumanSymbol(cfg)
  {
    UndoPreservesInv(s, cfg);
    ResumeHandsTurnToHuman(Undo(s), cfg, pick);
  }

  // ---------------------------------------------------------------------
  // Who can move first
  // ---------------------------------------------------------------------

  /** With the source's start rule, a game against the AI that the human
      starts with the AI playing X cannot begin: the turn is X, the AI's
      symbol, so every click is refused as not the human's turn, and the
      opening clause waits for the AI to be the starter. */
  lemma StartTurnAsWrittenStalls(s: GameState, cfg: Config, generated: set<Pos>, p: Pos, pick: nat)
    requires ValidConfig(cfg) && cfg.mode == HumanVsAI && cfg.first == Human && cfg.aiSymbol == X
    requires InBounds(p, cfg.size)
    ensures var t := Reset(s, cfg, generated).(turn := StartTurnAsWritten(cfg));
            IsBoard(t.board) && Stuck(t, cfg) && Click(t, cfg, p, pick) == t
  {
  }

  /** With the corrected start rule the configured starter can move on a
      fresh game against the AI: the human's first click on any cell is
      accepted and recorded first, followed by AI moves only; when the AI
      starts, the opening clause plays its move, and the corrected resume
      clause plays the AI's whole turn and hands the move to the human. */
  lemma StarterCanMove(s: GameState, cfg: Config, generated: set<Pos>, p: Pos, pick: nat)
    requires ValidConfig(cfg) && cfg.mode == HumanVsAI
    requires forall q :: q in generated ==> InBounds(q, cfg.size)
    requires InBounds(p, cfg.size)
    ensures var t := Reset(s, cfg, generated);
            && (cfg.first == Human ==>
                  ExtendsWith([Move(HumanSymbol(cfg), p)], Click(t, cfg, p, pick).history, cfg.aiSymbol))
            && (cfg.first == AI ==>
                  && |OpeningMove(t, cfg, pick).history| == 1
                  && OpeningMove(t, cfg, pick).history[0].player == cfg.aiSymbol
                  && var u := Resume(t, cfg, pick);
                     |u.history| > 0 && ExtendsWith(OpeningMove(t, cfg, pick).history, u.history, cfg.aiSymbol)
                     && (u.gameOver || u.turn == HumanSymbol(cfg)))
  {
    NewBoardOpen(cfg.size, cfg.winLen);
    if cfg.first == Human {
      FirstClickAfterReset(s, cfg, generated, p, pick);
    } else {
      ResumeAfterReset(s, cfg, generated, pick);
    }
  }
}
