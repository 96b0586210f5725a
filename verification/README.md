# Tic-Tac-Toe engines, modelled in Dafny

The repository holds four small Streamlit apps built on one game core:

- `tic.py` is the N-by-N engine.
  - Board side 3 to 5 and a configurable win length.
  - Human vs Human or Human vs a depth-limited minimax AI.
  - Power cells: landing on one gives the mover another move.
  - A once-per-game symbol swap.
  - Undo and reset.
- `try.py` and `New_01.py` are a local two-player 3-by-3 game with undo and a winning-line highlight. Their handlers are the same. They differ only in how the detector's result is read (`is not None` against truthiness), and the two readings agree because every result other than `None` is a non-empty string.
- `new_tic.py` is a plain 3-by-3 game with no history and a status message.

The model lifts the session-state handlers out of the UI into pure functions on immutable records. The modules are:

- `Board`: grid, cells, players, `new_board`, `avail_moves`, `board_full`, and piece counts.
- `Lines`: the line generator `win_lines`.
- `Winner`: the general first-match detector `check_winner(board, win_len)`.
- `Search`: `heuristic`, depth-limited `minimax`, and the AI's move decision.
- `History`: the move history and the board it replays to.
- `Engine`: the N-by-N engine's `GameState`, with `make_move`, `ai_move`, the click dispatch, Undo, Reset, Swap, the opening AI move and its corrected form that resumes the AI whenever it is to move.
- `Classic`: the fixed 3-by-3 detector of the three small apps, proved to agree with the general one.
- `LocalGame`: the `try.py` / `New_01.py` handlers.
- `SimpleGame`: the `new_tic.py` handlers.

Each game module states an invariant of reachable states and proves that every transition keeps it. Each transition is also paired with an inverse (undo after a move) or an independent characterisation (a detector against "no straight run is uniform", minimax against its selection fold).

Randomness and the UI are parameters:

- The power-cell generator's output is an argument `generated` of `Engine.Reset`.
- The index that `random.choice` would draw is an argument `pick`.
- A click is a call with the clicked cell.

`New_01.py` repeats `try.py`'s detector (New_01.py:83-102), its Undo (New_01.py:124-129), its New Game (New_01.py:132-138) and its cell click (New_01.py:173-186). Its rows below are therefore the `try.py` rows for `Classic.CheckWinner`, `LocalGame.Undo`, `LocalGame.NewGame` and `LocalGame.Click`. The symbol-only detector of `new_tic.py` (new_tic.py:72-89) tests the same triples in the same order and returns only the verdict. `SimpleGame` uses `Classic.CheckWinner(b).verdict` for it, so `Classic.CheckWinnerSpec` characterises it too.

Minimax in the source mutates a copy of the board and undoes each trial placement. In the model it is a pure function, so "the board is left as it was found" holds by construction. `Board.PlaceThenClear` states the restore step.

## Model

| member | source | states |
|---|---|---|
| Board.NewBoard | tic.py:22-23 | a fresh board is n-by-n with every cell empty |
| Board.Place | tic.py:224 | placing a mark changes exactly the chosen cell and nothing else |
| Board.PlaceThenClear | tic.py:89-91 | emptying a cell that was just filled restores the board exactly, as minimax's trial placements and undo rely on |
| Board.AvailMoves | tic.py:25-31 | the list holds exactly the empty cells, strictly in row-major order, and is empty exactly when the board is full |
| Board.BoardFullIffPiecesFill | tic.py:33-34 | the board is full exactly when X's and O's pieces together number n² |
| Lines.WinLines | tic.py:43-61 | there are 2·n·m + 2·m² lines with m = n − w + 1, and each is a straight on-board run of w cells |
| Lines.WinLinesAreExactlyRuns | tic.py:43-61 | a cell sequence is generated exactly when it is a straight on-board run of w cells, read left to right, top to bottom, down-right or up-right |
| Lines.FamilyMember | tic.py:46-48 | one direction's family holds exactly the runs that start at an admissible start cell |
| Winner.LineOwner | tic.py:66-67 | the per-line test names a player exactly when that player holds every cell of the line |
| Winner.FirstWinning | tic.py:65-69 | the scan reports nothing exactly when no line is owned, and otherwise the first owned line in list order with its owner |
| Winner.CheckWinner | tic.py:63-69 | a reported line has w on-board cells, all held by the reported player |
| Winner.CheckWinnerSpec | tic.py:63-69 | the reported line is the first uniform line of `win_lines`, and nothing is reported exactly when no generated line is uniform |
| Winner.NoWinnerIffNoUniformRun | tic.py:63-69 | no winner exactly when no straight on-board run of w cells is held by one player, independent of the generator |
| Search.Potential | tic.py:110-116 | a side's potential is zero exactly when no candidate line is open for it (every open line adds at least one) |
| Search.Heuristic | tic.py:108-117 | the score lies within ±(w + 1) per line of `win_lines`; it is never negative when the human has no open line and never positive when the AI has none |
| Search.PotentialBound | tic.py:110-116 | a side's potential is at most (w + 1) per candidate line |
| Search.HeuristicAntisymmetric | tic.py:108-117 | exchanging every X and O on the board negates the score; exchanging the roles of the two symbols negates it too, which is immediate from the difference of the two potentials |
| Search.HeuristicEmptyBoard | tic.py:108-117 | the empty board scores 0 |
| Search.HeuristicBound | tic.py:108-117 | on the board sizes the settings allow the heuristic stays within ±600, below the ±1000 win scores |
| Search.SelectBest | tic.py:85-106 | the strict-comparison loop keeps the first optimal move: every earlier move scores strictly worse and no later one better |
| Search.Minimax | tic.py:74-106 | a move is returned only from a non-terminal position, and it is an available cell |
| Search.MinimaxTerminalScores | tic.py:75-83 | an AI win scores 1000 − depth, a human win −1000 + depth, a full board 0, the depth limit the heuristic, all without a move |
| Search.ChildScoresAt | tic.py:86-106 | the k-th child score is minimax's score of the board with the k-th move placed for the side to move, one level deeper and with the other side maximising |
| Search.MinimaxSelectsFirstBest | tic.py:85-106 | off the terminal positions the move is the first optimal one, with that child's score |
| Search.MinimaxBounded | tic.py:74-106 | within the settings' bounds every score lies in [−1000, 1000] |
| Search.MinimaxReturnsMove | tic.py:85-106 | within the settings' bounds a non-terminal search always returns an available move |
| Search.ChooseMove | tic.py:253-263 | the AI's choice is an available cell, and there is none exactly when the board is full |
| Search.ChooseMoveDeterministic | tic.py:257-262 | on a running game the random fallback is never used: the choice is minimax's move whatever index the fallback would draw |
| History.ReplayDropLast | tic.py:289-291 | emptying the last move's cell gives the board of the history without that move |
| History.ReplayCounts | tic.py:235-237 | the history's per-player entry counts equal the players' piece counts on the board |
| Engine.HumanSymbol | tic.py:339-340 | the human plays the symbol the AI does not |
| Engine.MakeMove | tic.py:219-248 | a finished game or taken cell rejects the move; otherwise exactly one cell and one history entry are added, then exactly one of win, draw, power-cell replay or turn change follows; the swap becomes available when its counts are reached and is never withdrawn |
| Engine.MakeMovePreservesInv | tic.py:219-248 | a move keeps the board equal to the replayed history, moves only onto empty cells of open positions, and keeps the status, winning line, power cells and swap flag consistent with the board |
| Engine.UndoAsWritten | tic.py:287-297 | undo pops the last entry, empties its cell, clears status and swap flags and toggles the turn |
| Engine.Undo | tic.py:287-297 | corrected undo: as above, with the turn handed back to the side whose move is undone |
| Engine.UndoPreservesInv | tic.py:287-297 | undo keeps the invariant: the position it returns to was open |
| Engine.UndoAsWrittenPreservesInv | tic.py:287-297 | the as-written undo keeps the invariant too |
| Engine.UndoInvertsMove | tic.py:287-297 | undo after an accepted move restores the board, history, turn, status, winning line and symbols |
| Engine.UndoAsWrittenLosesTurn | tic.py:296-297 | the toggling undo is right after a plain move and gives the turn to the wrong side after a winning, drawing or power-cell move |
| Engine.Swap | tic.py:308-317 | only while available and unused, the swap exchanges the two display symbols and uses itself up; board, history, turn and status stay |
| Engine.SwapOnce | tic.py:308-317 | pressing swap twice is the same as pressing it once |
| Engine.SwapPreservesInv | tic.py:308-317 | the swap keeps the invariant |
| Engine.StartTurnAsWritten | tic.py:304 | the source's start rule: the AI's symbol when the AI starts; when the human starts, the human's symbol is to move exactly when the AI plays O |
| Engine.StartTurn | tic.py:304 | corrected start rule: against the AI, the AI's symbol is to move first exactly when the AI starts |
| Engine.Reset | tic.py:298-307 | reset gives an empty board and history, the starting side's turn, cleared status and swap flags, the generated power cells only when enabled, and keeps the symbols |
| Engine.ResetEstablishesInv | tic.py:298-307 | reset establishes the invariant from any state when the generated cells lie on the board |
| Engine.AiMove | tic.py:250-264 | on a running game with a free cell the AI makes exactly one move onto an available cell through `make_move`; otherwise nothing changes |
| Engine.AiMovePreservesInv | tic.py:250-264 | the AI's move keeps the invariant |
| Engine.AiMoveIgnoresPick | tic.py:257-262 | within the settings' ranges the AI's move does not depend on the random fallback |
| Engine.OpeningMove | tic.py:266-268 | against the AI, when the AI starts and nothing has been played, the AI moves; otherwise nothing changes |
| Engine.OpeningMovePreservesInv | tic.py:266-268 | the opening move keeps the invariant |
| Engine.ClickAsWritten | tic.py:332-350 | the click dispatch as written: a finished game ignores clicks, Human vs Human plays the side to move, and Human vs AI ignores clicks off the human's turn |
| Engine.Click | tic.py:332-350 | corrected dispatch: a click on a finished game or a taken cell changes nothing, Human vs Human plays the side to move, and Human vs AI ignores clicks off the human's turn |
| Engine.ClickAppendsHumanThenAi | tic.py:343-346 | in the corrected dispatch an accepted click of the human appends the human's move on that cell followed by AI moves only |
| Engine.HumanClickPreservesInv | tic.py:343-346 | an accepted click of the human against the AI, with all of the AI's answer, keeps the invariant |
| Engine.ClickReturnsTurnToHuman | tic.py:343-346 | in the corrected dispatch, after a click on the human's turn in a running game against the AI, the game is over or the human is to move again |
| Engine.MakeMoveAppends | tic.py:219-225 | a move adds at most one history entry, the mover's, and keeps the earlier entries |
| Engine.AiMoveAppends | tic.py:250-264 | the AI's move adds at most one history entry, the AI's, and keeps the earlier entries |
| Engine.AiTurn | tic.py:241-264 | the corrected AI turn leaves a finished game unchanged, keeps the board size and symbols, and only uses up power cells |
| Engine.AiTurnStartsWithAiMove | tic.py:250-264 | the corrected AI turn begins with the one move `ai_move` makes and appends only AI moves after it |
| Engine.AiTurnAppends | tic.py:250-264 | the corrected AI turn, which moves again after each power cell, appends only AI moves and keeps the earlier entries |
| Engine.AiTurnPreservesInv | tic.py:250-264 | the corrected AI turn keeps the invariant |
| Engine.AiTurnEndsWithHuman | tic.py:241-248 | on a running game with the AI to move, the corrected AI turn plays at least one move and ends with the game over or the human to move |
| Engine.StuckOnAiTurn | tic.py:337-343 | against the AI, once a move has been played and the turn is the AI's, no click and no opening clause changes the state |
| Engine.AiPowerCellStalls | tic.py:241-246 | as written, an AI answer that lands on a power cell without ending the game leaves the turn with the AI, and no click and no opening move advances the game until Undo or Reset |
| Engine.ClickAsWrittenOccupiedCell | tic.py:338-347 | as written, a click on a taken cell on the human's turn makes the AI move although the human did not, after which (barring a game end or power cell) it is the AI's turn and every click is refused; the corrected dispatch ignores the click |
| Engine.ClickAsWrittenPreservesInv | tic.py:332-350 | every click in the as-written dispatch keeps the invariant |
| Engine.ClickPreservesInv | tic.py:332-350 | every click in the corrected dispatch keeps the invariant |
| Engine.StartTurnAsWrittenStalls | tic.py:337-343 | with the source's start rule, a human-first game against an AI playing X accepts no click and gets no opening AI move |
| Engine.Resume | tic.py:266-268 | corrected opening clause: it acts only against the AI in a running game with the AI to move, and otherwise changes nothing |
| Engine.ResumePreservesInv | tic.py:266-268 | the resume clause keeps the invariant |
| Engine.ResumeHandsTurnToHuman | tic.py:266-268 | against the AI the resume clause appends AI moves only, plays at least one when the AI is to move in a running game, and leaves the game over or the human to move |
| Engine.ResumeAfterReset | tic.py:266-268 | on a fresh game the AI starts, the resume clause plays the opening move followed by AI moves only, then hands the move to the human unless the game is over |
| Engine.FirstClickAfterReset | tic.py:343-346 | on a fresh game the human starts, the first click is recorded first, followed by AI moves only |
| Engine.UndoThenResume | tic.py:287-297 | against the AI, undo followed by the resume clause leaves the game over or the human to move, even when the undone move was the AI's |
| Engine.StarterCanMove | tic.py:266-268 | with the corrected start rule, on a fresh game against the AI the configured starter's first move happens: the human's click is recorded first, or the opening clause plays the AI's move and the resume clause completes the AI's turn and hands the move to the human unless the game is over |
| Classic.CheckWinner | try.py:63-80 | a win names a triple that its player holds entirely, a draw needs a full board, and the cells are empty unless someone won |
| Classic.CheckWinnerSpec | try.py:63-80 | a win is the first held triple in testing order; a draw is a full board with no held triple, so a win on the last cell is not a draw; no result exactly when no triple is held and a cell is free |
| Classic.WinLinesThreeByThree | tic.py:43-61 | on a 3-by-3 board with win length 3 the generator emits the eight triples in the fixed detector's order, the last one reversed |
| Classic.AgreesWithGeneral | try.py:63-80 | the fixed detector reports a win exactly when the general one with win length 3 does, for the same player and the same cells |
| LocalGame.NewGame | try.py:110-116 | New Game gives an empty board, empty history, X to move and no result |
| LocalGame.Click | try.py:153-171 | a click on a finished game or taken cell changes nothing; otherwise exactly that cell gets the side to move and exactly one entry is appended, then a result ends the game, recorded with the turn kept, and no result passes the turn |
| LocalGame.Undo | try.py:103-108 | undo acts only with history and a running game: it pops the last entry, empties its cell and passes the turn back |
| LocalGame.NewGameInv | try.py:110-116 | New Game establishes the invariant |
| LocalGame.ClickPreservesInv | try.py:153-171 | a click keeps the board equal to the replay of an alternating history on undecided positions, keeps the recorded result equal to the detector's, and keeps the turn in step |
| LocalGame.UndoPreservesInv | try.py:103-108 | undo keeps the invariant |
| LocalGame.UndoInvertsClick | try.py:103-108 | undo after a click that did not end the game restores the whole state |
| LocalGame.FinishedGameFrozen | try.py:104 | once the game is over neither clicks nor undo change anything |
| LocalGame.TurnMatchesCounts | try.py:153-171 | X has as many pieces as O or one more; while the game runs it is X's turn exactly when the counts are equal, and after it ends exactly when X has one more |
| SimpleGame.Reset | new_tic.py:104-108 | reset gives an empty board, X to move, a running game and no message |
| SimpleGame.Click | new_tic.py:119-135 | a click on a finished game or taken cell changes nothing; otherwise exactly that cell gets the side to move, then a result ends the game with its message and keeps the turn, and no result passes the turn |
| SimpleGame.MessageRoundTrip | new_tic.py:128-133 | the message determines the verdict it announces, and is empty exactly when there is no result |
| SimpleGame.ResetInv | new_tic.py:104-108 | reset establishes the invariant: game over exactly when the detector has a result, the message announces it, and the piece counts match the turn |
| SimpleGame.ClickPreservesInv | new_tic.py:119-135 | a click keeps the invariant |
| SimpleGame.StatusAnnouncesWinner | new_tic.py:137-145 | the status line is a success banner exactly when someone has won, and shows whose turn it is exactly while the game runs |

## Left out

- Rendering: the CSS, the titles, the button labels and keys, the winning-cell stars, the text views of the board and history, and the legend. None of these changes game state.
- `generate_power_cells` (tic.py:36-41) shuffles with a seeded `random`. Its output is the `generated` argument of `Engine.Reset`. `ResetEstablishesInv` asks only that those cells lie on the board.
- The `random.choice` fallback of `ai_move` (tic.py:258-262) is represented by the index `pick`. `Engine.AiMoveIgnoresPick` shows that within the settings' ranges the fallback is never reached.
- `st.experimental_rerun()` is treated as ending the handler. In `make_move` after a power cell (tic.py:246) this means the AI does not answer the human's power-cell move, which is what `Engine.ClickAsWritten` does. After the AI's own power-cell move it means nothing calls the AI again (listed under Findings).
- Engine.Click: the corrected AI turn (`Engine.AiTurn`) passes the same fallback index `pick` to each of its moves. By `Engine.AiMoveIgnoresPick` the index is never used within the settings' ranges.
- The settings widgets and the apply-and-reset block (tic.py:159-214) are not modelled as a transition. `Engine.ValidConfig` records their ranges. Applying settings resets the game as `Engine.Reset` does under the new `Config`, with two differences. It sets the display symbols from the widget text (tic.py:204), where `Engine.Reset` keeps them. It sets the turn by the source's own rule (tic.py:211), which is `Engine.StartTurnAsWritten`, so the stall shown by `Engine.StartTurnAsWrittenStalls` can also be reached by applying settings.
- The "Reset All" buttons (try.py:118-122, New_01.py:140-144) delete the session keys. The next run re-initialises them to exactly `LocalGame.NewGame`.
- The display symbols are strings that are only exchanged, never interpreted. Emoji and the `sym or "X"` default are not modelled.
- Engine.Undo: like the source, it does not give back a power cell consumed by the undone move and does not restore the swap flags. Its inverse property therefore covers board, history, turn, status and symbols only.
- Engine.Inv does not constrain the turn, because power cells break the alternation of the two players. The turn invariant is proved for the two 3-by-3 games only, in `LocalGame.TurnMatchesCounts` and `SimpleGame.Inv`.
- Engine.UndoAsWritten: follows the code, which toggles the turn (tic.py:297). The corrected `Engine.Undo` gives the turn back to the player whose move was undone (first Findings row).
- LocalGame.TurnMatchesCounts: the relation "X to move exactly when X and O have equally many pieces" holds only while the game runs. The move that ends a game keeps the turn, so afterwards it is X's turn exactly when X has one more piece. The lemma states both halves, and `SimpleGame.Inv` does the same for `new_tic.py`.
- Engine.Reset: gives the turn by the corrected start rule `Engine.StartTurn`, not by the source's expression (listed under Findings). The two differ only against the AI when the human starts and the AI plays X.
- Engine.Resume: the corrected opening clause is a transition of its own. The model does not fix its order relative to the control buttons within one rerun.
- Engine.UndoThenResume: the AI's choice is deterministic, so undoing the AI's answer and resuming replays the same answer. A corrected undo that takes back the human's move together with the AI's answer is not modelled.
- Integer widths do not matter: all scores stay within ±1000 (`Search.MinimaxBounded`), and the ±10**9 sentinels are exact.

## Findings

| source | as written | input that shows it | evidently intended | confidence | as-written member | corrected member |
|---|---|---|---|---|---|---|
| tic.py:287-297 | Undo toggles the turn | X completes a row, or lands on a power cell, and is then undone: the turn goes to O although X has to replay | the turn goes back to the side whose move was undone | high, not executed | Engine.UndoAsWrittenLosesTurn | Engine.UndoInvertsMove |
| tic.py:338-347 | in Human vs AI, `ai_move()` runs after `make_move` even when the human clicked a taken cell and the move was rejected | human (X) to move clicks a cell that already holds a piece: the AI (O) places a piece and the turn becomes O's; from then on every click is refused as not the human's turn and nothing calls the AI, so no click and no opening move advances the game until Undo or Reset | a rejected click is ignored, as on a finished game | high, not executed | Engine.ClickAsWrittenOccupiedCell | Engine.Click |
| tic.py:304 | the start turn is `"X"` whenever the human starts, whatever the AI's symbol | Human vs AI, human first, AI symbol X: the turn is X, so every click is refused as not the human's turn and the AI never starts | the human's symbol is to move when the human starts | high, not executed | Engine.StartTurnAsWrittenStalls | Engine.StarterCanMove |
| tic.py:241-246 | a power cell keeps the turn with whoever landed on it, the AI included, but only a human click calls `ai_move` (tic.py:344-346) | Human vs AI, the AI's answer lands on a power cell without ending the game: the turn stays the AI's, every click is refused as not the human's turn, and the opening clause needs an empty history, so no click and no opening move advances the game until Undo or Reset | the AI moves again whenever it is to move: after its own power cell within the click, and on every rerun through the resume clause, which also covers an opening move onto a power cell and an undo that hands the turn to the AI | high, not executed | Engine.AiPowerCellStalls | Engine.ClickReturnsTurnToHuman, Engine.ResumeHandsTurnToHuman |
