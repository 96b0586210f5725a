/** The plain 3-by-3 game without history: a click places the side to move,
    a win or a draw ends the game with a status message and keeps the turn,
    and Reset starts over. The detector is the fixed 3-by-3 one, reduced to
    its verdict (`"X"`, `"O"`, `"Draw"` or `None`). */
module SimpleGame {
  import opened Board
  import opened Classic

  datatype State = State(board: Grid, turn: Player, gameOver: bool, message: string)

  predicate Shaped(s: State)
  {
    IsBoard(s.board) && |s.board| == 3
  }

  function Name(p: Player): string
  {
    match p
    case X => "X"
    case O => "O"
  }

  /** The message a finished game shows; empty while there is no result. */
  function Message(v: Verdict): string
  {
    match v
    case Won(p) => "Winner: " + Name(p)
    case Drawn => "It's a draw!"
    case Undecided => ""
  }

  /** Reads a verdict back from the message, the inverse of `Message`. */
  function ParseMessage(m: string): (v: Verdict)
    ensures m == "" ==> v == Undecided
  {
    if m == "Winner: X" then Won(X)
    else if m == "Winner: O" then Won(O)
    else if m == "It's a draw!" then Drawn
    else Undecided
  }

  /** The three messages differ from each other already in their first or
      ninth character. */
  lemma MessagesDistinct()
    ensures "Winner: X" != "Winner: O" && "Winner: X" != "It's a draw!" && "Winner: O" != "It's a draw!"
    ensures "Winner: X" != "" && "Winner: O" != "" && "It's a draw!" != ""
  {
    assert "Winner: X"[8] != "Winner: O"[8];
    assert "Winner: X"[0] != "It's a draw!"[0];
    assert "Winner: O"[0] != "It's a draw!"[0];
  }

  lemma MessageRoundTrip(v: Verdict)
    ensures ParseMessage(Message(v)) == v
    ensures Message(v) == "" <==> v == Undecided
  {
    MessagesDistinct();
    match v
    case Won(p) =>
      assert Message(v) == (if p == X then "Winner: X" else "Winner: O");
    case Drawn =>
    case Undecided =>
  }

  /** The Reset button. */
  function Reset(): (s: State)
    ensures Shaped(s) && s.turn == X && !s.gameOver && s.message == ""
    ensures forall r, c :: 0 <= r < 3 && 0 <= c < 3 ==> s.board[r][c] == Empty
  {
    State(NewBoard(3), X, false, "")
  }

  /** A click on cell `p`. On a finished game or a taken cell nothing
      changes. Otherwise exactly that cell receives the side to move; a win or
      a draw then ends the game with its message and keeps the turn, and any
      other position passes the turn. */
  function Click(s: State, p: Pos): (t: State)
    requires Shaped(s) && InBounds(p, 3)
    ensures s.gameOver || At(s.board, p) != Empty ==> t == s
    ensures !s.gameOver && At(s.board, p) == Empty ==>
      && t.board == Place(s.board, p, Mark(s.turn))
      && (CheckWinner(t.board).verdict != Undecided ==>
            t.gameOver && t.turn == s.turn && ParseMessage(t.message) == CheckWinner(t.board).verdict)
      && (CheckWinner(t.board).verdict == Undecided ==>
            !t.gameOver && t.turn == Opp(s.turn) && t.message == s.message)
  {
    if s.gameOver || At(s.board, p) != Empty then s
    else
      var board := Place(s.board, p, Mark(s.turn));
      var verdict := CheckWinner(board).verdict;
      MessageRoundTrip(verdict);
      if verdict != Undecided then
        s.(board := board, gameOver := true, message := Message(verdict))
      else
        s.(board := board, turn := Opp(s.turn))
  }

  /** The banner kinds of the status line. */
  datatype Banner = Success(text: string) | Info(text: string)

  /** The status line: a non-empty message, as a success banner when it
      announces a winner; otherwise whose turn it is. */
  function Status(s: State): Banner
  {
    if s.message != "" then
      if |s.message| >= 6 && s.message[..6] == "Winner" then Success(s.message) else Info(s.message)
    else Info("Turn: " + Name(s.turn))
  }

  /** What every reachable state satisfies: the game is over exactly when the
      detector has a result, the message announces that result, and the piece
      counts follow the turn: equal counts on X's turn and one more X on O's
      turn while the game runs, the reverse once the side to move has ended
      it. */
  predicate Inv(s: State)
  {
    && Shaped(s)
    && (s.gameOver <==> CheckWinner(s.board).verdict != Undecided)
    && s.message == Message(CheckWinner(s.board).verdict)
    && var x, o := CountBoard(s.board, Mark(X)), CountBoard(s.board, Mark(O));
       if s.turn == X then x == o + (if s.gameOver then 1 else 0)
       else x == o + (if s.gameOver then 0 else 1)
  }

  lemma ResetInv()
    ensures Inv(Reset())
  {
    var b := NewBoard(3);
    CheckWinnerSpec(b);
    NewBoardCounts(3, X);
    NewBoardCounts(3, O);
    forall k, p | 0 <= k < |Triples|
      ensures !Winner.Uniform(b, Triples[k], p)
    {
      assert At(b, Triples[k][0]) == Empty;
    }
    assert b[0][0] == Empty;
  }

  lemma ClickPreservesInv(s: State, p: Pos)
    requires Inv(s) && InBounds(p, 3)
    ensures Inv(Click(s, p))
  {
    if !s.gameOver && At(s.board, p) == Empty {
      CountAfterPlace(s.board, p, s.turn, Mark(X));
      CountAfterPlace(s.board, p, s.turn, Mark(O));
    }
  }

  /** Under the invariant the status line is a success banner exactly when
      someone has won, names that winner, and asks for the next move exactly
      while the game runs. */
  lemma StatusAnnouncesWinner(s: State)
    requires Inv(s)
    ensures Status(s).Success? <==> CheckWinner(s.board).verdict.Won?
    ensures Status(s).Success? ==> ParseMessage(Status(s).text) == CheckWinner(s.board).verdict
    ensures Status(s) == Info("Turn: " + Name(s.turn)) <==> !s.gameOver
  {
    var v := CheckWinner(s.board).verdict;
    MessageRoundTrip(v);
    if v.Drawn? {
      assert s.message[..6] != "Winner" by { assert s.message[0] != "Winner"[0]; }
    }
    if s.gameOver {
      if v.Won? {
        assert s.message[..6] == "Winner";
      } else {
        assert s.message != "Turn: " + Name(s.turn) by { assert s.message[0] != ("Turn: " + Name(s.turn))[0]; }
      }
    }
  }
}
