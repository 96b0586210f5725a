/** The move history every variant keeps (`(player, r, c)` entries, newest
    last) and the board it determines: replaying the history onto a fresh
    board gives the current board, and the number of a player's entries is
    the number of their pieces. */
module History {
  import opened Board

  /** A history entry `(player, r, c)`. */
  datatype Move = Move(player: Player, pos: Pos)

  /** Every entry names a cell of an n-by-n board. */
  predicate MovesInBounds(h: seq<Move>, n: nat)
  {
    forall k :: 0 <= k < |h| ==> InBounds(h[k].pos, n)
  }

  /** The board that playing the moves of `h` in order onto a fresh n-by-n
      board produces. */
  function Replay(n: nat, h: seq<Move>): (b: Grid)
    requires MovesInBounds(h, n)
    ensures IsBoard(b) && |b| == n
  {
    if |h| == 0 then NewBoard(n)
    else Place(Replay(n, h[..|h| - 1]), h[|h| - 1].pos, Mark(h[|h| - 1].player))
  }

  /** Every move of `h` was played onto a cell that was empty at the time. */
  predicate PlacedOnEmpty(n: nat, h: seq<Move>)
    requires MovesInBounds(h, n)
  {
    forall k :: 0 <= k < |h| ==> At(Replay(n, h[..k]), h[k].pos) == Empty
  }

  /** The number of entries of `h` made by `p`. */
  function CountMoves(h: seq<Move>, p: Player): (k: nat)
    ensures k <= |h|
  {
    if |h| == 0 then 0
    else CountMoves(h[..|h| - 1], p) + (if h[|h| - 1].player == p then 1 else 0)
  }

  /** Appending a move leaves the earlier prefixes alone. */
  lemma PrefixOfAppend(h: seq<Move>, m: Move, k: nat)
    requires k <= |h|
    ensures (h + [m])[..k] == h[..k]
  {
  }

  /** Replaying one more move places that move on the replayed board. */
  lemma ReplayAppend(n: nat, h: seq<Move>, m: Move)
    requires MovesInBounds(h, n) && InBounds(m.pos, n)
    ensures MovesInBounds(h + [m], n)
    ensures Replay(n, h + [m]) == Place(Replay(n, h), m.pos, Mark(m.player))
  {
    assert (h + [m])[..|h|] == h;
  }

  /** One more entry counts for its player only. */
  lemma CountMovesAppend(h: seq<Move>, m: Move, p: Player)
    ensures CountMoves(h + [m], p) == CountMoves(h, p) + (if m.player == p then 1 else 0)
  {
    assert (h + [m])[..|h|] == h;
  }

  /** Playing an empty cell extends a history of placements on empty cells. */
  lemma PlacedOnEmptyExtends(n: nat, h: seq<Move>, m: Move)
    requires MovesInBounds(h, n) && PlacedOnEmpty(n, h)
    requires InBounds(m.pos, n) && At(Replay(n, h), m.pos) == Empty
    ensures MovesInBounds(h + [m], n) && PlacedOnEmpty(n, h + [m])
  {
    var h' := h + [m];
    forall k | 0 <= k < |h'|
      ensures At(Replay(n, h'[..k]), h'[k].pos) == Empty
    {
      if k < |h| {
        PrefixOfAppend(h, m, k);
      } else {
        assert h'[..k] == h;
      }
    }
  }

  /** Clearing the last move's cell of a replayed board gives the replay of
      the history without that move. */
  lemma ReplayDropLast(n: nat, h: seq<Move>)
    requires MovesInBounds(h, n) && PlacedOnEmpty(n, h) && |h| > 0
    ensures MovesInBounds(h[..|h| - 1], n) && PlacedOnEmpty(n, h[..|h| - 1])
    ensures Place(Replay(n, h), h[|h| - 1].pos, Empty) == Replay(n, h[..|h| - 1])
  {
    var h' := h[..|h| - 1];
    forall k | 0 <= k < |h'|
      ensures At(Replay(n, h'[..k]), h'[k].pos) == Empty
    {
      assert h'[..k] == h[..k];
    }
    assert At(Replay(n, h[..|h| - 1]), h[|h| - 1].pos) == Empty;
    PlaceThenClear(Replay(n, h'), h[|h| - 1].pos, Mark(h[|h| - 1].player));
  }

  /** When every move went onto an empty cell, each player has as many
      pieces on the replayed board as entries in the history. */
  lemma {:induction false} ReplayCounts(n: nat, h: seq<Move>, p: Player)
    requires MovesInBounds(h, n) && PlacedOnEmpty(n, h)
    ensures CountBoard(Replay(n, h), Mark(p)) == CountMoves(h, p)
    decreases |h|
  {
    if |h| == 0 {
      NewBoardCounts(n, p);
    } else {
      var h' := h[..|h| - 1];
      var m := h[|h| - 1];
      forall k | 0 <= k < |h'|
        ensures At(Replay(n, h'[..k]), h'[k].pos) == Empty
      {
        assert h'[..k] == h[..k];
      }
      ReplayCounts(n, h', p);
      assert h[..|h| - 1] == h';
      CountAfterPlace(Replay(n, h'), m.pos, m.player, Mark(p));
    }
  }

  /** `h'` extends `h` with moves of `p` only. */
  predicate ExtendsWith(h: seq<Move>, h': seq<Move>, p: Player)
  {
    |h| <= |h'| && h'[..|h|] == h && forall k :: |h| <= k < |h'| ==> h'[k].player == p
  }

  lemma ExtendsWithTrans(h1: seq<Move>, h2: seq<Move>, h3: seq<Move>, p: Player)
    requires ExtendsWith(h1, h2, p) && ExtendsWith(h2, h3, p)
    ensures ExtendsWith(h1, h3, p)
  {
    assert h3[..|h1|] == h3[..|h2|][..|h1|];
    forall k | |h1| <= k < |h3|
      ensures h3[k].player == p
    {
      if k < |h2| {
        assert h3[k] == h3[..|h2|][k];
      }
    }
  }
}
