/**
  Outcome evaluation (class `GameLogic` of tic_tac_toe.py): who has
  three in a row, and whether the game is over.
 */
module GameLogic {
  import opened Wrappers
  import opened Board

  /**
    The eight winning lines, numbered in the order the source tests them:
    rows 0-2 (lines 0-2), columns 0-2 (lines 3-5), the main diagonal
    (line 6) and the anti-diagonal (line 7).
   */
  function LineAt(i: nat): (line: (nat, nat, nat))
    requires i < 8
    ensures line.0 < 9 && line.1 < 9 && line.2 < 9
  {
    match i
    case 0 => (0, 1, 2)
    case 1 => (3, 4, 5)
    case 2 => (6, 7, 8)
    case 3 => (0, 3, 6)
    case 4 => (1, 4, 7)
    case 5 => (2, 5, 8)
    case 6 => (0, 4, 8)
    case _ => (2, 4, 6)
  }

  /** Cell `k` is one of the three cells of line `i`. */
  predicate OnLine(i: nat, k: nat)
    requires i < 8
  {
    var (a, b, c) := LineAt(i);
    k == a || k == b || k == c
  }

  /**
    The owner of line `i`: the source's test `a == b == c != ' '`,
    answering the symbol in the line when it holds.
   */
  function Owner(g: Grid, i: nat): (w: Option<Player>)
    requires i < 8
    ensures w.Some? ==> g[LineAt(i).0] == Mark(w.value) && g[LineAt(i).1] == Mark(w.value)
                        && g[LineAt(i).2] == Mark(w.value)
    ensures w.None? ==> g[LineAt(i).0] == Empty || g[LineAt(i).0] != g[LineAt(i).1]
                        || g[LineAt(i).1] != g[LineAt(i).2]
  {
    var (a, b, c) := LineAt(i);
    if g[a] == g[b] && g[b] == g[c] && g[c] != Empty then Some(g[a].player) else None
  }

  /** A line's owner depends only on its own three cells. */
  lemma OwnerOffLine(g: Grid, h: Grid, i: nat)
    requires i < 8
    requires forall k :: 0 <= k < 9 && OnLine(i, k) ==> g[k] == h[k]
    ensures Owner(g, i) == Owner(h, i)
  {
    var (a, b, c) := LineAt(i);
    assert OnLine(i, a) && OnLine(i, b) && OnLine(i, c);
  }

  /**
    The scan of lines `i` to 7 in order: the owner of the first complete
    line, if any.
   */
  function FirstOwner(g: Grid, i: nat): Option<Player>
    requires i <= 8
    decreases 8 - i
  {
    if i == 8 then None
    else if Owner(g, i).Some? then Owner(g, i)
    else FirstOwner(g, i + 1)
  }

  /** The scan answers the owner of the first complete line from `i` on, and None only when there is none. */
  lemma {:induction false} FirstOwnerIsFirstComplete(g: Grid, i: nat)
    requires i <= 8
    decreases 8 - i
    ensures var w := FirstOwner(g, i);
      && (w.Some? ==> exists j :: i <= j < 8 && Owner(g, j) == w &&
                                 forall j' :: i <= j' < j ==> Owner(g, j').None?)
      && (w.None? <==> forall j :: i <= j < 8 ==> Owner(g, j).None?)
  {
    if i < 8 && Owner(g, i).None? {
      FirstOwnerIsFirstComplete(g, i + 1);
    }
  }

  /**
    `check_winner`: the symbol of the first complete line in the order
    rows, columns, main diagonal, anti-diagonal; None when no line of
    the eight is complete.
   */
  function CheckWinner(g: Grid): Option<Player>
  {
    FirstOwner(g, 0)
  }

  /** The winner owns a line and no earlier line is complete; there is no winner exactly when no line is complete. */
  lemma CheckWinnerIsFirstComplete(g: Grid)
    ensures var w := CheckWinner(g);
      && (w.Some? ==> exists i :: 0 <= i < 8 && Owner(g, i) == w &&
                                 forall j :: 0 <= j < i ==> Owner(g, j).None?)
      && (w.None? <==> forall i :: 0 <= i < 8 ==> Owner(g, i).None?)
  {
    FirstOwnerIsFirstComplete(g, 0);
  }

  /** When only `p` owns lines, and at least one, `p` is the winner. */
  lemma SoleOwnerWins(g: Grid, p: Player, i: nat)
    requires i < 8 && Owner(g, i) == Some(p)
    requires forall j :: 0 <= j < 8 ==> Owner(g, j) != Some(Opponent(p))
    ensures CheckWinner(g) == Some(p)
  {
    CheckWinnerIsFirstComplete(g);
    var w := CheckWinner(g);
    assert w.Some?;
    var j :| 0 <= j < 8 && Owner(g, j) == w;
    assert w != Some(Opponent(p));
    assert w.value == p;
  }

  /**
    Marking blank cell `k` for `p` changes nothing about lines that miss
    `k`; a line through `k` had no owner before and cannot belong to the
    other player after.
   */
  lemma OwnerAfterPlace(g: Grid, k: nat, p: Player, i: nat)
    requires k < 9 && g[k] == Empty && i < 8
    ensures !OnLine(i, k) ==> Owner(Place(g, k, p), i) == Owner(g, i)
    ensures OnLine(i, k) ==> Owner(g, i).None? && Owner(Place(g, k, p), i) != Some(Opponent(p))
  {
    var h := Place(g, k, p);
    if !OnLine(i, k) {
      OwnerOffLine(g, h, i);
    }
  }

  /** What `is_game_over` can report once the game has ended. */
  datatype Verdict = Won(winner: Player) | Draw

  /**
    `is_game_over`: a winner is reported first, even on a full board;
    otherwise a full board is a draw; otherwise the game goes on.
   */
  function IsGameOver(g: Grid): (r: (bool, Option<Verdict>))
    ensures r.0 <==> r.1.Some?
    ensures r.0 <==> (exists i :: 0 <= i < 8 && Owner(g, i).Some?) || EmptyCount(g) == 0
    ensures forall p :: r.1 == Some(Won(p)) <==> CheckWinner(g) == Some(p)
    ensures r.1 == Some(Draw) <==> (forall i :: 0 <= i < 8 ==> Owner(g, i).None?) && IsFull(g)
  {
    IsFullIffNoEmpty(g);
    CheckWinnerIsFirstComplete(g);
    var winner := CheckWinner(g);
    if winner.Some? then (true, Some(Won(winner.value)))
    else if IsFull(g) then (true, Some(Draw))
    else (false, None)
  }

  /** X across the top row, the rest blank: X is the winner. */
  lemma TopRowOfXWins()
    ensures CheckWinner([Mark(X), Mark(X), Mark(X), Empty, Empty, Empty, Empty, Empty, Empty]) == Some(X)
  {
    var g: Grid := [Mark(X), Mark(X), Mark(X), Empty, Empty, Empty, Empty, Empty, Empty];
    assert Owner(g, 0) == Some(X);
    SoleOwnerWins(g, X, 0);
  }

  /** The full board X O X / O X O / O X O: no line complete, so a draw. */
  lemma FullBoardWithoutLineIsDraw()
    ensures var g: Grid := [Mark(X), Mark(O), Mark(X), Mark(O), Mark(X), Mark(O), Mark(O), Mark(X), Mark(O)];
            CheckWinner(g) == None && IsGameOver(g) == (true, Some(Draw))
  {
    var g: Grid := [Mark(X), Mark(O), Mark(X), Mark(O), Mark(X), Mark(O), Mark(O), Mark(X), Mark(O)];
    assert forall i :: 0 <= i < 8 ==> Owner(g, i).None? by {
      assert Owner(g, 0).None? && Owner(g, 1).None? && Owner(g, 2).None? && Owner(g, 3).None?;
      assert Owner(g, 4).None? && Owner(g, 5).None? && Owner(g, 6).None? && Owner(g, 7).None?;
    }
  }

  /** A fresh or reset board has no winner and the game is not over. */
  lemma ResetBoardIsOngoing(g: Grid)
    ensures CheckWinner(Reset(g)) == None && IsGameOver(Reset(g)) == (false, None)
  {
    var r := Reset(g);
    assert forall i :: 0 <= i < 8 ==> Owner(r, i).None? by {
      forall i | 0 <= i < 8 ensures Owner(r, i).None? {
        assert r[LineAt(i).0] == Empty;
      }
    }
  }
}
