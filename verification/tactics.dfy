/**
  What the exhaustive search guarantees on particular kinds of position:
  on a board with no line yet it completes a line of its own when it
  can; when nobody has a line, the AI cannot win at once and the
  opponent threatens to win at exactly one cell, it plays that cell;
  and with X on (0,0) and (0,1) and O on (1,0) and (1,1), X takes (0,2).
 */
module Tactics {
  import opened Wrappers
  import opened Board
  import opened GameLogic
  import opened AIPlayer

  /** A position where nobody has a line yet and the AI cannot win at once. */
  predicate Quiet(g: Grid, ai: Player)
  {
    && CheckWinner(g).None?
    && forall k :: 0 <= k < 9 && g[k] == Empty ==> CheckWinner(Place(g, k, ai)) != Some(ai)
  }

  /** `b` is the one blank cell where the opponent would complete a line. */
  predicate OnlyThreat(g: Grid, ai: Player, b: nat)
  {
    && b < 9 && g[b] == Empty
    && CheckWinner(Place(g, b, Opponent(ai))) == Some(Opponent(ai))
    && forall k :: 0 <= k < 9 && g[k] == Empty && k != b ==>
         CheckWinner(Place(g, k, Opponent(ai))) != Some(Opponent(ai))
  }

  /**
    On a board with no complete line, a mark on blank cell `k` makes its
    player the winner exactly when it completes a line through `k`.
   */
  lemma WinningMarkCompletesLineThroughIt(g: Grid, k: nat, p: Player)
    requires CheckWinner(g).None? && k < 9 && g[k] == Empty
    ensures CheckWinner(Place(g, k, p)) == Some(p) <==>
      exists i :: 0 <= i < 8 && OnLine(i, k) && Owner(Place(g, k, p), i) == Some(p)
  {
    var h := Place(g, k, p);
    CheckWinnerIsFirstComplete(g);
    CheckWinnerIsFirstComplete(h);
    forall i | 0 <= i < 8 ensures (!OnLine(i, k) ==> Owner(h, i).None?) && Owner(h, i) != Some(Opponent(p)) {
      OwnerAfterPlace(g, k, p, i);
    }
    if i :| 0 <= i < 8 && OnLine(i, k) && Owner(h, i) == Some(p) {
      SoleOwnerWins(h, p, i);
    }
  }

  /**
    On a board with no complete line, if some blank cell would complete a
    line of the AI's, the search plays a cell that completes a line of
    the AI's through it.
   */
  lemma GetMoveCompletesLineWhenItCan(g: Grid, ai: Player, k: nat)
    requires CheckWinner(g).None? && k < 9 && g[k] == Empty
    requires exists i :: 0 <= i < 8 && OnLine(i, k) && Owner(Place(g, k, ai), i) == Some(ai)
    ensures GetMove(g, ai).Some?
    ensures var m := GetMove(g, ai).value;
      0 <= m.0 < 3 && 0 <= m.1 < 3 && g[Index(m.0, m.1)] == Empty &&
      exists i :: 0 <= i < 8 && OnLine(i, Index(m.0, m.1)) && Owner(Place(g, Index(m.0, m.1), ai), i) == Some(ai)
  {
    WinningMarkCompletesLineThroughIt(g, k, ai);
    var m := GetMove(g, ai).value;
    WinningMarkCompletesLineThroughIt(g, Index(m.0, m.1), ai);
  }

  /** When nobody has a line and the AI's mark on `k` does not win, that mark leaves no line complete. */
  lemma QuietMoveHasNoWinner(g: Grid, ai: Player, k: nat)
    requires CheckWinner(g).None? && k < 9 && g[k] == Empty
    requires CheckWinner(Place(g, k, ai)) != Some(ai)
    ensures forall i :: 0 <= i < 8 ==> Owner(Place(g, k, ai), i).None?
  {
    var n := Place(g, k, ai);
    CheckWinnerIsFirstComplete(g);
    forall i | 0 <= i < 8 ensures Owner(n, i) != Some(Opponent(ai)) {
      OwnerAfterPlace(g, k, ai, i);
    }
    if i :| 0 <= i < 8 && Owner(n, i) == Some(ai) {
      SoleOwnerWins(n, ai, i);
    }
  }

  /**
    After the AI takes `b`, the opponent's mark on another blank cell `k`
    completes no line for it, unless that mark alone would already have
    won on the original board.
   */
  lemma ReplyAfterBlock(g: Grid, ai: Player, b: nat, k: nat)
    requires CheckWinner(g).None?
    requires b < 9 && k < 9 && b != k && g[b] == Empty && g[k] == Empty
    requires CheckWinner(Place(g, k, Opponent(ai))) != Some(Opponent(ai))
    ensures CheckWinner(Place(Place(g, b, ai), k, Opponent(ai))) != Some(Opponent(ai))
  {
    var opp := Opponent(ai);
    var reply := Place(Place(g, b, ai), k, opp);
    var threat := Place(g, k, opp);
    CheckWinnerIsFirstComplete(g);
    CheckWinnerIsFirstComplete(reply);
    if CheckWinner(reply) == Some(opp) {
      var i :| 0 <= i < 8 && Owner(reply, i) == Some(opp);
      assert reply[b] == Mark(ai);
      assert !OnLine(i, b);
      assert forall j :: 0 <= j < 9 && j != b ==> reply[j] == threat[j];
      OwnerOffLine(reply, threat, i);
      forall i' | 0 <= i' < 8 ensures Owner(threat, i') != Some(ai) {
        OwnerAfterPlace(g, k, opp, i');
      }
      SoleOwnerWins(threat, opp, i);
    }
  }

  /** Blocking: after the AI takes `b`, the opponent cannot win on the next ply, so the score is at least -8. */
  lemma BlockScore(g: Grid, ai: Player, b: nat)
    requires Quiet(g, ai) && OnlyThreat(g, ai, b)
    ensures MoveScore(g, ai, b) >= -8
  {
    var opp := Opponent(ai);
    var blocked := Place(g, b, ai);
    QuietMoveHasNoWinner(g, ai, b);
    CheckWinnerIsFirstComplete(blocked);
    if !IsFull(blocked) {
      MinimaxIsExtremumOfChildren(blocked, ai, 0, false);
      var k :| 0 <= k < 9 && blocked[k] == Empty &&
               Minimax(blocked, ai, 0, false) == Child(blocked, ai, 0, false, k);
      ReplyAfterBlock(g, ai, b, k);
    }
  }

  /**
    If the AI plays blank cell `k` instead of `b`, and the opponent's mark
    on `b` completes a line, that line is still there after both marks,
    and the AI's mark on `k` completes none.
   */
  lemma ThreatSurvivesElsewhere(g: Grid, ai: Player, b: nat, k: nat)
    requires b < 9 && k < 9 && b != k && g[b] == Empty && g[k] == Empty
    requires CheckWinner(Place(g, b, Opponent(ai))) == Some(Opponent(ai))
    requires forall i :: 0 <= i < 8 ==> Owner(Place(g, k, ai), i).None?
    ensures CheckWinner(Place(Place(g, k, ai), b, Opponent(ai))) == Some(Opponent(ai))
  {
    var opp := Opponent(ai);
    var elsewhere := Place(g, k, ai);
    var punished := Place(elsewhere, b, opp);
    var threat := Place(g, b, opp);
    CheckWinnerIsFirstComplete(threat);
    var i0 :| 0 <= i0 < 8 && Owner(threat, i0) == Some(opp);
    assert threat[k] == Empty;
    assert !OnLine(i0, k);
    assert forall j :: 0 <= j < 9 && j != k ==> punished[j] == threat[j];
    OwnerOffLine(punished, threat, i0);
    forall i | 0 <= i < 8 ensures Owner(punished, i) != Some(ai) {
      assert punished[b] == Mark(opp);
      if !OnLine(i, b) {
        assert forall j :: 0 <= j < 9 && j != b ==> punished[j] == elsewhere[j];
        OwnerOffLine(punished, elsewhere, i);
      }
    }
    SoleOwnerWins(punished, opp, i0);
  }

  /** Not blocking: the opponent then completes its line at `b` one ply later, so the score is at most -9. */
  lemma NonBlockScore(g: Grid, ai: Player, b: nat, k: nat)
    requires Quiet(g, ai) && OnlyThreat(g, ai, b)
    requires k < 9 && g[k] == Empty && k != b
    ensures MoveScore(g, ai, k) <= -9
  {
    var elsewhere := Place(g, k, ai);
    QuietMoveHasNoWinner(g, ai, k);
    CheckWinnerIsFirstComplete(elsewhere);
    assert elsewhere[b] == Empty;
    MinimaxIsExtremumOfChildren(elsewhere, ai, 0, false);
    ThreatSurvivesElsewhere(g, ai, b, k);
    assert Child(elsewhere, ai, 0, false, b) == -9;
  }

  /**
    When nobody has a line, the AI cannot win at once and the opponent
    threatens to win at exactly one cell `b`, the search plays `b`.
   */
  lemma GetMoveBlocksOnlyThreat(g: Grid, ai: Player, b: nat)
    requires Quiet(g, ai) && OnlyThreat(g, ai, b)
    ensures GetMove(g, ai) == Some((b / 3, b % 3))
  {
    var m := GetMove(g, ai);
    assert m.Some?;
    var k := Index(m.value.0, m.value.1);
    BlockScore(g, ai, b);
    if k != b {
      NonBlockScore(g, ai, b, k);
      assert false;
    }
  }

  /** X on (0,0) and (0,1), O on (1,0) and (1,1): X to move takes (0,2). */
  lemma XCompletesOpenTopRow(g: Grid)
    requires g == [Mark(X), Mark(X), Empty, Mark(O), Mark(O), Empty, Empty, Empty, Empty]
    ensures GetMove(g, X) == Some((0, 2))
  {
    var win := Place(g, 2, X);
    assert Owner(win, 0) == Some(X);
    forall i | 0 <= i < 8 ensures Owner(win, i) != Some(O) {
      OwnerAfterPlace(g, 2, X, i);
    }
    SoleOwnerWins(win, X, 0);
  }
}
