/**
  The search as the source runs it: on one shared grid, writing a mark
  into a blank cell, recursing, and writing the blank back. Each method
  is proved to leave the grid exactly as it found it and to return what
  the functions of module AIPlayer compute.
 */
module InPlaceSearch {
  import opened Wrappers
  import opened Board
  import opened GameLogic
  import opened AIPlayer

  /** `_minimax` over the shared grid `a` (nine cells, row-major). */
  method MinimaxInPlace(a: array<Cell>, ai: Player, depth: nat, isMax: bool) returns (score: int)
    requires a.Length == 9
    modifies a
    decreases EmptyCount(a[..])
    ensures a[..] == old(a[..])
    ensures score == Minimax(old(a[..]), ai, depth, isMax)
  {
    var g: Grid := a[..];
    var winner := CheckWinner(g);
    if winner == Some(ai) {
      return 10 - depth;
    } else if winner.Some? {
      return depth - 10;
    } else if IsFull(g) {
      return 0;
    }
    var mover := Mover(ai, isMax);
    var best: Option<int> := None;
    var i := 0;
    while i < 3
      invariant 0 <= i <= 3
      invariant a[..] == g
      invariant Scan(g, ai, depth, isMax, 0, None) == Scan(g, ai, depth, isMax, 3 * i, best)
    {
      var j := 0;
      while j < 3
        invariant 0 <= j <= 3
        invariant a[..] == g
        invariant Scan(g, ai, depth, isMax, 0, None) == Scan(g, ai, depth, isMax, 3 * i + j, best)
      {
        var k := 3 * i + j;
        if a[k] == Empty {
          a[k] := Mark(mover);
          assert a[..] == Place(g, k, mover);
          var s := MinimaxInPlace(a, ai, depth + 1, !isMax);
          a[k] := Empty;
          assert a[..] == g;
          best := Some(Fold(isMax, best, s));
        }
        j := j + 1;
      }
      i := i + 1;
    }
    score := best.value;
  }

  /** `get_move` over the shared grid `a`: the move of AIPlayer.GetMove, grid unchanged. */
  method GetMoveInPlace(a: array<Cell>, ai: Player) returns (move: Option<(int, int)>)
    requires a.Length == 9
    modifies a
    ensures a[..] == old(a[..])
    ensures move == GetMove(old(a[..]), ai)
  {
    var g: Grid := a[..];
    var best: Option<(int, nat)> := None;
    var i := 0;
    while i < 3
      invariant 0 <= i <= 3
      invariant a[..] == g
      invariant Pick(g, ai, 0, None) == Pick(g, ai, 3 * i, best)
    {
      var j := 0;
      while j < 3
        invariant 0 <= j <= 3
        invariant a[..] == g
        invariant Pick(g, ai, 0, None) == Pick(g, ai, 3 * i + j, best)
      {
        var k := 3 * i + j;
        if a[k] == Empty {
          a[k] := Mark(ai);
          assert a[..] == Place(g, k, ai);
          var score := MinimaxInPlace(a, ai, 0, false);
          a[k] := Empty;
          assert a[..] == g;
          if best.None? || score > best.value.0 {
            best := Some((score, k));
          }
        }
        j := j + 1;
      }
      i := i + 1;
    }
    match best
    case None => move := None;
    case Some((_, k)) => move := Some((k / 3, k % 3));
  }
}
