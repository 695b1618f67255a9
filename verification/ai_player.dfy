/**
  The AI's move search (class `AIPlayer` of tic_tac_toe.py), as pure
  functions over an unchanging grid. The source explores by writing a
  mark into the shared grid and erasing it again; that discipline is
  modelled by the in-place methods of module InPlaceSearch, which are
  proved to compute exactly these functions and to leave the grid as
  they found it.

  Scores are taken from the AI's point of view: `10 - depth` when the
  AI has a line, `depth - 10` when its opponent has one, `0` for a full
  board with no line. The source starts its running best at
  float('-inf') or float('inf'); here `None` plays that part, since
  every child score is a finite integer and beats the sentinel.
 */
module AIPlayer {
  import opened Wrappers
  import opened Board
  import opened GameLogic

  /** Whose mark goes down at this ply: the AI on maximising plies, its opponent otherwise. */
  function Mover(ai: Player, isMax: bool): Player
  {
    if isMax then ai else Opponent(ai)
  }

  /**
    One step of `best = max(best, score)` (maximising) or
    `best = min(best, score)` (minimising); `None` is the infinite
    starting value.
   */
  function Fold(isMax: bool, best: Option<int>, s: int): (r: int)
    ensures r == s || (best.Some? && r == best.value)
    ensures isMax ==> r >= s && (best.Some? ==> r >= best.value)
    ensures !isMax ==> r <= s && (best.Some? ==> r <= best.value)
  {
    match best
    case None => s
    case Some(b) =>
      if isMax then (if b >= s then b else s)
      else (if b <= s then b else s)
  }

  /**
    `_minimax(board, depth, is_max)`. Terminal boards score from the AI's
    side; otherwise the value is the maximum (AI to move) or minimum
    (opponent to move) over all blank cells of the child's value one ply
    deeper. The recursion ends because every child has one blank cell
    fewer.

    The bounds: while depth plus blank cells stays within 10 the score
    lies in [depth - 10, 10 - depth], so in [-10, 10] for every call the
    search makes; and within 9, only a line of the AI's already on the
    board reaches 10 - depth, and only a line of the opponent's reaches
    depth - 10.
   */
  function Minimax(g: Grid, ai: Player, depth: nat, isMax: bool): (r: int)
    decreases EmptyCount(g), 1, 0
    ensures CheckWinner(g) == Some(ai) ==> r == 10 - depth
    ensures CheckWinner(g) == Some(Opponent(ai)) ==> r == depth - 10
    ensures CheckWinner(g).None? && IsFull(g) ==> r == 0
    ensures depth + EmptyCount(g) <= 10 ==> depth - 10 <= r <= 10 - depth
    ensures depth + EmptyCount(g) <= 9 && CheckWinner(g) != Some(ai) ==> r <= 9 - depth
    ensures depth + EmptyCount(g) <= 9 && CheckWinner(g) != Some(Opponent(ai)) ==> depth - 9 <= r
  {
    match CheckWinner(g)
    case Some(w) => if w == ai then 10 - depth else depth - 10
    case None =>
      if IsFull(g) then 0
      else
        var r := Scan(g, ai, depth, isMax, 0, None);
        assert r.Some?;
        r.value
  }

  /** The value of the child reached by marking blank cell `k` for the side to move. */
  function Child(g: Grid, ai: Player, depth: nat, isMax: bool, k: nat): (r: int)
    requires k < 9 && g[k] == Empty
    decreases EmptyCount(g), 0, 0
    ensures depth + EmptyCount(g) <= 10 ==> depth - 9 <= r <= 9 - depth
  {
    Minimax(Place(g, k, Mover(ai, isMax)), ai, depth + 1, !isMax)
  }

  /**
    The source's double loop over (i, j) in row-major order from cell `k`
    on, folding each blank cell's child value into `best`.
   */
  function Scan(g: Grid, ai: Player, depth: nat, isMax: bool, k: nat, best: Option<int>): (r: Option<int>)
    requires k <= 9
    decreases EmptyCount(g), 0, 9 - k
    ensures best.Some? || (exists j :: k <= j < 9 && g[j] == Empty) ==> r.Some?
    ensures r.Some? && depth + EmptyCount(g) <= 10 && (best.Some? ==> depth - 9 <= best.value <= 9 - depth)
            ==> depth - 9 <= r.value <= 9 - depth
  {
    if k == 9 then best
    else if g[k] == Empty then
      Scan(g, ai, depth, isMax, k + 1, Some(Fold(isMax, best, Child(g, ai, depth, isMax, k))))
    else Scan(g, ai, depth, isMax, k + 1, best)
  }

  /**
    The fold computes the extremum: its result is the starting value or
    some blank cell's child value, and it is at least (maximising) or at
    most (minimising) the starting value and every such child value.
   */
  lemma {:induction false} ScanIsExtremum(g: Grid, ai: Player, depth: nat, isMax: bool, k: nat, best: Option<int>)
    requires k <= 9
    decreases 9 - k
    ensures var r := Scan(g, ai, depth, isMax, k, best);
      r.Some? ==>
        && ((best.Some? && r.value == best.value) ||
            exists j :: k <= j < 9 && g[j] == Empty && r.value == Child(g, ai, depth, isMax, j))
        && (best.Some? ==> if isMax then best.value <= r.value else r.value <= best.value)
        && (forall j :: k <= j < 9 && g[j] == Empty ==>
              if isMax then Child(g, ai, depth, isMax, j) <= r.value
              else r.value <= Child(g, ai, depth, isMax, j))
  {
    if k < 9 {
      if g[k] == Empty {
        var s := Child(g, ai, depth, isMax, k);
        ScanIsExtremum(g, ai, depth, isMax, k + 1, Some(Fold(isMax, best, s)));
      } else {
        ScanIsExtremum(g, ai, depth, isMax, k + 1, best);
      }
    }
  }

  /**
    Reference definition of a non-terminal value: it is the value of
    some child, and the largest (AI to move) or smallest (opponent to
    move) of all of them.
   */
  lemma MinimaxIsExtremumOfChildren(g: Grid, ai: Player, depth: nat, isMax: bool)
    requires CheckWinner(g).None? && !IsFull(g)
    ensures exists k :: 0 <= k < 9 && g[k] == Empty && Minimax(g, ai, depth, isMax) == Child(g, ai, depth, isMax, k)
    ensures forall k :: 0 <= k < 9 && g[k] == Empty ==>
      if isMax then Child(g, ai, depth, isMax, k) <= Minimax(g, ai, depth, isMax)
      else Minimax(g, ai, depth, isMax) <= Child(g, ai, depth, isMax, k)
  {
    ScanIsExtremum(g, ai, depth, isMax, 0, None);
  }

  /**
    The score `get_move` gives to putting the AI's mark on blank cell `k`:
    the opponent moves next, at depth 0. It is 10 exactly when
    `CheckWinner` of the board with that mark answers the AI, and
    otherwise at most 9.
   */
  function MoveScore(g: Grid, ai: Player, k: nat): (r: int)
    requires k < 9 && g[k] == Empty
    ensures -10 <= r <= 10
    ensures r == 10 <==> CheckWinner(Place(g, k, ai)) == Some(ai)
  {
    Minimax(Place(g, k, ai), ai, 0, false)
  }

  /**
    `best` describes the first blank cells before `k` the way the source's
    `best_score` / `best_move` do: nothing yet if no cell before `k` is
    blank, else a blank cell with the highest score so far, and the first
    such cell in row-major order.
   */
  predicate Summarises(g: Grid, ai: Player, k: nat, best: Option<(int, nat)>)
    requires k <= 9
  {
    match best
    case None => forall j :: 0 <= j < k ==> g[j] != Empty
    case Some((s, m)) =>
      && m < k && g[m] == Empty && s == MoveScore(g, ai, m)
      && (forall j :: 0 <= j < k && g[j] == Empty ==> MoveScore(g, ai, j) <= s)
      && (forall j :: 0 <= j < m && g[j] == Empty ==> MoveScore(g, ai, j) < s)
  }

  /**
    The loop of `get_move` from cell `k` on: each blank cell's score
    replaces the best only when it is strictly greater.
   */
  function Pick(g: Grid, ai: Player, k: nat, best: Option<(int, nat)>): (r: Option<(int, nat)>)
    requires k <= 9
    decreases 9 - k
    ensures r.None? <==> best.None? && forall j :: k <= j < 9 ==> g[j] != Empty
    ensures r.Some? ==> r == best || (k <= r.value.1 < 9 && g[r.value.1] == Empty)
  {
    if k == 9 then best
    else if g[k] == Empty then
      var s := MoveScore(g, ai, k);
      if best.None? || s > best.value.0 then Pick(g, ai, k + 1, Some((s, k)))
      else Pick(g, ai, k + 1, best)
    else Pick(g, ai, k + 1, best)
  }

  /** Each step of the loop keeps the summary true, so at the end it covers the whole board. */
  lemma {:induction false} PickSummarises(g: Grid, ai: Player, k: nat, best: Option<(int, nat)>)
    requires k <= 9 && Summarises(g, ai, k, best)
    decreases 9 - k
    ensures Summarises(g, ai, 9, Pick(g, ai, k, best))
  {
    if k < 9 {
      if g[k] == Empty {
        var s := MoveScore(g, ai, k);
        if best.None? || s > best.value.0 {
          PickSummarises(g, ai, k + 1, Some((s, k)));
        } else {
          PickSummarises(g, ai, k + 1, best);
        }
      } else {
        PickSummarises(g, ai, k + 1, best);
      }
    }
  }

  /**
    `get_move`: None on a full board; otherwise a blank cell (row, col)
    whose score is the highest on offer, the first such cell in row-major
    order, and a cell after which `CheckWinner` answers the AI whenever
    such a cell exists.
   */
  function GetMove(g: Grid, ai: Player): (m: Option<(int, int)>)
    ensures m.None? <==> IsFull(g)
    ensures m.Some? ==> IsValidMove(g, m.value.0, m.value.1)
    ensures m.Some? ==> var best := Index(m.value.0, m.value.1);
      && (forall k :: 0 <= k < 9 && g[k] == Empty ==> MoveScore(g, ai, k) <= MoveScore(g, ai, best))
      && (forall k :: 0 <= k < best && g[k] == Empty ==> MoveScore(g, ai, k) < MoveScore(g, ai, best))
    ensures m.Some? && (exists k :: 0 <= k < 9 && g[k] == Empty && CheckWinner(Place(g, k, ai)) == Some(ai))
            ==> CheckWinner(Place(g, Index(m.value.0, m.value.1), ai)) == Some(ai)
  {
    PickSummarises(g, ai, 0, None);
    match Pick(g, ai, 0, None)
    case None => None
    case Some((_, k)) =>
      RowColOf(k);
      Some((k / 3, k % 3))
  }
}
