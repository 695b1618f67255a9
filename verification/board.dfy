/**
  The 3x3 grid and its operations (class `Board` of tic_tac_toe.py).

  The source keeps the grid as a list of three rows; here it is one
  sequence of nine cells in row-major order, so that cell (row, col)
  lives at index 3 * row + col.
 */
module Board {

  /** The two symbols a player can put on the board, 'X' and 'O'. */
  datatype Player = X | O

  /** A cell is either blank (the source's ' ') or carries a player's mark. */
  datatype Cell = Empty | Mark(player: Player)

  /** A board is exactly nine cells, row-major. */
  type Grid = g: seq<Cell> | |g| == 9 witness seq(9, _ => Empty)

  /** The symbol of the other player. */
  function Opponent(p: Player): (q: Player)
    ensures q != p
  {
    if p == X then O else X
  }

  /** Position of (row, col) in the row-major sequence. */
  function Index(row: int, col: int): (k: nat)
    requires 0 <= row < 3 && 0 <= col < 3
    ensures k < 9 && k / 3 == row && k % 3 == col
  {
    3 * row + col
  }

  /** Number of blank cells in a sequence of cells. */
  function EmptyCount(s: seq<Cell>): (n: nat)
    ensures n <= |s|
  {
    if |s| == 0 then 0
    else (if s[0] == Empty then 1 else 0) + EmptyCount(s[1..])
  }

  /** No blank cell is left anywhere in the sequence exactly when the count is zero. */
  lemma {:induction false} EmptyCountZero(s: seq<Cell>)
    ensures EmptyCount(s) == 0 <==> forall k :: 0 <= k < |s| ==> s[k] != Empty
  {
    if |s| > 0 {
      EmptyCountZero(s[1..]);
      assert forall k :: 1 <= k < |s| ==> s[k] == s[1..][k - 1];
    }
  }

  /** Every cell is blank exactly when the count equals the length. */
  lemma {:induction false} EmptyCountAll(s: seq<Cell>)
    ensures EmptyCount(s) == |s| <==> forall k :: 0 <= k < |s| ==> s[k] == Empty
  {
    if |s| > 0 {
      EmptyCountAll(s[1..]);
      assert forall k :: 1 <= k < |s| ==> s[k] == s[1..][k - 1];
    }
  }

  /** Marking one blank cell removes exactly one blank cell. */
  lemma {:induction false} EmptyCountMark(s: seq<Cell>, k: nat, p: Player)
    requires k < |s| && s[k] == Empty
    ensures EmptyCount(s[k := Mark(p)]) == EmptyCount(s) - 1
  {
    if k > 0 {
      assert s[k := Mark(p)][1..] == s[1..][k - 1 := Mark(p)];
      EmptyCountMark(s[1..], k - 1, p);
    } else {
      assert s[k := Mark(p)][1..] == s[1..];
    }
  }

  /**
    `is_valid_move`: the coordinates are on the board and the cell is
    blank. The range test comes first, so out-of-range coordinates are
    rejected without reading the grid.
   */
  predicate IsValidMove(g: Grid, row: int, col: int)
  {
    0 <= row < 3 && 0 <= col < 3 && g[Index(row, col)] == Empty
  }

  /** Row and column of a row-major position, and back. */
  lemma RowColOf(k: nat)
    requires k < 9
    ensures 0 <= k / 3 < 3 && 0 <= k % 3 < 3 && Index(k / 3, k % 3) == k
  {
    assert k == 0 || k == 1 || k == 2 || k == 3 || k == 4 || k == 5 || k == 6 || k == 7 || k == 8;
  }

  /** A valid move exists exactly when some cell is blank, i.e. the board is not full. */
  lemma ValidMoveExistsIffNotFull(g: Grid)
    ensures (exists row, col :: IsValidMove(g, row, col)) <==> !IsFull(g)
    ensures forall k :: 0 <= k < 9 ==> (IsValidMove(g, k / 3, k % 3) <==> g[k] == Empty)
    ensures forall row, col :: !(0 <= row < 3 && 0 <= col < 3) ==> !IsValidMove(g, row, col)
  {
    forall k | 0 <= k < 9
      ensures IsValidMove(g, k / 3, k % 3) <==> g[k] == Empty
    {
      RowColOf(k);
    }
    if !IsFull(g) {
      var k :| 0 <= k < 9 && g[k] == Empty;
      assert IsValidMove(g, k / 3, k % 3);
    }
  }

  /**
    Writes `p` into blank cell `k`; the single cell update the source
    performs in `make_move` and in the search.
   */
  function Place(g: Grid, k: nat, p: Player): (r: Grid)
    requires k < 9 && g[k] == Empty
    ensures r[k] == Mark(p)
    ensures forall j :: 0 <= j < 9 && j != k ==> r[j] == g[j]
    ensures EmptyCount(r) == EmptyCount(g) - 1
  {
    EmptyCountMark(g, k, p);
    g[k := Mark(p)]
  }

  /**
    `make_move`: on a valid (row, col) the result is true and the grid
    has `symbol` in that cell and nothing else changed; otherwise the
    result is false and the grid is returned untouched.
   */
  function MakeMove(g: Grid, row: int, col: int, symbol: Player): (r: (bool, Grid))
    ensures r.0 <==> IsValidMove(g, row, col)
    ensures r.0 ==> r.1[Index(row, col)] == Mark(symbol)
    ensures r.0 ==> forall j :: 0 <= j < 9 && j != Index(row, col) ==> r.1[j] == g[j]
    ensures r.0 ==> EmptyCount(r.1) == EmptyCount(g) - 1
    ensures !r.0 ==> r.1 == g
  {
    if IsValidMove(g, row, col) then (true, Place(g, Index(row, col), symbol))
    else (false, g)
  }

  /** `is_full`: no cell is blank. */
  predicate IsFull(g: Grid)
  {
    forall k :: 0 <= k < 9 ==> g[k] != Empty
  }

  /** The board is full exactly when it has no blank cell left to count. */
  lemma IsFullIffNoEmpty(g: Grid)
    ensures IsFull(g) <==> EmptyCount(g) == 0
  {
    EmptyCountZero(g);
  }

  /** `reset` (and `__init__`): every cell blank again, whatever the board held. */
  function Reset(g: Grid): (r: Grid)
    ensures forall k :: 0 <= k < 9 ==> r[k] == Empty
    ensures EmptyCount(r) == 9 && !IsFull(r)
  {
    var r: Grid := seq(9, _ => Empty);
    EmptyCountAll(r);
    assert r[0] == Empty;
    r
  }

  /** The scenario "place (1,1) X, then (1,1) O": the second call fails and the X stays. */
  lemma SecondMoveOnSameCellFails()
    ensures var (ok1, g1) := MakeMove(Reset(seq(9, _ => Empty)), 1, 1, X);
            var (ok2, g2) := MakeMove(g1, 1, 1, O);
            ok1 && !ok2 && g2 == g1 && g2[Index(1, 1)] == Mark(X)
  {
  }
}
