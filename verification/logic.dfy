/**
 * The minimal board engine the decision code relies on: a 9-cell board,
 * the list of empty cells, the winner over the 8 lines, the "free cell"
 * test and placing a mark. Index i is row i / 3, column i % 3.
 */
module Logic {

  /** The content of one cell: `" "`, `"X"` or `"O"`. */
  datatype Cell = Blank | X | O

  /** A player's mark. */
  type Mark = c: Cell | c != Blank witness X

  /** A board is always exactly 9 cells long. */
  type Board = b: seq<Cell> | |b| == 9 witness [Blank, Blank, Blank, Blank, Blank, Blank, Blank, Blank, Blank]

  const EmptyBoard: Board := [Blank, Blank, Blank, Blank, Blank, Blank, Blank, Blank, Blank]

  /** The 8 winning lines: 3 rows, 3 columns, 2 diagonals, in that order. */
  const Lines: seq<(int, int, int)> :=
    [(0, 1, 2), (3, 4, 5), (6, 7, 8),
     (0, 3, 6), (1, 4, 7), (2, 5, 8),
     (0, 4, 8), (2, 4, 6)]

  /** Every index in `ms` is a cell of `b` that holds no mark. */
  predicate AllBlank(b: Board, ms: seq<int>) {
    forall j :: 0 <= j < |ms| ==> 0 <= ms[j] < 9 && b[ms[j]] == Blank
  }

  /** Strictly increasing, hence also free of duplicates. */
  predicate Increasing(s: seq<int>) {
    forall j, k :: 0 <= j < k < |s| ==> s[j] < s[k]
  }

  /** The empty cells with index at least `i`, in ascending order. */
  function EmptyFrom(b: Board, i: nat): seq<int>
    requires i <= 9
    decreases 9 - i
  {
    if i == 9 then []
    else if b[i] == Blank then [i] + EmptyFrom(b, i + 1)
    else EmptyFrom(b, i + 1)
  }

  lemma {:induction false} EmptyFromFacts(b: Board, i: nat)
    requires i <= 9
    ensures forall m :: m in EmptyFrom(b, i) <==> i <= m < 9 && b[m] == Blank
    ensures Increasing(EmptyFrom(b, i))
    ensures |EmptyFrom(b, i)| <= 9 - i
    decreases 9 - i
  {
    if i < 9 {
      EmptyFromFacts(b, i + 1);
      var rest := EmptyFrom(b, i + 1);
      assert forall j :: 0 <= j < |rest| ==> rest[j] in rest;
    }
  }

  /** `obtener_movimientos_posibles`: the empty cells in ascending index order. */
  function EmptyCells(b: Board): seq<int> {
    EmptyFrom(b, 0)
  }

  /** Exactly the empty cells are listed, each once, in ascending order. */
  lemma EmptyCellsFacts(b: Board)
    ensures forall m :: m in EmptyCells(b) <==> 0 <= m < 9 && b[m] == Blank
    ensures Increasing(EmptyCells(b))
    ensures AllBlank(b, EmptyCells(b))
    ensures |EmptyCells(b)| <= 9
  {
    EmptyFromFacts(b, 0);
    var r := EmptyCells(b);
    assert forall j :: 0 <= j < |r| ==> r[j] in r;
  }

  /** The number of empty cells: the measure every search decreases. */
  function NumEmpty(b: Board): nat {
    |EmptyCells(b)|
  }

  /** `existe_espacio_libre`: some cell is still `" "`. */
  predicate HasFree(b: Board) {
    exists i :: 0 <= i < 9 && b[i] == Blank
  }

  lemma HasFreeIffEmptyCells(b: Board)
    ensures HasFree(b) <==> NumEmpty(b) > 0
    ensures NumEmpty(b) <= 9
    ensures AllBlank(b, EmptyCells(b))
  {
    EmptyCellsFacts(b);
    if HasFree(b) {
      var i :| 0 <= i < 9 && b[i] == Blank;
      assert i in EmptyCells(b);
    }
  }

  /** Writes `c` into cell `i`, whatever was there. */
  function Place(b: Board, i: int, c: Cell): (r: Board)
    requires 0 <= i < 9
  {
    b[i := c]
  }

  /** Counting the empty cells of `b` from `i` on, after marking blank cell `m`. */
  lemma {:induction false} EmptyFromPlace(b: Board, m: int, c: Mark, i: nat)
    requires 0 <= m < 9 && b[m] == Blank
    requires i <= 9
    ensures |EmptyFrom(Place(b, m, c), i)| == |EmptyFrom(b, i)| - (if i <= m then 1 else 0)
    decreases 9 - i
  {
    if i < 9 {
      EmptyFromPlace(b, m, c, i + 1);
    }
  }

  /** Marking an empty cell removes exactly one empty cell. */
  lemma PlaceCount(b: Board, m: int, c: Mark)
    requires 0 <= m < 9 && b[m] == Blank
    ensures NumEmpty(Place(b, m, c)) == NumEmpty(b) - 1
  {
    EmptyFromPlace(b, m, c, 0);
  }

  /** Line `k` holds three equal marks. */
  predicate Complete(b: Board, k: nat)
    requires k < 8
  {
    var (p, q, r) := Lines[k];
    b[p] != Blank && b[p] == b[q] && b[q] == b[r]
  }

  /** The mark of the first complete line from line `k` on, or `Blank`. */
  function WinnerFrom(b: Board, k: nat): Cell
    requires k <= 8
    decreases 8 - k
  {
    if k == 8 then Blank
    else if Complete(b, k) then b[Lines[k].0]
    else WinnerFrom(b, k + 1)
  }

  lemma {:induction false} WinnerFromFacts(b: Board, k: nat)
    requires k <= 8
    ensures WinnerFrom(b, k) == Blank <==> forall j :: k <= j < 8 ==> !Complete(b, j)
    ensures WinnerFrom(b, k) != Blank ==> exists j :: k <= j < 8 && Complete(b, j) && b[Lines[j].0] == WinnerFrom(b, k)
    decreases 8 - k
  {
    if k < 8 {
      WinnerFromFacts(b, k + 1);
    }
  }

  /** `verificar_ganador`: the mark that completed a line, or `Blank` for none. */
  function Winner(b: Board): Cell {
    WinnerFrom(b, 0)
  }

  /** The game on `b` is over: a line is complete or no cell is free. */
  predicate Terminal(b: Board) {
    Winner(b) != Blank || !HasFree(b)
  }

  /** Nobody has won on the empty board. */
  lemma EmptyBoardNoWinner()
    ensures Winner(EmptyBoard) == Blank
  {
    forall j | 0 <= j < 8
      ensures !Complete(EmptyBoard, j)
    {
    }
    WinnerFromFacts(EmptyBoard, 0);
  }

  /** All nine cells of the empty board are free. */
  lemma EmptyBoardFree()
    ensures NumEmpty(EmptyBoard) == 9
  {
    EmptyFromBlank(0);
  }

  lemma {:induction false} EmptyFromBlank(i: nat)
    requires i <= 9
    ensures |EmptyFrom(EmptyBoard, i)| == 9 - i
    decreases 9 - i
  {
    if i < 9 {
      EmptyFromBlank(i + 1);
    }
  }

  /**
   * On a board without a complete line, marking one empty cell can only
   * complete lines through that cell, so the winner is the mover or nobody.
   */
  lemma PlaceWinner(b: Board, m: int, c: Mark)
    requires 0 <= m < 9 && b[m] == Blank
    requires Winner(b) == Blank
    ensures Winner(Place(b, m, c)) in {Blank, c}
  {
    var b' := Place(b, m, c);
    WinnerFromFacts(b, 0);
    WinnerFromFacts(b', 0);
    if Winner(b') != Blank {
      var j :| 0 <= j < 8 && Complete(b', j) && b'[Lines[j].0] == Winner(b');
      assert !Complete(b, j);
    }
  }
}
