/**
 * The word grid: a 3 by 4 matrix of cells of which three are hidden for good.
 * A visible cell is empty until a found word writes a letter into it, and a
 * filled cell is never emptied again.
 */
module Grid {
  import opened Wrappers

  /** A [row, col] coordinate pair, as the dictionary writes its target positions. */
  datatype Pos = Pos(row: nat, col: nat)

  /**
   * An entry of the cell matrix: `null` at a hidden coordinate, otherwise the
   * cell drawn at (x, y) inside the grid container, holding a letter once filled.
   */
  datatype Cell = Hidden | Visible(x: int, y: int, letter: Option<char>) {
    predicate Filled() {
      Visible? && letter.Some?
    }
  }

  /** Dimensions of the letter matrix the grid is built from. */
  const Rows: nat := 3
  const Cols: nat := 4
  const CellSize: int := 80
  const Padding: int := 10
  /** Offset of the grid container inside the game scene. */
  const GridLeft: int := 65
  const GridTop: int := 80

  const HiddenCells: seq<Pos> := [Pos(1, 1), Pos(1, 3), Pos(2, 3)]

  predicate IsHidden(r: nat, c: nat) {
    Pos(r, c) in HiddenCells
  }

  /** The cell that `init` creates at (r, c): a placeholder when hidden, else an empty cell 90 units per step apart. */
  function FreshCell(r: nat, c: nat): Cell {
    if IsHidden(r, c) then Hidden
    else Visible(c * (CellSize + Padding), r * (CellSize + Padding), None)
  }

  /** `a` sits where `b` sits: both hidden, or both visible at the same place. */
  predicate SamePlace(a: Cell, b: Cell) {
    a.Hidden? == b.Hidden? && (a.Visible? ==> a.x == b.x && a.y == b.y)
  }

  /** The matrix is 3 by 4, hidden exactly at the hidden coordinates, every visible cell at its place. */
  ghost predicate Laid(cells: seq<seq<Cell>>) {
    && |cells| == Rows
    && (forall r :: 0 <= r < Rows ==> |cells[r]| == Cols)
    && (forall r, c :: 0 <= r < Rows && 0 <= c < Cols ==> SamePlace(cells[r][c], FreshCell(r, c)))
  }

  /** The matrix right after construction. */
  function InitialCells(): (cells: seq<seq<Cell>>)
    ensures |cells| == Rows
  {
    seq(Rows, r requires 0 <= r => seq(Cols, c requires 0 <= c => FreshCell(r, c)))
  }

  /** How many cells of a row are visible. */
  function VisibleInRow(row: seq<Cell>): nat {
    if row == [] then 0 else (if row[0].Visible? then 1 else 0) + VisibleInRow(row[1..])
  }

  /** How many cells of the matrix are visible. */
  function VisibleCount(cells: seq<seq<Cell>>): nat {
    if cells == [] then 0 else VisibleInRow(cells[0]) + VisibleCount(cells[1..])
  }

  /** A row of four cells counts each of its visible cells once. */
  lemma VisibleInFour(row: seq<Cell>)
    requires |row| == Cols
    ensures VisibleInRow(row) == (if row[0].Visible? then 1 else 0) + (if row[1].Visible? then 1 else 0)
                                 + (if row[2].Visible? then 1 else 0) + (if row[3].Visible? then 1 else 0)
  {
    var r1, r2, r3 := row[1..], row[1..][1..], row[1..][1..][1..];
    assert r1[0] == row[1] && r2[0] == row[2] && r3[0] == row[3] && r3[1..] == [];
    assert VisibleInRow(r3) == if row[3].Visible? then 1 else 0;
    assert VisibleInRow(r2) == (if row[2].Visible? then 1 else 0) + VisibleInRow(r3);
    assert VisibleInRow(r1) == (if row[1].Visible? then 1 else 0) + VisibleInRow(r2);
  }

  /**
   * The fresh matrix is laid out, with nothing filled; it is hidden exactly at
   * (1,1), (1,3) and (2,3), so nine cells are visible.
   */
  lemma InitialCellsLaid()
    ensures Laid(InitialCells())
    ensures forall r, c :: 0 <= r < Rows && 0 <= c < Cols ==> !InitialCells()[r][c].Filled()
    ensures forall r, c :: 0 <= r < Rows && 0 <= c < Cols ==>
      (InitialCells()[r][c].Hidden? <==> (r == 1 && (c == 1 || c == 3)) || (r == 2 && c == 3))
    ensures VisibleCount(InitialCells()) == 9
  {
    var cells := InitialCells();
    VisibleInFour(cells[0]);
    VisibleInFour(cells[1]);
    VisibleInFour(cells[2]);
    assert cells[1..][1..][1..] == [];
  }

  /** The `filled` property read off a [row, col] pair: no code ever sets it on a pair, so it reads as undefined. */
  predicate PairFilled(p: Pos) {
    false
  }

  /** One step of the fill loop: writes `ch` at `p` if there is a visible cell there that is not yet filled. */
  function FillCell(cells: seq<seq<Cell>>, p: Pos, ch: char): seq<seq<Cell>>
    requires p.row < |cells|
  {
    var row := cells[p.row];
    if p.col < |row| && row[p.col].Visible? && !row[p.col].Filled() then
      cells[p.row := row[p.col := row[p.col].(letter := Some(ch))]]
    else
      cells
  }

  /** Every target row lies inside the matrix. */
  predicate RowsInside(cells: seq<seq<Cell>>, positions: seq<Pos>) {
    forall i :: 0 <= i < |positions| ==> positions[i].row < |cells|
  }

  /** The matrix after the fill loop has handled the first `k` positions. */
  function Fill(cells: seq<seq<Cell>>, word: string, positions: seq<Pos>, k: nat): (r: seq<seq<Cell>>)
    requires k <= |positions| <= |word|
    requires RowsInside(cells, positions)
    ensures |r| == |cells| && forall i :: 0 <= i < |cells| ==> |r[i]| == |cells[i]|
  {
    if k == 0 then cells
    else FillCell(Fill(cells, word, positions, k - 1), positions[k - 1], word[k - 1])
  }

  /** The matrix after a whole word has been written into its positions. */
  function Commit(cells: seq<seq<Cell>>, word: string, positions: seq<Pos>): seq<seq<Cell>>
    requires |positions| <= |word|
    requires RowsInside(cells, positions)
  {
    Fill(cells, word, positions, |positions|)
  }

  /** Filling keeps the matrix laid out as built. */
  lemma {:induction false} FillLaid(cells: seq<seq<Cell>>, word: string, positions: seq<Pos>, k: nat)
    requires k <= |positions| <= |word| && RowsInside(cells, positions)
    requires Laid(cells)
    ensures Laid(Fill(cells, word, positions, k))
  {
    if k > 0 {
      FillLaid(cells, word, positions, k - 1);
    }
  }

  /**
   * Every cell of the filled matrix is either the cell it was, or was an empty
   * visible cell that now holds `word[i]` for some position `i` naming it.
   * In particular filled cells keep their letter and untargeted cells are untouched.
   */
  lemma {:induction false} FillWrites(cells: seq<seq<Cell>>, word: string, positions: seq<Pos>, k: nat, r: nat, c: nat)
    requires k <= |positions| <= |word| && RowsInside(cells, positions)
    requires r < |cells| && c < |cells[r]|
    ensures var out := Fill(cells, word, positions, k);
      || out[r][c] == cells[r][c]
      || (&& cells[r][c].Visible? && !cells[r][c].Filled()
          && exists i :: 0 <= i < k && positions[i] == Pos(r, c) && out[r][c] == cells[r][c].(letter := Some(word[i])))
  {
    if k > 0 {
      FillWrites(cells, word, positions, k - 1, r, c);
    }
  }

  /** After the fill loop every visible cell named by one of the first `k` positions is filled. */
  lemma {:induction false} FillMarks(cells: seq<seq<Cell>>, word: string, positions: seq<Pos>, k: nat, i: nat)
    requires k <= |positions| <= |word| && RowsInside(cells, positions)
    requires i < k
    requires positions[i].col < |cells[positions[i].row]| && cells[positions[i].row][positions[i].col].Visible?
    ensures Fill(cells, word, positions, k)[positions[i].row][positions[i].col].Filled()
  {
    var p := positions[i];
    if i < k - 1 {
      FillMarks(cells, word, positions, k - 1, i);
      FillKeepsFilled(cells, word, positions, k - 1, k, p.row, p.col);
    } else {
      FillWrites(cells, word, positions, k - 1, p.row, p.col);
    }
  }

  /** A filled cell stays filled with the same letter from step `j` to step `k`. */
  lemma {:induction false} FillKeepsFilled(cells: seq<seq<Cell>>, word: string, positions: seq<Pos>, j: nat, k: nat, r: nat, c: nat)
    requires j <= k <= |positions| <= |word| && RowsInside(cells, positions)
    requires r < |cells| && c < |cells[r]|
    requires Fill(cells, word, positions, j)[r][c].Filled()
    ensures Fill(cells, word, positions, k)[r][c] == Fill(cells, word, positions, j)[r][c]
    decreases k - j
  {
    if j < k {
      FillKeepsFilled(cells, word, positions, j, k - 1, r, c);
    }
  }

  class WordGrid {
    var cells: seq<seq<Cell>>

    ghost predicate Valid()
      reads this
    {
      Laid(cells)
    }

    /** Builds the matrix row by row, pushing `null` for each hidden coordinate. */
    constructor ()
      ensures Valid()
      ensures cells == InitialCells()
    {
      var built: seq<seq<Cell>> := [];
      var rowIndex := 0;
      while rowIndex < Rows
        invariant rowIndex <= Rows && |built| == rowIndex
        invariant forall r :: 0 <= r < rowIndex ==> built[r] == InitialCells()[r]
      {
        var cellRow: seq<Cell> := [];
        var colIndex := 0;
        while colIndex < Cols
          invariant colIndex <= Cols && |cellRow| == colIndex
          invariant forall c :: 0 <= c < colIndex ==> cellRow[c] == FreshCell(rowIndex, c)
        {
          if !IsHidden(rowIndex, colIndex) {
            cellRow := cellRow + [Visible(colIndex * (CellSize + Padding), rowIndex * (CellSize + Padding), None)];
          } else {
            cellRow := cellRow + [Hidden];
          }
          colIndex := colIndex + 1;
        }
        built := built + [cellRow];
        rowIndex := rowIndex + 1;
      }
      cells := built;
      InitialCellsLaid();
    }

    /**
     * Writes `word` into `positions`, letter by letter, skipping hidden and
     * already-filled cells. The early-abort guard runs first; as no pair ever
     * carries a `filled` property it never aborts.
     */
    method UpdateGrid(word: string, positions: seq<Pos>) returns (canUpdate: bool)
      requires Valid()
      requires |positions| <= |word| && RowsInside(cells, positions)
      modifies this
      ensures Valid()
      ensures canUpdate
      ensures cells == Commit(old(cells), word, positions)
    {
      canUpdate := true;
      for i := 0 to |positions|
        invariant canUpdate
      {
        if PairFilled(positions[i]) {
          canUpdate := false;
        }
      }
      if canUpdate {
        ghost var before := cells;
        for i := 0 to |positions|
          invariant RowsInside(before, positions)
          invariant cells == Fill(before, word, positions, i)
        {
          var p := positions[i];
          if p.col < |cells[p.row]| && cells[p.row][p.col].Visible? && !cells[p.row][p.col].Filled() {
            cells := cells[p.row := cells[p.row][p.col := cells[p.row][p.col].(letter := Some(word[i]))]];
          }
        }
        FillLaid(before, word, positions, |positions|);
      }
    }
  }
}
