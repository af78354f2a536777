/** The cells of the OpenDocument converter and the helpers that shape a
    sheet before formulas are applied: the column list (storeCol), the
    lookup of a column in a row (cellInRow), the padding of every row to
    the known columns (fillMissingCells) and the `formula` attribute a
    cell is written with (insertCell). */
module OdsSheet {
  import opened Wrappers
  import opened Text

  /** A cell as the converter keeps it: `processed` is 0 or 1 in the
      source, `formula` the formulas that refer to the cell. */
  datatype Cell = Cell(
    processed: bool,
    id: string,
    colId: string,
    origFormula: string,
    formula: seq<string>,
    value: string,
    valueType: string,
    readOnly: string)

  /** A freshly made Cell(): value '00' of type 'float', all else empty. */
  const Blank: Cell := Cell(false, "", "", "", [], "00", "float", "")

  /** The cells of one sheet, row by row. */
  type Sheet = seq<seq<Cell>>

  /** The part of the output document that the cell helpers use: the
      column names met so far. */
  class SpreadSheet {
    var cols: seq<string>

    ghost predicate Valid()
      reads this
    {
      NoDup(cols)
    }

    constructor ()
      ensures cols == [] && Valid()
    {
      cols := [];
    }

    /** Records a column name the first time it is met. */
    method StoreCol(col: string)
      requires Valid()
      modifies this`cols
      ensures cols == if col in old(cols) then old(cols) else old(cols) + [col]
      ensures Valid()
    {
      if col !in cols {
        cols := cols + [col];
      }
    }
  }

  /** The first cell of the row in column `col`. */
  function FirstWithCol(row: seq<Cell>, col: string, from: nat): (r: Option<nat>)
    requires from <= |row|
    ensures r.Some? ==> from <= r.value < |row| && row[r.value].colId == col
    ensures r.Some? ==> forall k :: from <= k < r.value ==> row[k].colId != col
    ensures r.None? ==> forall k :: from <= k < |row| ==> row[k].colId != col
    decreases |row| - from
  {
    if from == |row| then None
    else if row[from].colId == col then Some(from)
    else FirstWithCol(row, col, from + 1)
  }

  /** cellInRow: whether the row has a cell in column `col`, with the first
      such cell; without one, the loop variable is left at the last cell,
      or None for an empty row. */
  method CellInRow(col: string, cells: seq<Cell>) returns (inside: bool, cell: Option<Cell>)
    ensures inside <==> exists k :: 0 <= k < |cells| && cells[k].colId == col
    ensures inside ==> cell == Some(cells[FirstWithCol(cells, col, 0).value])
    ensures !inside ==> cell == if |cells| == 0 then None else Some(cells[|cells| - 1])
  {
    inside := false;
    cell := None;
    var k := 0;
    while k < |cells|
      invariant 0 <= k <= |cells|
      invariant FirstWithCol(cells, col, 0) == FirstWithCol(cells, col, k)
      invariant cell == if k == 0 then None else Some(cells[k - 1])
    {
      cell := Some(cells[k]);
      if col == cells[k].colId {
        inside := true;
        return;
      }
      k := k + 1;
    }
  }

  /** The cell fillMissingCells puts in column `col` of row number rowC:
      the row's own cell for that column, or a fresh cell named after the
      column and row. */
  function FilledCell(row: seq<Cell>, col: string, rowC: nat): Cell
  {
    match FirstWithCol(row, col, 0)
    case Some(k) => row[k]
    case None => Blank.(id := "." + col + NatToString(rowC))
  }

  /** fillMissingCells: every row gets one cell per known column, in the
      order of the columns; rows are numbered from 1. */
  method FillMissingCells(sCells: Sheet, cols: seq<string>) returns (filled: Sheet)
    ensures |filled| == |sCells|
    ensures forall i :: 0 <= i < |filled| ==> |filled[i]| == |cols|
    ensures forall i, m :: 0 <= i < |filled| && 0 <= m < |cols| ==> filled[i][m] == FilledCell(sCells[i], cols[m], i + 1)
  {
    filled := [];
    var rowC := 1;
    var i := 0;
    while i < |sCells|
      invariant 0 <= i <= |sCells| && rowC == i + 1
      invariant |filled| == i
      invariant forall a :: 0 <= a < i ==> |filled[a]| == |cols|
      invariant forall a, m :: 0 <= a < i && 0 <= m < |cols| ==> filled[a][m] == FilledCell(sCells[a], cols[m], a + 1)
    {
      var trCells := FillRow(sCells[i], cols, rowC);
      filled := filled + [trCells];
      rowC := rowC + 1;
      i := i + 1;
    }
  }

  /** The inner loop of fillMissingCells, over the columns of one row. */
  method FillRow(rCells: seq<Cell>, cols: seq<string>, rowC: nat) returns (trCells: seq<Cell>)
    ensures |trCells| == |cols|
    ensures forall m :: 0 <= m < |cols| ==> trCells[m] == FilledCell(rCells, cols[m], rowC)
  {
    trCells := [];
    var m := 0;
    while m < |cols|
      invariant 0 <= m <= |cols| && |trCells| == m
      invariant forall n :: 0 <= n < m ==> trCells[n] == FilledCell(rCells, cols[n], rowC)
    {
      var cellIn, cell := CellInRow(cols[m], rCells);
      if cellIn {
        trCells := trCells + [cell.value];
      } else {
        trCells := trCells + [Blank.(id := "." + cols[m] + NatToString(rowC))];
      }
      m := m + 1;
    }
  }

  /** Each cell of a row that is the row's first in a known column keeps
      its place, under that column. */
  lemma FilledKeepsCells(row: seq<Cell>, cols: seq<string>, rowC: nat, k: nat, m: nat)
    requires k < |row| && m < |cols| && row[k].colId == cols[m]
    requires forall n :: 0 <= n < k ==> row[n].colId != row[k].colId
    ensures FilledCell(row, cols[m], rowC) == row[k]
  {
    var f := FirstWithCol(row, cols[m], 0);
    assert f.Some?;
    assert !(f.value < k) && !(k < f.value);
  }

  /** insertCell's `formula` attribute: the formulas joined with ` || `,
      no attribute for a cell without formulas. */
  method FormulaAttribute(formula: seq<string>) returns (attr: Option<string>)
    ensures attr.None? <==> |formula| == 0
    ensures attr.Some? ==> attr.value == Join(formula, " || ")
  {
    var forin := "";
    if |formula| > 1 {
      var firstPass := true;
      var k := 0;
      while k < |formula|
        invariant 0 <= k <= |formula|
        invariant firstPass <==> k == 0
        invariant k > 0 ==> forin == Join(formula[..k], " || ")
      {
        var f := formula[k];
        if !firstPass {
          JoinSnoc(formula[..k], f, " || ");
          assert formula[..k + 1] == formula[..k] + [f];
          forin := forin + " || " + f;
        } else {
          assert formula[..1] == [f];
          forin := f;
          firstPass := false;
        }
        k := k + 1;
      }
      assert formula[..k] == formula;
    } else if |formula| == 1 {
      forin := formula[0];
    }
    if |formula| > 0 {
      attr := Some(forin);
    } else {
      attr := None;
    }
  }
}
