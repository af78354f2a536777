/** The sheet-layout helpers of the ToXML converters: the column range a
    sheet spans (ensureColumnBounds), the column headers (printColumnHeads)
    and the name of each sheet's output file (convertSheets). */
module ColumnBounds {
  import opened Wrappers
  import opened Text
  import opened CellLabels

  /** Integer.MAX_VALUE, the start value of the minimum search. */
  const IntMax: int := 0x7fff_ffff

  /** What ensureColumnBounds reads of a row: Row.getFirstCellNum() and
      Row.getLastCellNum(), both -1 for a row without cells; the last is one
      past the last cell. */
  datatype RowSpan = RowSpan(firstCellNum: int, lastCellNum: int)

  /** The values a Java short can take. */
  predicate IsShort(x: int) { -0x8000 <= x <= 0x7fff }

  predicate HasCells(row: RowSpan) { row.firstCellNum >= 0 }

  /** The minimum first-cell index over the rows with cells, from
      Integer.MAX_VALUE. */
  function MinFirst(rows: seq<RowSpan>): int
    decreases |rows|
  {
    if |rows| == 0 then IntMax
    else
      var m := MinFirst(rows[..|rows| - 1]);
      var row := rows[|rows| - 1];
      if HasCells(row) && row.firstCellNum < m then row.firstCellNum else m
  }

  /** The maximum last-cell number over the rows with cells, from 0. */
  function MaxEnd(rows: seq<RowSpan>): int
    decreases |rows|
  {
    if |rows| == 0 then 0
    else
      var m := MaxEnd(rows[..|rows| - 1]);
      var row := rows[|rows| - 1];
      if HasCells(row) && row.lastCellNum > m then row.lastCellNum else m
  }

  /** The first column: 0 for a sheet without rows, otherwise the minimum. */
  function FirstColumn(rows: seq<RowSpan>): int
  {
    if |rows| == 0 then 0 else MinFirst(rows)
  }

  function EndColumn(rows: seq<RowSpan>): int
  {
    MaxEnd(rows)
  }

  /** The first column lies at or below every row's first cell, and is some
      row's first cell unless no row has cells. */
  lemma {:induction false} MinFirstIsMinimum(rows: seq<RowSpan>)
    requires forall i :: 0 <= i < |rows| ==> IsShort(rows[i].firstCellNum)
    ensures forall i :: 0 <= i < |rows| && HasCells(rows[i]) ==> MinFirst(rows) <= rows[i].firstCellNum
    ensures (exists i :: 0 <= i < |rows| && HasCells(rows[i]))
      ==> exists i :: 0 <= i < |rows| && HasCells(rows[i]) && MinFirst(rows) == rows[i].firstCellNum
    ensures (forall i :: 0 <= i < |rows| ==> !HasCells(rows[i])) ==> MinFirst(rows) == IntMax
    decreases |rows|
  {
    if |rows| > 0 {
      var init := rows[..|rows| - 1];
      MinFirstIsMinimum(init);
      assert forall i :: 0 <= i < |init| ==> init[i] == rows[i];
      if exists i :: 0 <= i < |rows| && HasCells(rows[i]) {
        if !HasCells(rows[|rows| - 1]) {
          var j :| 0 <= j < |rows| && HasCells(rows[j]);
          assert j < |init| && HasCells(init[j]);
        }
      }
    }
  }

  /** The end column lies at or above every row's last cell number, is at
      least 0, and is 0 or some row's last cell number. */
  lemma {:induction false} MaxEndIsMaximum(rows: seq<RowSpan>)
    ensures MaxEnd(rows) >= 0
    ensures forall i :: 0 <= i < |rows| && HasCells(rows[i]) ==> rows[i].lastCellNum <= MaxEnd(rows)
    ensures MaxEnd(rows) == 0
      || exists i :: 0 <= i < |rows| && HasCells(rows[i]) && MaxEnd(rows) == rows[i].lastCellNum
    decreases |rows|
  {
    if |rows| > 0 {
      var init := rows[..|rows| - 1];
      MaxEndIsMaximum(init);
      assert forall i :: 0 <= i < |init| ==> init[i] == rows[i];
    }
  }

  /** When no row has a cell the range is empty: firstColumn stays at
      Integer.MAX_VALUE above endColumn 0, and no column is printed. */
  lemma NoCellsNoColumns(rows: seq<RowSpan>)
    requires |rows| > 0 && forall i :: 0 <= i < |rows| ==> rows[i].firstCellNum == -1
    ensures FirstColumn(rows) == IntMax && EndColumn(rows) == 0
  {
    MinFirstIsMinimum(rows);
    MaxEndIsMaximum(rows);
  }

  // ---------------------------------------------------------------------
  // Column headers.

  /** The header the do-while loop of printColumnHeads builds: the column
      number in plain base 26, digit 0 written `A`. */
  function HeaderAsWritten(i: nat): (s: string)
    ensures |s| > 0 && AllUpper(s)
    decreases i
  {
    if i < 26 then [Letter(i)] else HeaderAsWritten(i / 26) + [Letter(i % 26)]
  }

  /** printColumnHeads' loop for one column: prepend the letter of
      cnum % 26, divide by 26, stop at 0. */
  method ColumnHeadAsWritten(i: nat) returns (name: string)
    ensures name == HeaderAsWritten(i)
  {
    var cnum := i;
    name := [Letter(cnum % 26)];
    cnum := cnum / 26;
    while cnum > 0
      invariant HeaderAsWritten(i) == (if cnum > 0 then HeaderAsWritten(cnum) else "") + name
      decreases cnum
    {
      ghost var h := if cnum / 26 > 0 then HeaderAsWritten(cnum / 26) else "";
      assert HeaderAsWritten(cnum) == h + [Letter(cnum % 26)];
      assert h + ([Letter(cnum % 26)] + name) == h + [Letter(cnum % 26)] + name;
      name := [Letter(cnum % 26)] + name;
      cnum := cnum / 26;
    }
  }

  /** Read back as a column label, the header as written names a column at
      least 26 further right for every column from 26 on. */
  lemma {:induction false} HeaderAsWrittenOvershoots(i: nat)
    ensures i < 26 ==> ColumnIndex(HeaderAsWritten(i)) == i
    ensures i >= 26 ==> ColumnIndex(HeaderAsWritten(i)) >= i + 26
    decreases i
  {
    if i >= 26 {
      var s := HeaderAsWritten(i);
      HeaderAsWrittenOvershoots(i / 26);
      assert s[..|s| - 1] == HeaderAsWritten(i / 26);
      assert LetterValue(s[|s| - 1]) == i % 26;
    }
  }

  /** The header as written agrees with the cells' column letters exactly
      for the first 26 columns: column 26 is headed `BA`, its cells are
      labelled `AA1`, `AA2`, .... */
  lemma HeaderAsWrittenMatchesIff(i: nat)
    ensures HeaderAsWritten(i) == ColumnLabel(i) <==> i < 26
  {
    HeaderAsWrittenOvershoots(i);
    ColumnIndexOfLabel(i);
    if i < 26 {
      assert ColumnLabel(i) == [Letter(i)];
    }
  }

  lemma HeaderAsWrittenExample()
    ensures HeaderAsWritten(26) == "BA" && ColumnLabel(26) == "AA"
  {
    LabelExamples();
  }

  /** The column head with the bijective step (`cnum / 26 - 1`), the letters
      CellReference gives the column. */
  method ColumnHead(i: nat) returns (name: string)
    ensures name == ColumnLabel(i)
  {
    var cnum: int := i;
    name := [];
    while cnum >= 0
      invariant cnum >= -1
      invariant cnum >= 0 ==> ColumnLabel(i) == ColumnLabel(cnum) + name
      invariant cnum < 0 ==> name == ColumnLabel(i)
      decreases cnum + 1
    {
      if cnum >= 26 {
        assert ColumnLabel(cnum) == ColumnLabel(cnum / 26 - 1) + [Letter(cnum % 26)];
      }
      name := [Letter(cnum % 26)] + name;
      cnum := cnum / 26 - 1;
    }
  }

  /** The headers printColumnHeads prints for columns firstColumn ..
      endColumn - 1, in order. */
  method ColumnHeads(firstColumn: int, endColumn: int) returns (heads: seq<string>)
    requires firstColumn >= 0
    ensures |heads| == if endColumn > firstColumn then endColumn - firstColumn else 0
    ensures forall j :: 0 <= j < |heads| ==> heads[j] == HeaderAsWritten(firstColumn + j)
  {
    heads := [];
    var i := firstColumn;
    while i < endColumn
      invariant firstColumn <= i
      invariant i <= endColumn || i == firstColumn
      invariant |heads| == i - firstColumn
      invariant forall j :: 0 <= j < |heads| ==> heads[j] == HeaderAsWritten(firstColumn + j)
    {
      var name := ColumnHeadAsWritten(i);
      heads := heads + [name];
      i := i + 1;
    }
  }

  // ---------------------------------------------------------------------
  // Output file names.

  /** String.lastIndexOf(ch), None for -1. */
  function LastIndexOf(s: string, ch: char): (r: Option<nat>)
    ensures r.Some? ==> r.value < |s| && s[r.value] == ch && forall k :: r.value < k < |s| ==> s[k] != ch
    ensures r.None? ==> forall k :: 0 <= k < |s| ==> s[k] != ch
    decreases |s|
  {
    if |s| == 0 then None
    else if s[|s| - 1] == ch then Some(|s| - 1)
    else LastIndexOf(s[..|s| - 1], ch)
  }

  datatype NameError = StringIndexOutOfBounds

  /** The file sheet c goes to: the sheet number inserted before the last
      dot, `book.xls` -> `book0.xls`; a name without a dot makes substring
      throw. */
  function SheetFileName(filename: string, c: nat): (r: Result<string, NameError>)
    ensures r.Err? <==> '.' !in filename
  {
    match LastIndexOf(filename, '.')
    case None => Err(StringIndexOutOfBounds)
    case Some(k) => Ok(filename[..k] + NatToString(c) + filename[k..])
  }

  /** The sheet's file name keeps the name up to the last dot, then the
      sheet number, then the extension from the last dot on. */
  lemma SheetFileNameShape(filename: string, c: nat)
    requires '.' in filename
    ensures exists k :: (0 <= k < |filename| && filename[k] == '.' && '.' !in filename[k + 1..]
      && SheetFileName(filename, c) == Ok(filename[..k] + NatToString(c) + filename[k..]))
  {
    var k := LastIndexOf(filename, '.').value;
    var tail := filename[k + 1..];
    assert '.' !in tail by {
      forall j | 0 <= j < |tail| ensures tail[j] != '.' {
        assert tail[j] == filename[k + 1 + j];
      }
    }
  }

  /** Different sheets of one workbook go to different files. */
  lemma SheetFileNamesDistinct(filename: string, c1: nat, c2: nat)
    requires SheetFileName(filename, c1).Ok? && SheetFileName(filename, c1) == SheetFileName(filename, c2)
    ensures c1 == c2
  {
    var k := LastIndexOf(filename, '.').value;
    var pre := filename[..k];
    var ext := filename[k..];
    var n := SheetFileName(filename, c1).value;
    var d1 := NatToString(c1);
    var d2 := NatToString(c2);
    assert n == pre + d1 + ext && n == pre + d2 + ext;
    assert |d1| == |d2|;
    assert d1 == n[|pre|..|pre| + |d1|];
    assert d2 == n[|pre|..|pre| + |d2|];
    NatToStringInjective(c1, c2);
  }
}
