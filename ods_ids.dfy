/** The cell addresses of the OpenDocument converter: the id a cell gets
    from its column and row (getCellID), the split of an id into column
    letters and row number, and the test whether an id lies in a range
    (inLimit). */
module OdsIds {
  import opened Wrappers
  import opened Text
  import opened CellLabels

  /** The exceptions the converter's helpers can raise. */
  datatype OdsError =
    | IndexError  // `re.findall(...)[0]` on a string without a match
    | ValueError  // unpacking a range with other than two ends

  // ---------------------------------------------------------------------
  // getCellID.

  /** getCellID(col, row) as written: `'A' * (col // 26)` followed by the
      letter of col % 26; the id is `.`, those letters, the row number. */
  function CellIdAsWritten(col: nat, row: nat): (string, string)
  {
    var colChar := Repeat('A', col / 26) + [Letter(col % 26)];
    ("." + colChar + NatToString(row), colChar)
  }

  /** The id with the column's spreadsheet letters (0 -> A, 26 -> AA,
      52 -> BA), the name the document's formulas use for the cell. */
  function CellId(col: nat, row: nat): (string, string)
  {
    ("." + ColumnLabel(col) + NatToString(row), ColumnLabel(col))
  }

  /** The column letters of `A` repeated k times, k >= 1, stand for a
      column at least 26 * (k - 1). */
  lemma {:induction false} ColumnIndexOfAs(k: nat)
    requires k >= 1
    ensures AllUpper(Repeat('A', k))
    ensures ColumnIndex(Repeat('A', k)) >= 26 * (k - 1)
    decreases k
  {
    if k > 1 {
      ColumnIndexOfAs(k - 1);
      var s := Repeat('A', k);
      assert s[..|s| - 1] == Repeat('A', k - 1);
    }
  }

  /** getCellID's letters are the column's own exactly for the first 52
      columns: from column 52 on it writes `AAA`, `AAB`, ... where the
      document writes `BA`, `BB`, .... */
  lemma CellIdAsWrittenMatchesIff(col: nat, row: nat)
    ensures CellIdAsWritten(col, row) == CellId(col, row) <==> col < 52
  {
    var k, l := col / 26, col % 26;
    var written := Repeat('A', k) + [Letter(l)];
    if col < 26 {
      assert written == [Letter(col)];
    } else if col < 52 {
      assert ColumnLabel(col) == ColumnLabel(0) + [Letter(l)];
      assert written == ColumnLabel(col);
    } else {
      ColumnIndexOfAs(k);
      ColumnIndexOfLabel(col);
      assert written[..|written| - 1] == Repeat('A', k);
      assert ColumnIndex(written) == (ColumnIndex(Repeat('A', k)) + 1) * 26 + l;
      assert ColumnIndex(written) != col;
      assert written != ColumnLabel(col);
      assert CellIdAsWritten(col, row).1 != CellId(col, row).1;
    }
  }

  /** The first column where the two part: column 52 is `.AAA1` as
      written and `.BA1` in the document. */
  lemma CellIdAsWrittenExample()
    ensures CellIdAsWritten(52, 1) == (".AAA1", "AAA")
    ensures CellId(52, 1) == (".BA1", "BA")
  {
    LabelExamples();
    assert Letter(0) == 'A';
    assert Repeat('A', 2) == "AA";
    assert NatToString(1) == [DigitChar(1)] == "1";
    assert Repeat('A', 52 / 26) + [Letter(52 % 26)] == "AAA";
    assert "." + "AAA" + "1" == ".AAA1";
    assert "." + "BA" + "1" == ".BA1";
  }

  /** Distinct cells get distinct ids. */
  lemma CellIdInjective(c1: nat, r1: nat, c2: nat, r2: nat)
    requires CellId(c1, r1).0 == CellId(c2, r2).0
    ensures c1 == c2 && r1 == r2
  {
    var l1, d1 := ColumnLabel(c1), NatToString(r1);
    var l2, d2 := ColumnLabel(c2), NatToString(r2);
    assert ("." + l1 + d1)[1..] == l1 + d1;
    assert ("." + l2 + d2)[1..] == l2 + d2;
    LettersDigitsSplit(l1, d1, l2, d2);
    ColumnLabelInjective(c1, c2);
    NatToStringInjective(r1, r2);
  }

  // ---------------------------------------------------------------------
  // Splitting an id.

  /** `re.findall('[a-zA-Z]+', s)[0]` and `int(re.findall('\d+', s)[0])`:
      the first run of letters and the value of the first run of digits. */
  function SplitId(s: string): (r: Result<(string, nat), OdsError>)
    ensures r.Err? <==> (forall i :: 0 <= i < |s| ==> !IsAsciiLetter(s[i])) || (forall i :: 0 <= i < |s| ==> !IsDigit(s[i]))
  {
    match (FirstRun(s, IsAsciiLetter), FirstRun(s, IsDigit))
    case (Some(letters), Some(digits)) => Ok((letters, DigitsValue(digits)))
    case _ => Err(IndexError)
  }

  /** A run over a prefix that ends where the predicate first fails. */
  lemma {:induction false} RunPrefixConcat(a: string, b: string, p: char -> bool)
    requires forall i :: 0 <= i < |a| ==> p(a[i])
    requires |b| == 0 || !p(b[0])
    ensures RunPrefix(a + b, p) == a
    decreases |a|
  {
    if |a| == 0 {
      assert a + b == b;
    } else {
      assert (a + b)[0] == a[0] && (a + b)[1..] == a[1..] + b;
      RunPrefixConcat(a[1..], b, p);
    }
  }

  /** The first run skips a prefix where the predicate never holds. */
  lemma {:induction false} FirstRunSkip(a: string, b: string, p: char -> bool)
    requires forall i :: 0 <= i < |a| ==> !p(a[i])
    ensures FirstRun(a + b, p) == FirstRun(b, p)
    decreases |a|
  {
    if |a| == 0 {
      assert a + b == b;
    } else {
      assert (a + b)[0] == a[0] && (a + b)[1..] == a[1..] + b;
      FirstRunSkip(a[1..], b, p);
    }
  }

  /** Splitting the id of a cell gives back its column letters and row. */
  lemma SplitCellId(col: nat, row: nat)
    ensures SplitId(CellId(col, row).0) == Ok((ColumnLabel(col), row))
  {
    var l, d := ColumnLabel(col), NatToString(row);
    var s := "." + l + d;
    assert s == "." + (l + d) && s == ("." + l) + d;
    assert !IsAsciiLetter(d[0]);
    FirstRunSkip(".", l + d, IsAsciiLetter);
    RunPrefixConcat(l, d, IsAsciiLetter);
    assert FirstRun(s, IsAsciiLetter) == Some(l);
    FirstRunSkip("." + l, d, IsDigit);
    RunPrefixConcat(d, "", IsDigit);
    assert d + "" == d;
    assert FirstRun(s, IsDigit) == Some(d);
    DigitsValueOfNatToString(row);
  }

  // ---------------------------------------------------------------------
  // inLimit.

  /** inLimit as written: the columns compared as Python strings. */
  function InLimitAsWritten(id: string, lower: string, upper: string): Result<bool, OdsError>
  {
    match (SplitId(id), SplitId(lower), SplitId(upper))
    case (Ok((idCol, idRow)), Ok((lowerCol, lowerRow)), Ok((upperCol, upperRow))) =>
      var colIn := PyLessEq(lowerCol, idCol) && PyLessEq(idCol, upperCol);
      if idRow == lowerRow || idRow == upperRow then Ok(colIn)
      else Ok(lowerRow < idRow < upperRow && colIn)
    case _ => Err(IndexError)
  }

  /** Column letters in column order: a shorter name first, names of one
      length alphabetically. */
  predicate ColumnLessEq(a: string, b: string)
  {
    |a| < |b| || (|a| == |b| && PyLessEq(a, b))
  }

  /** inLimit with the columns compared in column order. */
  function InLimit(id: string, lower: string, upper: string): Result<bool, OdsError>
  {
    match (SplitId(id), SplitId(lower), SplitId(upper))
    case (Ok((idCol, idRow)), Ok((lowerCol, lowerRow)), Ok((upperCol, upperRow))) =>
      var colIn := ColumnLessEq(lowerCol, idCol) && ColumnLessEq(idCol, upperCol);
      if idRow == lowerRow || idRow == upperRow then Ok(colIn)
      else Ok(lowerRow < idRow < upperRow && colIn)
    case _ => Err(IndexError)
  }

  /** Python's `a < b` on str. */
  predicate PyLess(a: string, b: string)
  {
    PyLessEq(a, b) && a != b
  }

  lemma {:induction false} PyLessEqRefl(a: string)
    ensures PyLessEq(a, a)
    decreases |a|
  {
    if |a| > 0 {
      PyLessEqRefl(a[1..]);
    }
  }

  lemma {:induction false} PyLessEqAntisymmetric(a: string, b: string)
    requires PyLessEq(a, b) && PyLessEq(b, a)
    ensures a == b
    decreases |a|
  {
    if |a| > 0 {
      PyLessEqAntisymmetric(a[1..], b[1..]);
      assert a == [a[0]] + a[1..] && b == [b[0]] + b[1..];
    }
  }

  /** Strings of one length compare by their first difference, so adding
      one character to each decides only a tie. */
  lemma {:induction false} PyLessEqSnoc(a: string, b: string, x: char, y: char)
    requires |a| == |b|
    ensures PyLessEq(a + [x], b + [y]) <==> PyLess(a, b) || (a == b && x <= y)
    decreases |a|
  {
    if |a| == 0 {
      assert a + [x] == [x] && b + [y] == [y];
      assert [x][1..] == [] && [y][1..] == [];
    } else {
      assert (a + [x])[0] == a[0] && (a + [x])[1..] == a[1..] + [x];
      assert (b + [y])[0] == b[0] && (b + [y])[1..] == b[1..] + [y];
      PyLessEqSnoc(a[1..], b[1..], x, y);
      assert a == [a[0]] + a[1..] && b == [b[0]] + b[1..];
    }
  }

  /** A later column has a later name in column order. */
  lemma {:induction false} LabelOrderStrict(i: nat, j: nat)
    requires i < j
    ensures |ColumnLabel(i)| < |ColumnLabel(j)|
      || (|ColumnLabel(i)| == |ColumnLabel(j)| && PyLess(ColumnLabel(i), ColumnLabel(j)))
    decreases j
  {
    if j < 26 {
      assert ColumnLabel(i) == [Letter(i)] && ColumnLabel(j) == [Letter(j)];
      assert ColumnLabel(i)[1..] == [] && ColumnLabel(j)[1..] == [];
    } else if i >= 26 {
      var pi, pj := ColumnLabel(i / 26 - 1), ColumnLabel(j / 26 - 1);
      if i / 26 < j / 26 {
        LabelOrderStrict(i / 26 - 1, j / 26 - 1);
        if |pi| == |pj| {
          PyLessEqSnoc(pi, pj, Letter(i % 26), Letter(j % 26));
          assert ColumnLabel(i)[..|pi|] == pi && ColumnLabel(j)[..|pj|] == pj;
        }
      } else {
        PyLessEqRefl(pi);
        PyLessEqSnoc(pi, pj, Letter(i % 26), Letter(j % 26));
        assert ColumnLabel(i)[|pi|] != ColumnLabel(j)[|pj|];
      }
    }
  }

  /** Column order on the names is the order of the columns. */
  lemma ColumnOrder(i: nat, j: nat)
    ensures ColumnLessEq(ColumnLabel(i), ColumnLabel(j)) <==> i <= j
  {
    if i == j {
      PyLessEqRefl(ColumnLabel(i));
    } else if i < j {
      LabelOrderStrict(i, j);
    } else {
      LabelOrderStrict(j, i);
      if ColumnLessEq(ColumnLabel(i), ColumnLabel(j)) {
        PyLessEqAntisymmetric(ColumnLabel(i), ColumnLabel(j));
      }
    }
  }

  /** On the ids of cells, the range test is membership of the rectangle
      whose corners are the range's ends. */
  lemma InLimitOfCellIds(col: nat, row: nat, col1: nat, row1: nat, col2: nat, row2: nat)
    requires row1 <= row2
    ensures InLimit(CellId(col, row).0, CellId(col1, row1).0, CellId(col2, row2).0)
      == Ok(col1 <= col <= col2 && row1 <= row <= row2)
  {
    InLimitOfSplitIds(col, row, col1, row1, col2, row2);
    ColumnOrder(col1, col);
    ColumnOrder(col, col2);
  }

  /** The range test on the ids of cells, with their column names and rows
      split out. */
  lemma InLimitOfSplitIds(col: nat, row: nat, col1: nat, row1: nat, col2: nat, row2: nat)
    ensures InLimit(CellId(col, row).0, CellId(col1, row1).0, CellId(col2, row2).0)
      == var colIn := ColumnLessEq(ColumnLabel(col1), ColumnLabel(col)) && ColumnLessEq(ColumnLabel(col), ColumnLabel(col2));
         if row == row1 || row == row2 then Ok(colIn) else Ok(row1 < row < row2 && colIn)
  {
    SplitCellId(col, row);
    SplitCellId(col1, row1);
    SplitCellId(col2, row2);
  }

  /** As written, on the ids of cells the range test is membership of the
      rows between the ends, with the column names compared as strings. */
  lemma InLimitAsWrittenOfCellIds(col: nat, row: nat, col1: nat, row1: nat, col2: nat, row2: nat)
    requires row1 <= row2
    ensures InLimitAsWritten(CellId(col, row).0, CellId(col1, row1).0, CellId(col2, row2).0)
      == Ok(PyLessEq(ColumnLabel(col1), ColumnLabel(col)) && PyLessEq(ColumnLabel(col), ColumnLabel(col2))
            && row1 <= row <= row2)
  {
    SplitCellId(col, row);
    SplitCellId(col1, row1);
    SplitCellId(col2, row2);
    var colIn := PyLessEq(ColumnLabel(col1), ColumnLabel(col)) && PyLessEq(ColumnLabel(col), ColumnLabel(col2));
    assert InLimitAsWritten(CellId(col, row).0, CellId(col1, row1).0, CellId(col2, row2).0)
      == if row == row1 || row == row2 then Ok(colIn) else Ok(row1 < row < row2 && colIn);
  }

  /** When the three column names have one length (every column below 26,
      say), the test as written is the rectangle test. */
  lemma InLimitAsWrittenOneLength(col: nat, row: nat, col1: nat, row1: nat, col2: nat, row2: nat)
    requires row1 <= row2
    requires |ColumnLabel(col)| == |ColumnLabel(col1)| == |ColumnLabel(col2)|
    ensures InLimitAsWritten(CellId(col, row).0, CellId(col1, row1).0, CellId(col2, row2).0)
      == Ok(col1 <= col <= col2 && row1 <= row <= row2)
  {
    InLimitAsWrittenOfCellIds(col, row, col1, row1, col2, row2);
    ColumnOrder(col1, col);
    ColumnOrder(col, col2);
  }

  /** As written, the range A1:B3 takes in column AA, which sorts between
      `A` and `B` as a string. */
  lemma InLimitAsWrittenExample()
    ensures CellId(26, 1).0 == ".AA1" && CellId(0, 1).0 == ".A1" && CellId(1, 3).0 == ".B3"
    ensures InLimitAsWritten(".AA1", ".A1", ".B3") == Ok(true)
    ensures InLimit(".AA1", ".A1", ".B3") == Ok(false)
  {
    ExampleIds();
    SplitCellId(26, 1);
    SplitCellId(0, 1);
    SplitCellId(1, 3);
    assert PyLessEq("A", "AA") && PyLessEq("AA", "B");
    InLimitOfCellIds(26, 1, 0, 1, 1, 3);
  }

  lemma ExampleIds()
    ensures CellId(26, 1) == (".AA1", "AA") && CellId(0, 1) == (".A1", "A") && CellId(1, 3) == (".B3", "B")
  {
    LabelExamples();
    assert ColumnLabel(0) == [Letter(0)] == "A";
    assert ColumnLabel(1) == [Letter(1)] == "B";
    assert NatToString(1) == [DigitChar(1)] == "1";
    assert NatToString(3) == [DigitChar(3)] == "3";
    assert "." + "AA" + "1" == ".AA1";
    assert "." + "A" + "1" == ".A1";
    assert "." + "B" + "3" == ".B3";
  }
}
