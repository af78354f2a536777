/** Spreadsheet address labels: the bijective base-26 column letters
    (0 -> A, 25 -> Z, 26 -> AA) and the A1-style cell label that
    CellReference.formatAsString produces for a sheet-local reference,
    with `$` before an absolute column or row. These labels are the keys of
    every dependency map. */
module CellLabels {
  import opened Text

  function Letter(d: nat): (c: char)
    requires d < 26
    ensures IsUpper(c)
  {
    (('A' as int) + d) as char
  }

  function LetterValue(c: char): (d: nat)
    requires IsUpper(c)
    ensures d < 26
  {
    (c as int) - ('A' as int)
  }

  predicate AllUpper(s: string) { forall i :: 0 <= i < |s| ==> IsUpper(s[i]) }

  /** The column letters of zero-based column c. */
  function ColumnLabel(c: nat): (s: string)
    ensures |s| > 0 && AllUpper(s)
    decreases c
  {
    if c < 26 then [Letter(c)] else ColumnLabel(c / 26 - 1) + [Letter(c % 26)]
  }

  /** The zero-based column that a string of capital letters names. */
  function ColumnIndex(s: string): nat
    requires |s| > 0 && AllUpper(s)
    decreases |s|
  {
    if |s| == 1 then LetterValue(s[0])
    else (ColumnIndex(s[..|s| - 1]) + 1) * 26 + LetterValue(s[|s| - 1])
  }

  /** Reading a column label back gives the column. */
  lemma {:induction false} ColumnIndexOfLabel(c: nat)
    ensures ColumnIndex(ColumnLabel(c)) == c
    decreases c
  {
    if c >= 26 {
      var s := ColumnLabel(c);
      ColumnIndexOfLabel(c / 26 - 1);
      assert s[..|s| - 1] == ColumnLabel(c / 26 - 1);
    }
  }

  /** Every non-empty string of capital letters is the label of its column,
      so labels and columns are in one-to-one correspondence. */
  lemma {:induction false} ColumnLabelOfIndex(s: string)
    requires |s| > 0 && AllUpper(s)
    ensures ColumnLabel(ColumnIndex(s)) == s
    decreases |s|
  {
    if |s| > 1 {
      var init, last := s[..|s| - 1], s[|s| - 1];
      assert AllUpper(init) by {
        forall i | 0 <= i < |init| ensures IsUpper(init[i]) { assert init[i] == s[i]; }
      }
      ColumnLabelOfIndex(init);
      var v := LetterValue(last);
      assert ColumnIndex(s) == (ColumnIndex(init) + 1) * 26 + v;
      ColumnLabelStep(ColumnIndex(init), v);
      assert Letter(v) == last;
      assert s == init + [last];
    }
  }

  /** One more letter: the label of (q + 1) * 26 + v is the label of q
      followed by the letter of v. */
  lemma ColumnLabelStep(q: nat, v: nat)
    requires v < 26
    ensures ColumnLabel((q + 1) * 26 + v) == ColumnLabel(q) + [Letter(v)]
  {
    var c := (q + 1) * 26 + v;
    assert c / 26 == q + 1 && c % 26 == v;
  }

  lemma ColumnLabelInjective(a: nat, b: nat)
    requires ColumnLabel(a) == ColumnLabel(b)
    ensures a == b
  {
    ColumnIndexOfLabel(a);
    ColumnIndexOfLabel(b);
  }

  /** CellReference(row, col, rowAbsolute, colAbsolute).formatAsString() for
      zero-based row and column: the row is shown one-based. */
  function CellLabel(row: nat, col: nat, rowAbs: bool, colAbs: bool): string
  {
    (if colAbs then "$" else "") + ColumnLabel(col) + (if rowAbs then "$" else "") + NatToString(row + 1)
  }

  /** The label of a cell with relative row and column, e.g. (0, 0) -> "A1":
      what CellReference(row, col) and CellReference(cell) format as. */
  function Label(row: nat, col: nat): string
  {
    CellLabel(row, col, false, false)
  }

  lemma CharAfterPrefix(l: string, d: string)
    requires |d| > 0
    ensures (l + d)[|l|] == d[0]
  {
  }

  /** A string of letters followed by a string of digits splits in one way only. */
  lemma LettersDigitsSplit(l1: string, d1: string, l2: string, d2: string)
    requires AllUpper(l1) && AllUpper(l2) && |d1| > 0 && |d2| > 0 && AllDigits(d1) && AllDigits(d2)
    requires l1 + d1 == l2 + d2
    ensures l1 == l2 && d1 == d2
  {
    var s := l1 + d1;
    if |l1| < |l2| {
      CharAfterPrefix(l1, d1);
      assert false;
    } else if |l2| < |l1| {
      CharAfterPrefix(l2, d2);
      assert false;
    } else {
      assert l1 == s[..|l1|] == l2;
      assert d1 == s[|l1|..] == d2;
    }
  }

  /** A relative label is the column letters followed by the row digits. */
  lemma LabelParts(r: nat, c: nat)
    ensures Label(r, c) == ColumnLabel(c) + NatToString(r + 1)
  {
    var l, d := ColumnLabel(c), NatToString(r + 1);
    assert "" + l + "" + d == l + d;
  }

  /** Distinct cells have distinct labels, so a label names one cell. */
  lemma {:induction false} LabelInjective(r1: nat, c1: nat, r2: nat, c2: nat)
    requires Label(r1, c1) == Label(r2, c2)
    ensures r1 == r2 && c1 == c2
  {
    LabelParts(r1, c1);
    LabelParts(r2, c2);
    LettersDigitsSplit(ColumnLabel(c1), NatToString(r1 + 1), ColumnLabel(c2), NatToString(r2 + 1));
    ColumnLabelInjective(c1, c2);
    NatToStringInjective(r1 + 1, r2 + 1);
  }

  /** Spreadsheet examples of the labelling rule. */
  lemma LabelExamples()
    ensures Label(0, 0) == "A1"
    ensures Label(5, 2) == "C6"
    ensures ColumnLabel(25) == "Z" && ColumnLabel(26) == "AA" && ColumnLabel(52) == "BA"
    ensures CellLabel(0, 0, true, true) == "$A$1"
  {
  }
}
