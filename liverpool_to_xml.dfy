/** The uk.ac.liverpool ToXML converter's dependency graph. parseFormula files
    each formula under every cell it reads and, for a read cell that holds a
    formula itself, files the reader as one of that cell's parents (a list
    per cell). A plain cell's annotation is found by visit, which collects
    the formulas reading the cell, then their parents, level by level; by
    cleanup, which drops repeated addresses keeping the rightmost copy; and
    by joining their rendered texts with " || ". */
module LiverpoolToXml {
  import opened Wrappers
  import opened Text
  import opened CellLabels
  import opened FormulaRenderer
  import opened Dependencies
  import opened ColumnBounds

  /** visit recurses once per level; on a cyclic parent graph it never
      stops, and the JVM ends it with a StackOverflowError. */
  datatype VisitError = StackOverflow

  /** The parents of the given formulas, list after list, in order. */
  function Parents(crToParent: map<string, seq<string>>, cfrl: seq<string>): seq<string>
    decreases |cfrl|
  {
    if |cfrl| == 0 then []
    else Parents(crToParent, cfrl[..|cfrl| - 1]) + Entry(crToParent, cfrl[|cfrl| - 1])
  }

  /** What visit appends to refs: this level, then the levels of their
      parents, with `depth` stack frames available. */
  function Levels(crToParent: map<string, seq<string>>, cfrl: seq<string>, depth: nat): Result<seq<string>, VisitError>
    decreases depth
  {
    if depth == 0 then Err(StackOverflow)
    else
      var parents := Parents(crToParent, cfrl);
      if |parents| == 0 then Ok(cfrl)
      else
        match Levels(crToParent, parents, depth - 1)
        case Err(e) => Err(e)
        case Ok(rest) => Ok(cfrl + rest)
  }

  // ---------------------------------------------------------------------
  // cleanup: duplicates removed from the right.

  /** Each value at its last position only, in the original order. */
  function KeepLast(s: seq<string>): seq<string>
    decreases |s|
  {
    if |s| == 0 then []
    else if s[0] in s[1..] then KeepLast(s[1..])
    else [s[0]] + KeepLast(s[1..])
  }

  function RemoveAll(s: seq<string>, x: string): (r: seq<string>)
    ensures x !in r
    ensures forall y :: y in r <==> y in s && y != x
    decreases |s|
  {
    if |s| == 0 then []
    else if s[0] == x then RemoveAll(s[1..], x)
    else [s[0]] + RemoveAll(s[1..], x)
  }

  /** One backward step of cleanup: the entry at i survives exactly when
      it does not occur again to its right. */
  lemma KeepLastCons(s: seq<string>, i: nat)
    requires i < |s|
    ensures s[i..][0] == s[i] && s[i..][1..] == s[i + 1..]
    ensures KeepLast(s[i..]) == if s[i] in s[i + 1..] then KeepLast(s[i + 1..]) else [s[i]] + KeepLast(s[i + 1..])
  {
    assert s[i..][1..] == s[i + 1..];
  }

  /** cleanup leaves no value twice and loses no value. */
  lemma {:induction false} KeepLastNoDupSameValues(s: seq<string>)
    ensures NoDup(KeepLast(s))
    ensures forall x :: x in KeepLast(s) <==> x in s
    decreases |s|
  {
    if |s| > 0 {
      KeepLastNoDupSameValues(s[1..]);
      assert s == [s[0]] + s[1..];
      forall x ensures x in s <==> x == s[0] || x in s[1..] {
      }
    }
  }

  /** cleanup leaves a list without duplicates as it is. */
  lemma {:induction false} KeepLastOfNoDup(s: seq<string>)
    requires NoDup(s)
    ensures KeepLast(s) == s
    decreases |s|
  {
    if |s| > 0 {
      assert s[0] !in s[1..] by {
        forall j | 0 <= j < |s[1..]| ensures s[1..][j] != s[0] {
          assert s[1..][j] == s[j + 1];
        }
      }
      assert NoDup(s[1..]) by {
        forall i, j | 0 <= i < j < |s[1..]| ensures s[1..][i] != s[1..][j] {
          assert s[1..][i] == s[i + 1] && s[1..][j] == s[j + 1];
        }
      }
      KeepLastOfNoDup(s[1..]);
    }
  }

  /** Running cleanup twice is running it once. */
  lemma KeepLastIdempotent(s: seq<string>)
    ensures KeepLast(KeepLast(s)) == KeepLast(s)
  {
    KeepLastNoDupSameValues(s);
    KeepLastOfNoDup(KeepLast(s));
  }

  /** The copy that survives is the rightmost: a value appended last ends
      the cleaned list, and its earlier copies are gone. */
  lemma {:induction false} KeepLastSnoc(s: seq<string>, x: string)
    ensures KeepLast(s + [x]) == RemoveAll(KeepLast(s), x) + [x]
    decreases |s|
  {
    if |s| == 0 {
      assert [x][1..] == [];
    } else {
      var t := s[1..];
      assert (s + [x])[0] == s[0] && (s + [x])[1..] == t + [x];
      KeepLastSnoc(t, x);
      assert s[0] in t + [x] <==> s[0] in t || s[0] == x;
      if s[0] == x {
        KeepLastNoDupSameValues(t);
      }
    }
  }

  lemma KeepLastExample()
    ensures KeepLast(["X", "Y", "X", "Z"]) == ["Y", "X", "Z"]
  {
    var s := ["X", "Y", "X", "Z"];
    assert s[1..] == ["Y", "X", "Z"] && s[1..][1..] == ["X", "Z"] && s[1..][1..][1..] == ["Z"];
    assert ["Z"][1..] == [];
    assert KeepLast(["Z"]) == ["Z"];
    assert KeepLast(["X", "Z"]) == ["X", "Z"];
    assert "Y" !in ["X", "Z"];
    assert KeepLast(["Y", "X", "Z"]) == ["Y", "X", "Z"];
  }

  // ---------------------------------------------------------------------
  // visit.

  lemma {:induction false} ParentsHaveChildren(crToParent: map<string, seq<string>>, cfrl: seq<string>)
    ensures forall x, p :: x in cfrl && p in Entry(crToParent, x) ==> p in Parents(crToParent, cfrl)
    ensures forall p :: p in Parents(crToParent, cfrl) ==> exists x :: x in cfrl && p in Entry(crToParent, x)
    ensures forall x :: x in cfrl ==> |Entry(crToParent, x)| <= |Parents(crToParent, cfrl)|
    decreases |cfrl|
  {
    if |cfrl| > 0 {
      var init := cfrl[..|cfrl| - 1];
      var last := cfrl[|cfrl| - 1];
      ParentsHaveChildren(crToParent, init);
      assert cfrl == init + [last];
      forall x ensures x in cfrl <==> x in init || x == last {
      }
    }
  }

  /** What visit collects is closed under the parent relation: with every
      formula it holds all the formulas that read it. */
  lemma {:induction false} LevelsClosed(crToParent: map<string, seq<string>>, cfrl: seq<string>, depth: nat)
    requires Levels(crToParent, cfrl, depth).Ok?
    ensures forall x, p :: (x in Levels(crToParent, cfrl, depth).value && p in Entry(crToParent, x)
      ==> p in Levels(crToParent, cfrl, depth).value)
    decreases depth
  {
    var r := Levels(crToParent, cfrl, depth).value;
    var parents := Parents(crToParent, cfrl);
    ParentsHaveChildren(crToParent, cfrl);
    if |parents| > 0 {
      LevelsClosed(crToParent, parents, depth - 1);
      var rest := Levels(crToParent, parents, depth - 1).value;
      assert r == cfrl + rest;
      assert forall p :: p in parents ==> p in rest by {
        assert rest[..|parents|] == parents;
        forall p | p in parents ensures p in rest {
          var j :| 0 <= j < |parents| && parents[j] == p;
          assert rest[j] == p;
        }
      }
    } else {
      forall x | x in r ensures Entry(crToParent, x) == [] {
      }
    }
  }

  /** And it holds nothing else: each entry is one of the starting formulas
      or a parent of an entry. */
  lemma {:induction false} LevelsSound(crToParent: map<string, seq<string>>, cfrl: seq<string>, depth: nat)
    requires Levels(crToParent, cfrl, depth).Ok?
    ensures forall y :: (y in Levels(crToParent, cfrl, depth).value
      ==> y in cfrl || exists x :: x in Levels(crToParent, cfrl, depth).value && y in Entry(crToParent, x))
    decreases depth
  {
    var r := Levels(crToParent, cfrl, depth).value;
    var parents := Parents(crToParent, cfrl);
    if |parents| > 0 {
      ParentsHaveChildren(crToParent, cfrl);
      LevelsSound(crToParent, parents, depth - 1);
      var rest := Levels(crToParent, parents, depth - 1).value;
      assert r == cfrl + rest;
      forall y | y in r && y !in cfrl
        ensures exists x :: x in r && y in Entry(crToParent, x)
      {
        assert y in rest;
        if y in parents {
          var x :| x in cfrl && y in Entry(crToParent, x);
          assert x in r;
        } else {
          var x :| x in rest && y in Entry(crToParent, x);
          assert x in r;
        }
      }
    }
  }

  // ---------------------------------------------------------------------
  // The converter.

  class ToXml {
    var gotBounds: bool
    var firstColumn: int
    var endColumn: int
    /** every cell's readers, in the order their formulas were scanned */
    var cellsToFormula: map<string, seq<string>>
    /** every formula cell's readers */
    var crToParent: map<string, seq<string>>
    /** every formula's "[.cr]=text" */
    var cellToFormulaConverted: map<string, string>

    constructor ()
      ensures !gotBounds
      ensures cellsToFormula == map[] && crToParent == map[] && cellToFormulaConverted == map[]
    {
      gotBounds := false;
      firstColumn := 0;
      endColumn := 0;
      cellsToFormula := map[];
      crToParent := map[];
      cellToFormulaConverted := map[];
    }

    /** printSheetContent starts each sheet with fresh maps; the bounds are
        kept. */
    method BeginSheet()
      modifies this`cellsToFormula, this`crToParent, this`cellToFormulaConverted
      ensures cellsToFormula == map[] && crToParent == map[] && cellToFormulaConverted == map[]
    {
      cellsToFormula := map[];
      crToParent := map[];
      cellToFormulaConverted := map[];
    }

    /** ensureColumnBounds: computed once, from the first sheet it sees. */
    method EnsureColumnBounds(rows: seq<RowSpan>)
      modifies this`gotBounds, this`firstColumn, this`endColumn
      ensures gotBounds
      ensures old(gotBounds) ==> firstColumn == old(firstColumn) && endColumn == old(endColumn)
      ensures !old(gotBounds) ==> firstColumn == FirstColumn(rows) && endColumn == EndColumn(rows)
    {
      if gotBounds {
        return;
      }
      firstColumn := if |rows| > 0 then IntMax else 0;
      endColumn := 0;
      var i := 0;
      while i < |rows|
        invariant 0 <= i <= |rows|
        invariant firstColumn == if |rows| == 0 then 0 else MinFirst(rows[..i])
        invariant endColumn == MaxEnd(rows[..i])
      {
        assert rows[..i + 1][..i] == rows[..i];
        var row := rows[i];
        if row.firstCellNum >= 0 {
          firstColumn := if row.firstCellNum < firstColumn then row.firstCellNum else firstColumn;
          endColumn := if row.lastCellNum > endColumn then row.lastCellNum else endColumn;
        }
        i := i + 1;
      }
      assert rows[..|rows|] == rows;
      gotBounds := true;
    }

    /** One referenced cell: its formula reader as a parent, then the
        reader in the cell's list. */
    method Record(cr: string, ref: Reference)
      modifies this`cellsToFormula, this`crToParent
      ensures cellsToFormula == AppendTo(old(cellsToFormula), ref.key, cr)
      ensures crToParent == if ref.formulaCell.Some? then AppendTo(old(crToParent), ref.formulaCell.value, cr)
                            else old(crToParent)
    {
      if ref.formulaCell.Some? {
        var cr2 := ref.formulaCell.value;
        var ls := if cr2 in crToParent then crToParent[cr2] else [];
        crToParent := crToParent[cr2 := ls + [cr]];
      }
      var ls := if ref.key in cellsToFormula then cellsToFormula[ref.key] else [];
      cellsToFormula := cellsToFormula[ref.key := ls + [cr]];
    }

    /** The inner loop of an area reference: the rows of one column. */
    method RecordColumn(sheet: Sheet, cr: string, col: nat, firstRow: nat, lastRow: nat)
      returns (ok: bool, ghost column: seq<Reference>)
      modifies this`cellsToFormula, this`crToParent
      ensures (column, ok) == ColumnRefs(sheet, col, firstRow, lastRow + 1)
      ensures cellsToFormula == AppendAll(old(cellsToFormula), Keys(column), cr)
      ensures crToParent == AppendAll(old(crToParent), ParentKeys(column), cr)
    {
      ghost var m0 := cellsToFormula;
      ghost var p0 := crToParent;
      var k := firstRow;
      column := [];
      while k <= lastRow
        invariant firstRow <= k && (k <= lastRow + 1 || k == firstRow)
        invariant ColumnRefs(sheet, col, firstRow, k) == (column, true)
        invariant cellsToFormula == AppendAll(m0, Keys(column), cr)
        invariant crToParent == AppendAll(p0, ParentKeys(column), cr)
      {
        if k !in sheet.rows {
          ColumnSticks(sheet, col, firstRow, k + 1, lastRow + 1);
          return false, column;
        }
        var ref := CellReferenceTo(sheet, k, col, Label(k, col));
        FileStep(m0, p0, map[], column, ref, cr);
        Record(cr, ref);
        column := column + [ref];
        k := k + 1;
      }
      ok := true;
    }

    /** The maps hold what was there at m0 and p0, plus the filing of refs
        for formula cell cr. */
    ghost predicate Filed(m0: map<string, seq<string>>, p0: map<string, seq<string>>, refs: seq<Reference>, cr: string)
      reads this
    {
      cellsToFormula == AppendAll(m0, Keys(refs), cr) && crToParent == AppendAll(p0, ParentKeys(refs), cr)
    }

    /** One pass of the outer loop of an area reference: the area's
        references so far grow by column col's. */
    method RecordAreaColumn(sheet: Sheet, cr: string, firstRow: nat, firstCol: nat, col: nat, lastRow: nat, lastCol: nat,
                            ghost m0: map<string, seq<string>>, ghost p0: map<string, seq<string>>, ghost before: seq<Reference>)
      returns (ok: bool, ghost added: seq<Reference>)
      requires firstCol <= col <= lastCol
      requires AreaRefs(sheet, firstCol, col, firstRow, lastRow + 1) == (before, true)
      requires Filed(m0, p0, before, cr)
      modifies this`cellsToFormula, this`crToParent
      ensures ok ==> AreaRefs(sheet, firstCol, col + 1, firstRow, lastRow + 1) == (added, true)
      ensures !ok ==> AreaRefs(sheet, firstCol, lastCol + 1, firstRow, lastRow + 1) == (added, false)
      ensures Filed(m0, p0, added, cr)
    {
      ghost var column;
      ok, column := RecordColumn(sheet, cr, col, firstRow, lastRow);
      FileConcat(m0, p0, before, column, cr);
      added := before + column;
      if ok {
        AreaStep(sheet, firstCol, col, firstRow, lastRow + 1);
      } else {
        AreaStopsAt(sheet, firstCol, col, lastCol + 1, firstRow, lastRow + 1);
      }
    }

    /** The two loops of an area reference, columns outer, rows inner. */
    method RecordArea(sheet: Sheet, cr: string, firstRow: nat, firstCol: nat, lastRow: nat, lastCol: nat)
      returns (ok: bool, ghost added: seq<Reference>)
      modifies this`cellsToFormula, this`crToParent
      ensures (added, ok) == AreaRefs(sheet, firstCol, lastCol + 1, firstRow, lastRow + 1)
      ensures cellsToFormula == AppendAll(old(cellsToFormula), Keys(added), cr)
      ensures crToParent == AppendAll(old(crToParent), ParentKeys(added), cr)
    {
      ghost var m0 := cellsToFormula;
      ghost var p0 := crToParent;
      added := [];
      var i := firstCol;
      while i <= lastCol
        invariant firstCol <= i && (i <= lastCol + 1 || i == firstCol)
        invariant AreaRefs(sheet, firstCol, i, firstRow, lastRow + 1) == (added, true)
        invariant Filed(m0, p0, added, cr)
      {
        var colOk;
        colOk, added := RecordAreaColumn(sheet, cr, firstRow, firstCol, i, lastRow, lastCol, m0, p0, added);
        if !colOk {
          return false, added;
        }
        i := i + 1;
      }
      ok := true;
    }

    /** What parseFormula does with one token: a cell reference files that
        cell under its toFormulaString() text, `$` sigils included, an area
        reference every cell of the area under its relative label, anything
        else nothing. */
    method RecordToken(sheet: Sheet, cr: string, p: Ptg) returns (ok: bool, ghost more: seq<Reference>)
      modifies this`cellsToFormula, this`crToParent
      ensures (more, ok) == TokenRefs(sheet, p, FormulaText)
      ensures cellsToFormula == AppendAll(old(cellsToFormula), Keys(more), cr)
      ensures crToParent == AppendAll(old(crToParent), ParentKeys(more), cr)
    {
      if p.Ref? {
        if p.row !in sheet.rows {
          return false, [];
        }
        var ref := CellReferenceTo(sheet, p.row, p.col, RefKey(p, FormulaText));
        FileStep(old(cellsToFormula), old(crToParent), map[], [], ref, cr);
        assert [] + [ref] == [ref];
        Record(cr, ref);
        return true, [ref];
      } else if p.Area? {
        ok, more := RecordArea(sheet, cr, p.firstRow, p.firstCol, p.lastRow, p.lastCol);
      } else {
        return true, [];
      }
    }

    /** parseFormula for the formula in (row, col): the references filed, and
        the converted text stored when both the scan and the rendering
        complete. */
    method ParseFormula(sheet: Sheet, row: nat, col: nat, ptgs: seq<Ptg>) returns (completed: bool)
      modifies this`cellsToFormula, this`crToParent, this`cellToFormulaConverted
      ensures cellsToFormula == AppendAll(old(cellsToFormula), Keys(ScanRefs(sheet, ptgs, FormulaText).0), Label(row, col))
      ensures crToParent == AppendAll(old(crToParent), ParentKeys(ScanRefs(sheet, ptgs, FormulaText).0), Label(row, col))
      ensures completed <==> ScanRefs(sheet, ptgs, FormulaText).1 && Render(ptgs).Ok?
      ensures completed ==> (cellToFormulaConverted
        == old(cellToFormulaConverted)[Label(row, col) := "[." + Label(row, col) + "]=" + Render(ptgs).value])
      ensures !completed ==> cellToFormulaConverted == old(cellToFormulaConverted)
    {
      var cr := Label(row, col);
      ghost var m0 := cellsToFormula;
      ghost var p0 := crToParent;
      ghost var refs: seq<Reference> := [];
      var t := 0;
      while t < |ptgs|
        invariant 0 <= t <= |ptgs|
        invariant ScanRefs(sheet, ptgs[..t], FormulaText) == (refs, true)
        invariant cellsToFormula == AppendAll(m0, Keys(refs), cr)
        invariant crToParent == AppendAll(p0, ParentKeys(refs), cr)
        invariant cellToFormulaConverted == old(cellToFormulaConverted)
      {
        var ok, more := RecordToken(sheet, cr, ptgs[t]);
        ScanStep(sheet, ptgs, FormulaText, t);
        FileConcat(m0, p0, refs, more, cr);
        refs := refs + more;
        if !ok {
          ScanSticks(sheet, ptgs, FormulaText, t + 1);
          return false;
        }
        t := t + 1;
      }
      assert ptgs[..t] == ptgs;
      var rendered := ToFormulaString(ptgs);
      if rendered.Err? {
        return false;
      }
      cellToFormulaConverted := cellToFormulaConverted[cr := "[." + cr + "]=" + rendered.value];
      completed := true;
    }

    /** visit(cfrl, refs): appends this level to refs, then visits the
        parents of the level. */
    method Visit(cfrl: seq<string>, refs: seq<string>, depth: nat) returns (r: Result<seq<string>, VisitError>)
      ensures r.Err? <==> Levels(crToParent, cfrl, depth).Err?
      ensures r.Err? ==> r.error == Levels(crToParent, cfrl, depth).error
      ensures r.Ok? ==> r.value == refs + Levels(crToParent, cfrl, depth).value
      decreases depth
    {
      if depth == 0 {
        return Err(StackOverflow);
      }
      var parents, out := CollectParents(cfrl, refs);
      if |parents| > 0 {
        r := Visit(parents, out, depth - 1);
        ghost var sub := Levels(crToParent, parents, depth - 1);
        if sub.Ok? {
          assert Levels(crToParent, cfrl, depth) == Ok(cfrl + sub.value);
          assert r.value == refs + (cfrl + sub.value);
        } else {
          assert Levels(crToParent, cfrl, depth) == Err(sub.error);
        }
      } else {
        assert Levels(crToParent, cfrl, depth) == Ok(cfrl);
        r := Ok(out);
      }
    }

    /** The for-loop of visit: every reference of the level goes to refs,
        and the parents recorded for it are gathered for the next level. */
    method CollectParents(cfrl: seq<string>, refs: seq<string>) returns (parents: seq<string>, out: seq<string>)
      ensures parents == Parents(crToParent, cfrl)
      ensures out == refs + cfrl
    {
      parents := [];
      out := refs;
      var i := 0;
      while i < |cfrl|
        invariant 0 <= i <= |cfrl|
        invariant parents == Parents(crToParent, cfrl[..i])
        invariant out == refs + cfrl[..i]
      {
        assert cfrl[..i + 1][..i] == cfrl[..i] && cfrl[..i + 1][i] == cfrl[i];
        var cfr := cfrl[i];
        if cfr in crToParent {
          parents := parents + crToParent[cfr];
        } else {
          assert parents + [] == parents;
        }
        out := out + [cfr];
        i := i + 1;
      }
      assert cfrl[..i] == cfrl;
    }

    /** cleanup(refs): a backward scan that removes an entry already seen
        to its right. */
    static method Cleanup(refs: seq<string>) returns (r: seq<string>)
      ensures r == KeepLast(refs)
    {
      var visited: set<string> := {};
      r := refs;
      var i := |refs|;
      while i > 0
        invariant 0 <= i <= |refs|
        invariant r == refs[..i] + KeepLast(refs[i..])
        invariant forall x :: x in visited <==> x in refs[i..]
      {
        i := i - 1;
        ghost var kept := KeepLast(refs[i + 1..]);
        assert r == refs[..i] + ([refs[i]] + kept) by {
          assert refs[..i + 1] == refs[..i] + [refs[i]];
        }
        var h := r[i];
        KeepLastCons(refs, i);
        if h in visited {
          assert r[..i] == refs[..i] && r[i + 1..] == kept;
          r := r[..i] + r[i + 1..];
        } else {
          visited := visited + {h};
          assert r == refs[..i] + KeepLast(refs[i..]);
        }
      }
      assert refs[..0] == [];
    }

    /** The annotation loop: each converted text followed by " || ", the last
        four characters cut off, nothing when the list is empty. */
    method AnnotationText(refs: seq<string>) returns (r: Option<string>)
      ensures r == Annotation(cellToFormulaConverted, refs)
    {
      var formula := "";
      var i := 0;
      while i < |refs|
        invariant 0 <= i <= |refs|
        invariant formula == Terminated(ConvertedTexts(cellToFormulaConverted, refs[..i]), " || ")
      {
        ghost var done := ConvertedTexts(cellToFormulaConverted, refs[..i]);
        assert refs[..i + 1][..i] == refs[..i] && refs[..i + 1][i] == refs[i];
        assert ConvertedTexts(cellToFormulaConverted, refs[..i + 1]) == done + [ConvertedText(cellToFormulaConverted, refs[i])];
        var s := refs[i];
        formula := formula + (if s in cellToFormulaConverted then cellToFormulaConverted[s] else "null");
        formula := formula + " || ";
        assert (done + [ConvertedText(cellToFormulaConverted, refs[i])])[..|done|] == done;
        i := i + 1;
      }
      assert refs[..i] == refs;
      if |refs| > 0 {
        ghost var texts := ConvertedTexts(cellToFormulaConverted, refs);
        TerminatedIsJoinPlusSep(texts, " || ");
        assert formula[..|formula| - 4] == Join(texts, " || ");
      }
      if |formula| > 0 {
        r := Some(formula[..|formula| - 4]);
      } else {
        r := None;
      }
    }

    /** A plain cell's `formula` attribute: the cell's readers and all their
        parents, cleaned up and joined. */
    method FormulaAnnotation(cr: string, depth: nat) returns (r: Result<Option<string>, VisitError>)
      ensures cr !in cellsToFormula ==> r == Ok(None)
      ensures cr in cellsToFormula ==> (r ==
        match Levels(crToParent, cellsToFormula[cr], depth)
        case Err(e) => Err(e)
        case Ok(refs) => Ok(Annotation(cellToFormulaConverted, KeepLast(refs))))
    {
      if cr !in cellsToFormula {
        return Ok(None);
      }
      var cfrl := cellsToFormula[cr];
      var visited := Visit(cfrl, [], depth);
      if visited.Err? {
        return Err(visited.error);
      }
      assert [] + Levels(crToParent, cfrl, depth).value == Levels(crToParent, cfrl, depth).value;
      var refs := Cleanup(visited.value);
      var text := AnnotationText(refs);
      r := Ok(text);
    }
  }

  /** Each formula address appears once in an annotation, and every formula
      that reads the cell directly or through parents is there. */
  lemma AnnotationCoversReaders(crToParent: map<string, seq<string>>, cfrl: seq<string>, depth: nat)
    requires Levels(crToParent, cfrl, depth).Ok?
    ensures NoDup(KeepLast(Levels(crToParent, cfrl, depth).value))
    ensures forall x :: x in cfrl ==> x in KeepLast(Levels(crToParent, cfrl, depth).value)
    ensures forall x, p :: (x in KeepLast(Levels(crToParent, cfrl, depth).value) && p in Entry(crToParent, x)
      ==> p in KeepLast(Levels(crToParent, cfrl, depth).value))
  {
    var r := Levels(crToParent, cfrl, depth).value;
    KeepLastNoDupSameValues(r);
    LevelsClosed(crToParent, cfrl, depth);
    forall x | x in cfrl ensures x in r {
      var j :| 0 <= j < |cfrl| && cfrl[j] == x;
      assert r[j] == x;
    }
  }
}
