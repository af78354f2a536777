/** The org.apache.poi.ss.examples.html ToXML converter's dependency graph.
    parseFormula files each formula under every cell it reads, as the
    uk.ac.liverpool converter does, but keeps ONE reader per formula cell:
    `crToParent.put(cr2, cr)` overwrites, so the last formula scanned that
    reads a formula cell is its only parent. A plain cell's annotation walks,
    for each formula reading the cell, the chain of parents up to a cell
    with none, writing each formula not written yet. */
module PoiToXml {
  import opened Wrappers
  import opened Text
  import opened CellLabels
  import opened FormulaRenderer
  import opened Dependencies
  import opened ColumnBounds

  /** The walk follows parents until a cell has none; on a circular
      reference it never gets there, and the source loops for ever. The
      model gives each chain a step budget and reports running out. */
  datatype WalkError = Diverges

  // ---------------------------------------------------------------------
  // The walk.

  /** The chain from x: x, its parent, the parent's parent, ... up to a cell
      without parent; None when it is longer than `budget`. */
  function Chain(crToParent: map<string, string>, x: string, budget: nat): Option<seq<string>>
    decreases budget
  {
    if budget == 0 then None
    else if x !in crToParent then Some([x])
    else
      match Chain(crToParent, crToParent[x], budget - 1)
      case None => None
      case Some(c) => Some([x] + c)
  }

  /** The chain from the current position of the inner loop, where None is
      Java's null. */
  function ChainFrom(crToParent: map<string, string>, cur: Option<string>, budget: nat): Option<seq<string>>
  {
    match cur
    case None => Some([])
    case Some(x) => Chain(crToParent, x, budget)
  }

  /** The parent of x, None when it has none: `crToParent.get(x)`. */
  function ParentOf(crToParent: map<string, string>, x: string): Option<string>
  {
    if x in crToParent then Some(crToParent[x]) else None
  }

  /** Walking ys, each one not written yet is written. */
  function Emit(emitted: seq<string>, ys: seq<string>): seq<string>
    decreases |ys|
  {
    if |ys| == 0 then emitted
    else if ys[0] in emitted then Emit(emitted, ys[1..])
    else Emit(emitted + [ys[0]], ys[1..])
  }

  /** What the inner loop has written once it reaches the end of the chain
      from cur. */
  function WalkChain(crToParent: map<string, string>, emitted: seq<string>, cur: Option<string>, budget: nat): Option<seq<string>>
  {
    match ChainFrom(crToParent, cur, budget)
    case None => None
    case Some(c) => Some(Emit(emitted, c))
  }

  /** The outer loop: the chain of every reader in turn, each with the step
      budget `fuel`. */
  function WalkAll(crToParent: map<string, string>, emitted: seq<string>, cfrl: seq<string>, fuel: nat): Option<seq<string>>
    decreases |cfrl|
  {
    if |cfrl| == 0 then Some(emitted)
    else
      match WalkChain(crToParent, emitted, Some(cfrl[0]), fuel)
      case None => None
      case Some(next) => WalkAll(crToParent, next, cfrl[1..], fuel)
  }

  /** The text the source builds: each written formula's converted text,
      followed by " || " exactly when that formula has a parent. */
  function Glued(crToParent: map<string, string>, converted: map<string, string>, emitted: seq<string>): string
    decreases |emitted|
  {
    if |emitted| == 0 then ""
    else
      var last := emitted[|emitted| - 1];
      Glued(crToParent, converted, emitted[..|emitted| - 1])
        + ConvertedText(converted, last) + (if last in crToParent then " || " else "")
  }

  /** `if (formula.length() > 0)`: the attribute, absent when empty. */
  function NonEmpty(s: string): Option<string>
  {
    if |s| > 0 then Some(s) else None
  }

  // ---------------------------------------------------------------------
  // Properties of the walk.

  /** A chain starts at x, steps from each cell to its parent, and ends at
      a cell without parent. */
  lemma {:induction false} ChainShape(crToParent: map<string, string>, x: string, budget: nat)
    requires Chain(crToParent, x, budget).Some?
    ensures var c := Chain(crToParent, x, budget).value;
      0 < |c| <= budget && c[0] == x && c[|c| - 1] !in crToParent
      && forall j :: 0 <= j < |c| - 1 ==> c[j] in crToParent && crToParent[c[j]] == c[j + 1]
    decreases budget
  {
    if x in crToParent {
      ChainShape(crToParent, crToParent[x], budget - 1);
      var c := Chain(crToParent, crToParent[x], budget - 1).value;
      assert Chain(crToParent, x, budget).value == [x] + c;
    }
  }

  /** Two formulas that read each other: the chain from either never ends,
      whatever the budget. */
  lemma {:induction false} CircularNeverEnds(crToParent: map<string, string>, x: string, y: string, budget: nat)
    requires x in crToParent && crToParent[x] == y
    requires y in crToParent && crToParent[y] == x
    ensures Chain(crToParent, x, budget).None?
    decreases budget
  {
    if budget > 1 {
      CircularNeverEnds(crToParent, x, y, budget - 2);
    }
  }

  /** Emit keeps what was written, writes every value of ys, nothing else,
      and never a value twice. */
  lemma {:induction false} EmitFacts(emitted: seq<string>, ys: seq<string>)
    ensures |emitted| <= |Emit(emitted, ys)| && Emit(emitted, ys)[..|emitted|] == emitted
    ensures forall y :: y in Emit(emitted, ys) <==> y in emitted || y in ys
    ensures NoDup(emitted) ==> NoDup(Emit(emitted, ys))
    decreases |ys|
  {
    if |ys| > 0 {
      var next := if ys[0] in emitted then emitted else emitted + [ys[0]];
      EmitFacts(next, ys[1..]);
      assert next[..|emitted|] == emitted;
      assert ys == [ys[0]] + ys[1..];
      forall y ensures y in ys <==> y == ys[0] || y in ys[1..] {
      }
    }
  }

  /** Everything written, with every cell's parent. */
  predicate ParentClosed(crToParent: map<string, string>, s: seq<string>)
  {
    forall x :: x in s && x in crToParent ==> crToParent[x] in s
  }

  /** The walk writes no formula twice. */
  lemma {:induction false} WalkAllNoDup(crToParent: map<string, string>, emitted: seq<string>, cfrl: seq<string>, fuel: nat)
    requires WalkAll(crToParent, emitted, cfrl, fuel).Some?
    requires NoDup(emitted)
    ensures NoDup(WalkAll(crToParent, emitted, cfrl, fuel).value)
    decreases |cfrl|
  {
    if |cfrl| > 0 {
      var c := Chain(crToParent, cfrl[0], fuel).value;
      EmitFacts(emitted, c);
      WalkAllNoDup(crToParent, Emit(emitted, c), cfrl[1..], fuel);
    }
  }

  /** The walk keeps what was written and writes every reader. */
  lemma {:induction false} WalkAllCovers(crToParent: map<string, string>, emitted: seq<string>, cfrl: seq<string>, fuel: nat)
    requires WalkAll(crToParent, emitted, cfrl, fuel).Some?
    ensures forall x :: x in emitted || x in cfrl ==> x in WalkAll(crToParent, emitted, cfrl, fuel).value
    decreases |cfrl|
  {
    if |cfrl| > 0 {
      var c := Chain(crToParent, cfrl[0], fuel).value;
      ChainShape(crToParent, cfrl[0], fuel);
      var next := Emit(emitted, c);
      EmitFacts(emitted, c);
      WalkAllCovers(crToParent, next, cfrl[1..], fuel);
      var r := WalkAll(crToParent, emitted, cfrl, fuel).value;
      forall x | x in emitted || x in cfrl ensures x in r {
        if x !in emitted && x != cfrl[0] {
          var j :| 0 <= j < |cfrl| && cfrl[j] == x;
          assert cfrl[1..][j - 1] == x;
        }
      }
    }
  }

  /** The walk writes the parent of every formula it writes. */
  lemma {:induction false} WalkAllParentClosed(crToParent: map<string, string>, emitted: seq<string>, cfrl: seq<string>, fuel: nat)
    requires WalkAll(crToParent, emitted, cfrl, fuel).Some?
    requires ParentClosed(crToParent, emitted)
    ensures ParentClosed(crToParent, WalkAll(crToParent, emitted, cfrl, fuel).value)
    decreases |cfrl|
  {
    if |cfrl| > 0 {
      var c := Chain(crToParent, cfrl[0], fuel).value;
      ChainShape(crToParent, cfrl[0], fuel);
      var next := Emit(emitted, c);
      EmitFacts(emitted, c);
      forall x | x in next && x in crToParent ensures crToParent[x] in next {
        if x !in emitted {
          var j :| 0 <= j < |c| && c[j] == x;
          assert j < |c| - 1;
          assert c[j + 1] in c;
        }
      }
      WalkAllParentClosed(crToParent, next, cfrl[1..], fuel);
    }
  }

  /** And everything it writes is a reader or the parent of something it
      writes. */
  lemma {:induction false} WalkAllSound(crToParent: map<string, string>, emitted: seq<string>, cfrl: seq<string>, fuel: nat)
    requires WalkAll(crToParent, emitted, cfrl, fuel).Some?
    ensures forall y :: y in WalkAll(crToParent, emitted, cfrl, fuel).value ==>
      y in emitted || y in cfrl
      || exists x :: x in WalkAll(crToParent, emitted, cfrl, fuel).value && x in crToParent && crToParent[x] == y
    decreases |cfrl|
  {
    if |cfrl| > 0 {
      var r := WalkAll(crToParent, emitted, cfrl, fuel).value;
      var c := Chain(crToParent, cfrl[0], fuel).value;
      ChainShape(crToParent, cfrl[0], fuel);
      var next := Emit(emitted, c);
      EmitFacts(emitted, c);
      WalkAllSound(crToParent, next, cfrl[1..], fuel);
      WalkAllCovers(crToParent, next, cfrl[1..], fuel);
      forall y | y in r && y !in emitted && y !in cfrl
        ensures exists x :: x in r && x in crToParent && crToParent[x] == y
      {
        if y in next {
          var j :| 0 <= j < |c| && c[j] == y;
          assert j > 0;
          assert c[j - 1] in next;
        } else {
          assert y !in cfrl[1..];
        }
      }
    }
  }

  /** When every written formula but the last has a parent and the last
      has none, as in a walk along a single chain, the text the source
      builds is the texts joined with " || ". */
  lemma {:induction false} GluedOfChain(crToParent: map<string, string>, converted: map<string, string>, e: seq<string>)
    requires |e| > 0 && e[|e| - 1] !in crToParent
    requires forall j :: 0 <= j < |e| - 1 ==> e[j] in crToParent
    ensures Glued(crToParent, converted, e) == Join(ConvertedTexts(converted, e), " || ")
  {
    var init, x := e[..|e| - 1], e[|e| - 1];
    assert e == init + [x];
    if |init| > 0 {
      assert forall j :: 0 <= j < |init| ==> init[j] == e[j];
      GluedPlusSep(crToParent, converted, init);
    }
    JoinTextsSnoc(converted, init, x);
  }

  /** When every written formula has a parent, as in a chain cut before
      its end, the text is the join followed by one separator. */
  lemma {:induction false} GluedPlusSep(crToParent: map<string, string>, converted: map<string, string>, e: seq<string>)
    requires |e| > 0
    requires forall j :: 0 <= j < |e| ==> e[j] in crToParent
    ensures Glued(crToParent, converted, e) == Join(ConvertedTexts(converted, e), " || ") + " || "
    decreases |e|
  {
    var init, x := e[..|e| - 1], e[|e| - 1];
    assert e == init + [x];
    if |init| > 0 {
      assert forall j :: 0 <= j < |init| ==> init[j] == e[j];
      GluedPlusSep(crToParent, converted, init);
    }
    JoinTextsSnoc(converted, init, x);
  }

  /** Two readers without parents are written one after the other. */
  lemma SeparateChainsWalk()
    ensures WalkAll(map[], [], ["B1", "C1"], 1) == Some(["B1", "C1"])
  {
    var m: map<string, string> := map[];
    assert Chain(m, "B1", 1) == Some(["B1"]);
    assert Chain(m, "C1", 1) == Some(["C1"]);
    assert ["B1"][1..] == [] && ["C1"][1..] == [];
    assert Emit([], ["B1"]) == ["B1"];
    assert Emit(["B1"], ["C1"]) == ["B1", "C1"];
    assert ["B1", "C1"][1..] == ["C1"];
  }

  /** The source glues their texts together with no separator... */
  lemma SeparateChainsGlued()
    ensures Glued(map[], map["B1" := "[.B1]=1", "C1" := "[.C1]=2"], ["B1", "C1"]) == "[.B1]=1[.C1]=2"
  {
    var m: map<string, string> := map[];
    var conv := map["B1" := "[.B1]=1", "C1" := "[.C1]=2"];
    assert ["B1", "C1"][..1] == ["B1"];
    assert ConvertedText(conv, "B1") == "[.B1]=1" && ConvertedText(conv, "C1") == "[.C1]=2";
    assert Glued(m, conv, ["B1"]) == "" + "[.B1]=1" + "";
    assert Glued(m, conv, ["B1", "C1"]) == "[.B1]=1" + "[.C1]=2" + "";
  }

  /** ...where the joined annotation separates them. */
  lemma SeparateChainsJoined()
    ensures Annotation(map["B1" := "[.B1]=1", "C1" := "[.C1]=2"], ["B1", "C1"]) == Some("[.B1]=1 || [.C1]=2")
  {
    var conv := map["B1" := "[.B1]=1", "C1" := "[.C1]=2"];
    assert ["B1", "C1"][..1] == ["B1"];
    assert ConvertedText(conv, "B1") == "[.B1]=1" && ConvertedText(conv, "C1") == "[.C1]=2";
    assert ConvertedTexts(conv, ["B1", "C1"]) == ["[.B1]=1", "[.C1]=2"];
    assert Join(["[.B1]=1", "[.C1]=2"], " || ") == "[.B1]=1" + " || " + "[.C1]=2" by {
      assert ["[.B1]=1", "[.C1]=2"][..1] == ["[.B1]=1"];
    }
    assert "[.B1]=1" + " || " + "[.C1]=2" == "[.B1]=1 || [.C1]=2";
  }

  /** A reader whose parent was written already: the text ends with a
      dangling separator. */
  lemma TrailingSeparatorWalk()
    ensures WalkAll(map["A1" := "B1"], [], ["B1", "A1"], 2) == Some(["B1", "A1"])
  {
    var m := map["A1" := "B1"];
    assert "A1" in m && m["A1"] == "B1" && "B1" !in m;
    assert Chain(m, "B1", 2) == Some(["B1"]);
    assert Chain(m, "B1", 1) == Some(["B1"]);
    assert Chain(m, "A1", 2) == Some(["A1"] + ["B1"]);
    assert ["A1"] + ["B1"] == ["A1", "B1"];
    assert ["B1"][1..] == [] && ["A1", "B1"][1..] == ["B1"];
    assert Emit([], ["B1"]) == ["B1"];
    assert Emit(["B1"], ["A1", "B1"]) == ["B1", "A1"];
    assert ["B1", "A1"][1..] == ["A1"] && ["A1"][1..] == [];
  }

  lemma TrailingSeparatorGlued()
    ensures Glued(map["A1" := "B1"], map["A1" := "x", "B1" := "y"], ["B1", "A1"]) == "yx || "
  {
    var m := map["A1" := "B1"];
    var conv := map["A1" := "x", "B1" := "y"];
    assert "A1" in m && "B1" !in m;
    assert ["B1", "A1"][..1] == ["B1"];
    assert ConvertedText(conv, "B1") == "y" && ConvertedText(conv, "A1") == "x";
    assert Glued(m, conv, ["B1"]) == "" + "y" + "";
    assert Glued(m, conv, ["B1", "A1"]) == "y" + "x" + " || ";
  }

  /** The visited set and the written cells grow together. */
  lemma VisitedSnoc(visited: set<string>, emitted: seq<string>, x: string)
    requires forall y :: y in visited <==> y in emitted
    ensures forall y :: y in visited + {x} <==> y in emitted + [x]
  {
    forall y ensures y in visited + {x} <==> y in emitted + [x] {
      assert y in emitted + [x] <==> y in emitted || y == x;
    }
  }

  /** Writing one more formula into the text the source builds. */
  lemma GluedSnoc(crToParent: map<string, string>, converted: map<string, string>, emitted: seq<string>, x: string)
    ensures Glued(crToParent, converted, emitted + [x])
      == Glued(crToParent, converted, emitted) + ConvertedText(converted, x) + (if x in crToParent then " || " else "")
  {
    assert (emitted + [x])[..|emitted|] == emitted;
  }

  /** Writing one more formula into the joined annotation. */
  lemma JoinTextsSnoc(converted: map<string, string>, emitted: seq<string>, x: string)
    ensures Join(ConvertedTexts(converted, emitted + [x]), " || ")
      == if |emitted| == 0 then ConvertedText(converted, x)
         else Join(ConvertedTexts(converted, emitted), " || ") + " || " + ConvertedText(converted, x)
  {
    var texts := ConvertedTexts(converted, emitted + [x]);
    assert (emitted + [x])[..|emitted|] == emitted;
    assert texts == ConvertedTexts(converted, emitted) + [ConvertedText(converted, x)];
    if |emitted| > 0 {
      JoinSnoc(ConvertedTexts(converted, emitted), ConvertedText(converted, x), " || ");
    } else {
      assert texts == [ConvertedText(converted, x)];
    }
  }

  // ---------------------------------------------------------------------
  // The converter.

  class ToXml {
    var gotBounds: bool
    var firstColumn: int
    var endColumn: int
    /** every cell's readers, in the order their formulas were scanned */
    var cellsToFormula: map<string, seq<string>>
    /** every formula cell's last reader */
    var crToParent: map<string, string>
    /** every formula's "[.cr]=text" */
    var cellToFormulaConverted: map<string, string>

    constructor ()
      ensures !gotBounds
      ensures cellsToFormula == map[] && crToParent == map[] && cellToFormulaConverted == map[]
    {
      gotBounds := false;
      firstColumn := 0;
      endColumn := 0;
      cellsToFormula := map[];
      crToParent := map[];
      cellToFormulaConverted := map[];
    }

    /** printSheetContent starts each sheet with fresh maps; the bounds are
        kept. */
    method BeginSheet()
      modifies this`cellsToFormula, this`crToParent, this`cellToFormulaConverted
      ensures cellsToFormula == map[] && crToParent == map[] && cellToFormulaConverted == map[]
    {
      cellsToFormula := map[];
      crToParent := map[];
      cellToFormulaConverted := map[];
    }

    /** ensureColumnBounds: computed once, from the first sheet it sees. */
    method EnsureColumnBounds(rows: seq<RowSpan>)
      modifies this`gotBounds, this`firstColumn, this`endColumn
      ensures gotBounds
      ensures old(gotBounds) ==> firstColumn == old(firstColumn) && endColumn == old(endColumn)
      ensures !old(gotBounds) ==> firstColumn == FirstColumn(rows) && endColumn == EndColumn(rows)
    {
      if gotBounds {
        return;
      }
      firstColumn := if |rows| > 0 then IntMax else 0;
      endColumn := 0;
      var i := 0;
      while i < |rows|
        invariant 0 <= i <= |rows|
        invariant firstColumn == if |rows| == 0 then 0 else MinFirst(rows[..i])
        invariant endColumn == MaxEnd(rows[..i])
      {
        assert rows[..i + 1][..i] == rows[..i];
        var row := rows[i];
        if row.firstCellNum >= 0 {
          firstColumn := if row.firstCellNum < firstColumn then row.firstCellNum else firstColumn;
          endColumn := if row.lastCellNum > endColumn then row.lastCellNum else endColumn;
        }
        i := i + 1;
      }
      assert rows[..|rows|] == rows;
      gotBounds := true;
    }

    /** One referenced cell: the reader becomes the cell's parent when the
        cell holds a formula, replacing any earlier one; the reader joins the
        cell's list. */
    method Record(cr: string, ref: Reference)
      modifies this`cellsToFormula, this`crToParent
      ensures cellsToFormula == AppendTo(old(cellsToFormula), ref.key, cr)
      ensures crToParent == if ref.formulaCell.Some? then old(crToParent)[ref.formulaCell.value := cr]
                            else old(crToParent)
    {
      if ref.formulaCell.Some? {
        crToParent := crToParent[ref.formulaCell.value := cr];
      }
      var ls := if ref.key in cellsToFormula then cellsToFormula[ref.key] else [];
      cellsToFormula := cellsToFormula[ref.key := ls + [cr]];
    }

    /** The inner loop of an area reference: the rows of one column. */
    method RecordColumn(sheet: Sheet, cr: string, col: nat, firstRow: nat, lastRow: nat)
      returns (ok: bool, ghost column: seq<Reference>)
      modifies this`cellsToFormula, this`crToParent
      ensures (column, ok) == ColumnRefs(sheet, col, firstRow, lastRow + 1)
      ensures cellsToFormula == AppendAll(old(cellsToFormula), Keys(column), cr)
      ensures crToParent == PutAll(old(crToParent), ParentKeys(column), cr)
    {
      ghost var m0 := cellsToFormula;
      ghost var q0 := crToParent;
      var k := firstRow;
      column := [];
      while k <= lastRow
        invariant firstRow <= k && (k <= lastRow + 1 || k == firstRow)
        invariant ColumnRefs(sheet, col, firstRow, k) == (column, true)
        invariant cellsToFormula == AppendAll(m0, Keys(column), cr)
        invariant crToParent == PutAll(q0, ParentKeys(column), cr)
      {
        if k !in sheet.rows {
          ColumnSticks(sheet, col, firstRow, k + 1, lastRow + 1);
          return false, column;
        }
        var ref := CellReferenceTo(sheet, k, col, Label(k, col));
        FileStep(m0, map[], q0, column, ref, cr);
        Record(cr, ref);
        column := column + [ref];
        k := k + 1;
      }
      ok := true;
    }

    /** The maps hold what was there at m0 and q0, plus the filing of refs
        for formula cell cr. */
    ghost predicate Filed(m0: map<string, seq<string>>, q0: map<string, string>, refs: seq<Reference>, cr: string)
      reads this
    {
      cellsToFormula == AppendAll(m0, Keys(refs), cr) && crToParent == PutAll(q0, ParentKeys(refs), cr)
    }

    /** One pass of the outer loop of an area reference: the area's
        references so far grow by column col's. */
    method RecordAreaColumn(sheet: Sheet, cr: string, firstRow: nat, firstCol: nat, col: nat, lastRow: nat, lastCol: nat,
                            ghost m0: map<string, seq<string>>, ghost q0: map<string, string>, ghost before: seq<Reference>)
      returns (ok: bool, ghost added: seq<Reference>)
      requires firstCol <= col <= lastCol
      requires AreaRefs(sheet, firstCol, col, firstRow, lastRow + 1) == (before, true)
      requires Filed(m0, q0, before, cr)
      modifies this`cellsToFormula, this`crToParent
      ensures ok ==> AreaRefs(sheet, firstCol, col + 1, firstRow, lastRow + 1) == (added, true)
      ensures !ok ==> AreaRefs(sheet, firstCol, lastCol + 1, firstRow, lastRow + 1) == (added, false)
      ensures Filed(m0, q0, added, cr)
    {
      ghost var column;
      ok, column := RecordColumn(sheet, cr, col, firstRow, lastRow);
      FilePutConcat(m0, q0, before, column, cr);
      added := before + column;
      if ok {
        AreaStep(sheet, firstCol, col, firstRow, lastRow + 1);
      } else {
        AreaStopsAt(sheet, firstCol, col, lastCol + 1, firstRow, lastRow + 1);
      }
    }

    /** The two loops of an area reference, columns outer, rows inner. */
    method RecordArea(sheet: Sheet, cr: string, firstRow: nat, firstCol: nat, lastRow: nat, lastCol: nat)
      returns (ok: bool, ghost added: seq<Reference>)
      modifies this`cellsToFormula, this`crToParent
      ensures (added, ok) == AreaRefs(sheet, firstCol, lastCol + 1, firstRow, lastRow + 1)
      ensures cellsToFormula == AppendAll(old(cellsToFormula), Keys(added), cr)
      ensures crToParent == PutAll(old(crToParent), ParentKeys(added), cr)
    {
      ghost var m0 := cellsToFormula;
      ghost var q0 := crToParent;
      added := [];
      var i := firstCol;
      while i <= lastCol
        invariant firstCol <= i && (i <= lastCol + 1 || i == firstCol)
        invariant AreaRefs(sheet, firstCol, i, firstRow, lastRow + 1) == (added, true)
        invariant Filed(m0, q0, added, cr)
      {
        var colOk;
        colOk, added := RecordAreaColumn(sheet, cr, firstRow, firstCol, i, lastRow, lastCol, m0, q0, added);
        if !colOk {
          return false, added;
        }
        i := i + 1;
      }
      ok := true;
    }

    /** What parseFormula does with one token: a cell reference files that
        cell under its toFormulaString() text, `$` sigils included, an area
        reference every cell of the area under its relative label, anything
        else nothing. */
    method RecordToken(sheet: Sheet, cr: string, p: Ptg) returns (ok: bool, ghost more: seq<Reference>)
      modifies this`cellsToFormula, this`crToParent
      ensures (more, ok) == TokenRefs(sheet, p, FormulaText)
      ensures cellsToFormula == AppendAll(old(cellsToFormula), Keys(more), cr)
      ensures crToParent == PutAll(old(crToParent), ParentKeys(more), cr)
    {
      if p.Ref? {
        if p.row !in sheet.rows {
          return false, [];
        }
        var ref := CellReferenceTo(sheet, p.row, p.col, RefKey(p, FormulaText));
        FileStep(old(cellsToFormula), map[], old(crToParent), [], ref, cr);
        assert [] + [ref] == [ref];
        Record(cr, ref);
        return true, [ref];
      } else if p.Area? {
        ok, more := RecordArea(sheet, cr, p.firstRow, p.firstCol, p.lastRow, p.lastCol);
      } else {
        return true, [];
      }
    }

    /** parseFormula for the formula in (row, col): the references filed, and
        the converted text stored when both the scan and the rendering
        complete. */
    method ParseFormula(sheet: Sheet, row: nat, col: nat, ptgs: seq<Ptg>) returns (completed: bool)
      modifies this`cellsToFormula, this`crToParent, this`cellToFormulaConverted
      ensures cellsToFormula == AppendAll(old(cellsToFormula), Keys(ScanRefs(sheet, ptgs, FormulaText).0), Label(row, col))
      ensures crToParent == PutAll(old(crToParent), ParentKeys(ScanRefs(sheet, ptgs, FormulaText).0), Label(row, col))
      ensures completed <==> ScanRefs(sheet, ptgs, FormulaText).1 && Render(ptgs).Ok?
      ensures completed ==> (cellToFormulaConverted
        == old(cellToFormulaConverted)[Label(row, col) := "[." + Label(row, col) + "]=" + Render(ptgs).value])
      ensures !completed ==> cellToFormulaConverted == old(cellToFormulaConverted)
    {
      var cr := Label(row, col);
      ghost var m0 := cellsToFormula;
      ghost var q0 := crToParent;
      ghost var refs: seq<Reference> := [];
      var t := 0;
      while t < |ptgs|
        invariant 0 <= t <= |ptgs|
        invariant ScanRefs(sheet, ptgs[..t], FormulaText) == (refs, true)
        invariant cellsToFormula == AppendAll(m0, Keys(refs), cr)
        invariant crToParent == PutAll(q0, ParentKeys(refs), cr)
        invariant cellToFormulaConverted == old(cellToFormulaConverted)
      {
        var ok, more := RecordToken(sheet, cr, ptgs[t]);
        ScanStep(sheet, ptgs, FormulaText, t);
        FilePutConcat(m0, q0, refs, more, cr);
        refs := refs + more;
        if !ok {
          ScanSticks(sheet, ptgs, FormulaText, t + 1);
          return false;
        }
        t := t + 1;
      }
      assert ptgs[..t] == ptgs;
      var rendered := ToFormulaString(ptgs);
      if rendered.Err? {
        return false;
      }
      cellToFormulaConverted := cellToFormulaConverted[cr := "[." + cr + "]=" + rendered.value];
      completed := true;
    }

    /** The walk of printSheetContent for a plain cell, as written: for each
        reader, follow parents to the end, writing each formula not visited
        yet with " || " after it when it has a parent. `fuel` bounds the
        steps of each chain. */
    method AnnotationAsWritten(cr: string, fuel: nat) returns (r: Result<Option<string>, WalkError>)
      ensures cr !in cellsToFormula ==> r == Ok(None)
      ensures cr in cellsToFormula ==> (r ==
        match WalkAll(crToParent, [], cellsToFormula[cr], fuel)
        case None => Err(Diverges)
        case Some(e) => Ok(NonEmpty(Glued(crToParent, cellToFormulaConverted, e))))
    {
      if cr !in cellsToFormula {
        return Ok(None);
      }
      var cfrl := cellsToFormula[cr];
      var formula := "";
      var visited: set<string> := {};
      ghost var emitted: seq<string> := [];
      var i := 0;
      while i < |cfrl|
        invariant 0 <= i <= |cfrl|
        invariant Glues(visited, formula, emitted)
        invariant WalkAll(crToParent, emitted, cfrl[i..], fuel) == WalkAll(crToParent, [], cfrl, fuel)
      {
        assert cfrl[i..][0] == cfrl[i] && cfrl[i..][1..] == cfrl[i + 1..];
        var done;
        done, visited, formula, emitted := GlueChain(cfrl[i], fuel, visited, formula, emitted);
        if !done {
          return Err(Diverges);
        }
        i := i + 1;
      }
      r := Ok(if |formula| > 0 then Some(formula) else None);
    }

    /** What the loops as written keep: visited holds the cells written so
        far and formula glues their texts. */
    ghost predicate Glues(visited: set<string>, formula: string, emitted: seq<string>)
      reads this
    {
      (forall y :: y in visited <==> y in emitted)
      && formula == Glued(crToParent, cellToFormulaConverted, emitted)
    }

    /** The inner loop of the walk as written: from x0 to the end of its
        chain of parents. */
    method GlueChain(x0: string, fuel: nat, visited0: set<string>, formula0: string, ghost emitted0: seq<string>)
      returns (done: bool, visited: set<string>, formula: string, ghost emitted: seq<string>)
      requires Glues(visited0, formula0, emitted0)
      ensures done <==> WalkChain(crToParent, emitted0, Some(x0), fuel).Some?
      ensures done ==> emitted == WalkChain(crToParent, emitted0, Some(x0), fuel).value
      ensures done ==> Glues(visited, formula, emitted)
    {
      visited, formula, emitted := visited0, formula0, emitted0;
      var cur := Some(x0);
      var budget := fuel;
      while cur.Some?
        invariant Glues(visited, formula, emitted)
        invariant WalkChain(crToParent, emitted, cur, budget) == WalkChain(crToParent, emitted0, Some(x0), fuel)
        decreases budget
      {
        var x := cur.value;
        if budget == 0 {
          return false, visited, formula, emitted;
        }
        WalkChainStep(crToParent, emitted, x, budget - 1);
        budget := budget - 1;
        visited, formula, emitted := GlueOne(x, visited, formula, emitted);
        cur := ParentOf(crToParent, x);
      }
      assert emitted == Emit(emitted, []);
      done := true;
    }

    /** The body of the inner loop as written: a cell not yet visited has
        its formula written, followed by " || " when it has a parent. */
    method GlueOne(x: string, visited0: set<string>, formula0: string, ghost emitted0: seq<string>)
      returns (visited: set<string>, formula: string, ghost emitted: seq<string>)
      requires Glues(visited0, formula0, emitted0)
      ensures emitted == if x in emitted0 then emitted0 else emitted0 + [x]
      ensures Glues(visited, formula, emitted)
    {
      visited, formula, emitted := visited0, formula0, emitted0;
      if x !in visited {
        GlueStep(visited0, formula0, emitted0, x);
        visited := visited + {x};
        emitted := emitted + [x];
        formula := formula + (if x in cellToFormulaConverted then cellToFormulaConverted[x] else "null");
        var parent := ParentOf(crToParent, x);
        if parent.Some? {
          formula := formula + " || ";
        }
      }
    }

    /** Writing a cell not written yet keeps visited and formula in step
        with what is written. */
    lemma GlueStep(visited: set<string>, formula: string, emitted: seq<string>, x: string)
      requires Glues(visited, formula, emitted)
      ensures Glues(visited + {x},
        formula + ConvertedText(cellToFormulaConverted, x) + (if ParentOf(crToParent, x).Some? then " || " else ""),
        emitted + [x])
    {
      GluedSnoc(crToParent, cellToFormulaConverted, emitted, x);
      VisitedSnoc(visited, emitted, x);
    }

    /** The same walk with the texts joined by " || ", as the uk.ac.liverpool
        converter builds its annotation: one separator between every two
        formulas and none at the end. */
    method FormulaAnnotation(cr: string, fuel: nat) returns (r: Result<Option<string>, WalkError>)
      ensures cr !in cellsToFormula ==> r == Ok(None)
      ensures cr in cellsToFormula ==> (r ==
        match WalkAll(crToParent, [], cellsToFormula[cr], fuel)
        case None => Err(Diverges)
        case Some(e) => Ok(Annotation(cellToFormulaConverted, e)))
    {
      if cr !in cellsToFormula {
        return Ok(None);
      }
      var cfrl := cellsToFormula[cr];
      var formula := "";
      var first := true;
      var visited: set<string> := {};
      ghost var emitted: seq<string> := [];
      var i := 0;
      while i < |cfrl|
        invariant 0 <= i <= |cfrl|
        invariant Written(visited, first, formula, emitted)
        invariant WalkAll(crToParent, emitted, cfrl[i..], fuel) == WalkAll(crToParent, [], cfrl, fuel)
      {
        assert cfrl[i..][0] == cfrl[i] && cfrl[i..][1..] == cfrl[i + 1..];
        var done;
        done, visited, first, formula, emitted := JoinChain(cfrl[i], fuel, visited, first, formula, emitted);
        if !done {
          return Err(Diverges);
        }
        i := i + 1;
      }
      r := Ok(if first then None else Some(formula));
    }

    /** What the corrected loops keep: visited holds the cells written so
        far, first says none is, and formula joins their texts. */
    ghost predicate Written(visited: set<string>, first: bool, formula: string, emitted: seq<string>)
      reads this
    {
      (forall y :: y in visited <==> y in emitted)
      && (first <==> |emitted| == 0)
      && formula == Join(ConvertedTexts(cellToFormulaConverted, emitted), " || ")
    }

    /** The inner loop with the separator written before every formula but
        the first. */
    method JoinChain(x0: string, fuel: nat, visited0: set<string>, first0: bool, formula0: string, ghost emitted0: seq<string>)
      returns (done: bool, visited: set<string>, first: bool, formula: string, ghost emitted: seq<string>)
      requires Written(visited0, first0, formula0, emitted0)
      ensures done <==> WalkChain(crToParent, emitted0, Some(x0), fuel).Some?
      ensures done ==> emitted == WalkChain(crToParent, emitted0, Some(x0), fuel).value
      ensures done ==> Written(visited, first, formula, emitted)
    {
      visited, first, formula, emitted := visited0, first0, formula0, emitted0;
      var cur := Some(x0);
      var budget := fuel;
      while cur.Some?
        invariant Written(visited, first, formula, emitted)
        invariant WalkChain(crToParent, emitted, cur, budget) == WalkChain(crToParent, emitted0, Some(x0), fuel)
        decreases budget
      {
        var x := cur.value;
        if budget == 0 {
          return false, visited, first, formula, emitted;
        }
        WalkChainStep(crToParent, emitted, x, budget - 1);
        budget := budget - 1;
        cur := ParentOf(crToParent, x);
        visited, first, formula, emitted := JoinOne(x, visited, first, formula, emitted);
      }
      assert emitted == Emit(emitted, []);
      done := true;
    }

    /** The body of the inner loop: a cell not yet visited has its formula
        written, after a separator unless it is the first. */
    method JoinOne(x: string, visited0: set<string>, first0: bool, formula0: string, ghost emitted0: seq<string>)
      returns (visited: set<string>, first: bool, formula: string, ghost emitted: seq<string>)
      requires Written(visited0, first0, formula0, emitted0)
      ensures emitted == if x in emitted0 then emitted0 else emitted0 + [x]
      ensures Written(visited, first, formula, emitted)
    {
      visited, first, formula, emitted := visited0, first0, formula0, emitted0;
      if x !in visited {
        var text := if x in cellToFormulaConverted then cellToFormulaConverted[x] else "null";
        if !first {
          formula := formula + " || ";
        }
        formula := formula + text;
        first := false;
        visited := visited + {x};
        emitted := emitted + [x];
        WrittenSnoc(visited0, first0, formula0, emitted0, x);
      }
    }

    /** Writing a cell not written yet keeps Written. */
    lemma WrittenSnoc(visited: set<string>, first: bool, formula: string, emitted: seq<string>, x: string)
      requires Written(visited, first, formula, emitted) && x !in visited
      ensures Written(visited + {x}, false,
        (if first then "" else formula + " || ") + ConvertedText(cellToFormulaConverted, x), emitted + [x])
    {
      JoinTextsSnoc(cellToFormulaConverted, emitted, x);
      VisitedSnoc(visited, emitted, x);
    }
  }

  /** One step of the inner loop: the chain from x is x followed by the
      chain from its parent. */
  lemma ChainStep(crToParent: map<string, string>, x: string, budget: nat)
    ensures Chain(crToParent, x, budget + 1)
      == match ChainFrom(crToParent, ParentOf(crToParent, x), budget)
         case None => None
         case Some(c) => Some([x] + c)
  {
    if x !in crToParent {
      assert [x] + [] == [x];
    }
  }

  /** One step of the inner loop: x is written unless it was already, and
      the walk goes on from its parent. */
  lemma WalkChainStep(crToParent: map<string, string>, emitted: seq<string>, x: string, budget: nat)
    ensures WalkChain(crToParent, emitted, Some(x), budget + 1)
      == WalkChain(crToParent, if x in emitted then emitted else emitted + [x], ParentOf(crToParent, x), budget)
  {
    ChainStep(crToParent, x, budget);
  }

  /** The annotation of a plain cell lists each formula once, every formula
      reading the cell, and the parent of each one listed. */
  lemma AnnotationCoversReaders(crToParent: map<string, string>, cfrl: seq<string>, fuel: nat)
    requires WalkAll(crToParent, [], cfrl, fuel).Some?
    ensures NoDup(WalkAll(crToParent, [], cfrl, fuel).value)
    ensures forall x :: x in cfrl ==> x in WalkAll(crToParent, [], cfrl, fuel).value
    ensures ParentClosed(crToParent, WalkAll(crToParent, [], cfrl, fuel).value)
  {
    WalkAllNoDup(crToParent, [], cfrl, fuel);
    WalkAllCovers(crToParent, [], cfrl, fuel);
    WalkAllParentClosed(crToParent, [], cfrl, fuel);
  }
}
