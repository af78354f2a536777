/** The dependency scan that both ToXML converters run over a formula's
    tokens (parseFormula). Each cell reference contributes one record: the
    label under which the formula's address is filed in `cellsToFormula`,
    and, when the referenced cell holds a formula itself, that cell's label,
    under which the referencing formula is filed as its parent in
    `crToParent`. An area fans out to every cell of its rectangle, columns
    outer and rows inner. A reference into a row the sheet does not have
    stops the scan (getRow returns null and the NullPointerException ends
    parseFormula), keeping what was recorded before it. */
module Dependencies {
  import opened Wrappers
  import opened Text
  import opened CellLabels
  import opened FormulaRenderer

  /** What the scan can see of a sheet: the rows it has and the cells that
      hold formulas. */
  datatype Sheet = Sheet(rows: set<nat>, formulas: set<(nat, nat)>)

  /** One referenced cell: the key that gets the formula's address, and the
      referenced cell's own label when it holds a formula. */
  datatype Reference = Reference(key: string, formulaCell: Option<string>)

  function CellReferenceTo(sheet: Sheet, row: nat, col: nat, key: string): (r: Reference)
    ensures r.key == key
    ensures r.formulaCell.Some? <==> (row, col) in sheet.formulas
    ensures r.formulaCell.Some? ==> r.formulaCell.value == Label(row, col)
  {
    Reference(key, if (row, col) in sheet.formulas then Some(Label(row, col)) else None)
  }

  /** How a single-cell reference is keyed: by RefPtg.toFormulaString(),
      which keeps the `$` sigils of an absolute reference, as both
      converters do, or by the cell's relative label, the key the
      annotation pass looks up. */
  datatype RefKeying = FormulaText | RelativeLabel

  /** The key a single-cell reference is filed under. */
  function RefKey(t: Ptg, keying: RefKeying): string
    requires t.Ref?
  {
    match keying
    case FormulaText => CellLabel(t.row, t.col, t.rowAbs, t.colAbs)
    case RelativeLabel => Label(t.row, t.col)
  }

  /** The cells (fromRow .. toRow - 1, col) in row order; false once a row is
      missing, with the references recorded before it. */
  function ColumnRefs(sheet: Sheet, col: nat, fromRow: nat, toRow: nat): (seq<Reference>, bool)
    decreases toRow
  {
    if toRow <= fromRow then ([], true)
    else
      var (refs, ok) := ColumnRefs(sheet, col, fromRow, toRow - 1);
      if !ok || toRow - 1 !in sheet.rows then (refs, false)
      else (refs + [CellReferenceTo(sheet, toRow - 1, col, Label(toRow - 1, col))], true)
  }

  /** The rectangle's cells, columns fromCol .. toCol - 1 outer, rows inner. */
  function AreaRefs(sheet: Sheet, fromCol: nat, toCol: nat, fromRow: nat, toRow: nat): (seq<Reference>, bool)
    decreases toCol
  {
    if toCol <= fromCol then ([], true)
    else
      var (refs, ok) := AreaRefs(sheet, fromCol, toCol - 1, fromRow, toRow);
      if !ok then (refs, false)
      else
        var (column, colOk) := ColumnRefs(sheet, toCol - 1, fromRow, toRow);
        (refs + column, colOk)
  }

  /** The references of one token: a cell, an area, or none. */
  function TokenRefs(sheet: Sheet, t: Ptg, keying: RefKeying): (seq<Reference>, bool)
  {
    match t
    case Ref(row, col, _, _) =>
      if row in sheet.rows then ([CellReferenceTo(sheet, row, col, RefKey(t, keying))], true) else ([], false)
    case Area(firstRow, firstCol, lastRow, lastCol, _, _, _, _, _) =>
      AreaRefs(sheet, firstCol, lastCol + 1, firstRow, lastRow + 1)
    case _ => ([], true)
  }

  /** The references of the tokens in order, up to the first missing row. */
  function ScanRefs(sheet: Sheet, ptgs: seq<Ptg>, keying: RefKeying): (seq<Reference>, bool)
    decreases |ptgs|
  {
    if |ptgs| == 0 then ([], true)
    else
      var (refs, ok) := ScanRefs(sheet, ptgs[..|ptgs| - 1], keying);
      if !ok then (refs, false)
      else
        var (more, tokOk) := TokenRefs(sheet, ptgs[|ptgs| - 1], keying);
        (refs + more, tokOk)
  }

  // ---------------------------------------------------------------------
  // The maps the references are filed in.

  function Keys(refs: seq<Reference>): (r: seq<string>)
    ensures |r| == |refs|
    decreases |refs|
  {
    if |refs| == 0 then [] else Keys(refs[..|refs| - 1]) + [refs[|refs| - 1].key]
  }

  /** The labels of the referenced cells that hold formulas. */
  function ParentKeys(refs: seq<Reference>): seq<string>
    decreases |refs|
  {
    if |refs| == 0 then []
    else
      var last := refs[|refs| - 1];
      ParentKeys(refs[..|refs| - 1]) + (if last.formulaCell.Some? then [last.formulaCell.value] else [])
  }

  /** A map's list for k, empty when k is absent. */
  function Entry(m: map<string, seq<string>>, k: string): seq<string>
  {
    if k in m then m[k] else []
  }

  /** `ls = m.get(k); if (ls == null) { ls = new LinkedList(); m.put(k, ls); } ls.add(v)` */
  function AppendTo(m: map<string, seq<string>>, k: string, v: string): map<string, seq<string>>
  {
    m[k := Entry(m, k) + [v]]
  }

  /** v appended to the list of every key in turn. */
  function AppendAll(m: map<string, seq<string>>, keys: seq<string>, v: string): map<string, seq<string>>
    decreases |keys|
  {
    if |keys| == 0 then m else AppendTo(AppendAll(m, keys[..|keys| - 1], v), keys[|keys| - 1], v)
  }

  /** `m.put(k, v)` for every key in turn. */
  function PutAll(m: map<string, string>, keys: seq<string>, v: string): map<string, string>
    decreases |keys|
  {
    if |keys| == 0 then m else PutAll(m, keys[..|keys| - 1], v)[keys[|keys| - 1] := v]
  }

  function Count(s: seq<string>, x: string): nat
    decreases |s|
  {
    if |s| == 0 then 0 else Count(s[..|s| - 1], x) + (if s[|s| - 1] == x then 1 else 0)
  }

  /** The texts annotating a plain cell: the converted text of each formula,
      "null" where a formula has none (its rendering failed). */
  function ConvertedText(converted: map<string, string>, cr: string): string
  {
    if cr in converted then converted[cr] else "null"
  }

  function ConvertedTexts(converted: map<string, string>, refs: seq<string>): (r: seq<string>)
    ensures |r| == |refs|
    decreases |refs|
  {
    if |refs| == 0 then [] else ConvertedTexts(converted, refs[..|refs| - 1]) + [ConvertedText(converted, refs[|refs| - 1])]
  }

  /** The `formula` attribute: the texts joined with " || ", absent when
      there are none. */
  function Annotation(converted: map<string, string>, refs: seq<string>): Option<string>
  {
    if |refs| == 0 then None else Some(Join(ConvertedTexts(converted, refs), " || "))
  }

  // ---------------------------------------------------------------------
  // Lemmas about filing.

  lemma KeysSnoc(refs: seq<Reference>, r: Reference)
    ensures Keys(refs + [r]) == Keys(refs) + [r.key]
    ensures ParentKeys(refs + [r]) == ParentKeys(refs) + (if r.formulaCell.Some? then [r.formulaCell.value] else [])
  {
    assert (refs + [r])[..|refs|] == refs;
  }

  lemma {:induction false} KeysConcat(a: seq<Reference>, b: seq<Reference>)
    ensures Keys(a + b) == Keys(a) + Keys(b)
    ensures ParentKeys(a + b) == ParentKeys(a) + ParentKeys(b)
  {
    OnlyKeysConcat(a, b);
    ParentKeysConcat(a, b);
  }

  lemma {:induction false} OnlyKeysConcat(a: seq<Reference>, b: seq<Reference>)
    ensures Keys(a + b) == Keys(a) + Keys(b)
    decreases |b|
  {
    if |b| == 0 {
      assert a + b == a;
    } else {
      var init, x := b[..|b| - 1], b[|b| - 1];
      OnlyKeysConcat(a, init);
      assert b == init + [x];
      assert a + b == (a + init) + [x];
      KeysSnoc(a + init, x);
      KeysSnoc(init, x);
      assert Keys(a + b) == Keys(a) + Keys(init) + [x.key];
    }
  }

  lemma {:induction false} ParentKeysConcat(a: seq<Reference>, b: seq<Reference>)
    ensures ParentKeys(a + b) == ParentKeys(a) + ParentKeys(b)
    decreases |b|
  {
    if |b| == 0 {
      assert a + b == a;
    } else {
      var init, x := b[..|b| - 1], b[|b| - 1];
      ParentKeysConcat(a, init);
      assert b == init + [x];
      assert a + b == (a + init) + [x];
      KeysSnoc(a + init, x);
      KeysSnoc(init, x);
      var extra := if x.formulaCell.Some? then [x.formulaCell.value] else [];
      assert ParentKeys(a + b) == ParentKeys(a) + ParentKeys(init) + extra;
    }
  }

  lemma CountSnoc(s: seq<string>, k: string, x: string)
    ensures Count(s + [k], x) == Count(s, x) + if k == x then 1 else 0
  {
    assert (s + [k])[..|s|] == s;
  }

  lemma {:induction false} CountConcat(a: seq<string>, b: seq<string>, x: string)
    ensures Count(a + b, x) == Count(a, x) + Count(b, x)
    decreases |b|
  {
    if |b| == 0 {
      assert a + b == a;
    } else {
      CountConcat(a, b[..|b| - 1], x);
      assert (a + b)[..|a + b| - 1] == a + b[..|b| - 1];
    }
  }

  lemma {:induction false} CountPositiveIffIn(s: seq<string>, x: string)
    ensures Count(s, x) > 0 <==> x in s
    decreases |s|
  {
    if |s| > 0 {
      var init := s[..|s| - 1];
      CountPositiveIffIn(init, x);
      assert s == init + [s[|s| - 1]];
      assert x in s <==> x in init || x == s[|s| - 1];
    }
  }

  /** Filing appends v to the list of every key once per occurrence and
      touches no other key: `Entry(after, k) == Entry(before, k) + [v, v, ...]`. */
  lemma {:induction false} AppendAllEffect(m: map<string, seq<string>>, keys: seq<string>, v: string)
    ensures forall k :: k in AppendAll(m, keys, v) <==> k in m || k in keys
    ensures forall k :: Entry(AppendAll(m, keys, v), k) == Entry(m, k) + Repeat(v, Count(keys, k))
    decreases |keys|
  {
    if |keys| > 0 {
      var init := keys[..|keys| - 1];
      var last := keys[|keys| - 1];
      AppendAllEffect(m, init, v);
      assert keys == init + [last];
      forall k ensures k in keys <==> k in init || k == last {
      }
      forall k ensures Entry(AppendAll(m, keys, v), k) == Entry(m, k) + Repeat(v, Count(keys, k)) {
        if k == last {
          assert Repeat(v, Count(keys, k)) == Repeat(v, Count(init, k)) + [v];
        }
      }
    }
  }

  /** After the puts, a key holds v exactly when it was put, and keeps its
      value otherwise: one parent per key, the last one written. */
  lemma {:induction false} PutAllEffect(m: map<string, string>, keys: seq<string>, v: string)
    ensures forall k :: k in PutAll(m, keys, v) <==> k in m || k in keys
    ensures forall k :: k in keys ==> PutAll(m, keys, v)[k] == v
    ensures forall k :: k in m && k !in keys ==> PutAll(m, keys, v)[k] == m[k]
    decreases |keys|
  {
    if |keys| > 0 {
      var init := keys[..|keys| - 1];
      PutAllEffect(m, init, v);
      assert keys == init + [keys[|keys| - 1]];
      forall k ensures k in keys <==> k in init || k == keys[|keys| - 1] {
      }
    }
  }

  /** Filing one more reference is one more AppendTo (or put). */
  lemma FileStep(m: map<string, seq<string>>, p: map<string, seq<string>>, q: map<string, string>,
                 refs: seq<Reference>, r: Reference, v: string)
    ensures AppendAll(m, Keys(refs + [r]), v) == AppendTo(AppendAll(m, Keys(refs), v), r.key, v)
    ensures AppendAll(p, ParentKeys(refs + [r]), v)
      == if r.formulaCell.Some? then AppendTo(AppendAll(p, ParentKeys(refs), v), r.formulaCell.value, v)
         else AppendAll(p, ParentKeys(refs), v)
    ensures PutAll(q, ParentKeys(refs + [r]), v)
      == if r.formulaCell.Some? then PutAll(q, ParentKeys(refs), v)[r.formulaCell.value := v]
         else PutAll(q, ParentKeys(refs), v)
  {
    KeysSnoc(refs, r);
    var ks := Keys(refs);
    assert (ks + [r.key])[..|ks|] == ks;
    var ps := ParentKeys(refs);
    if r.formulaCell.Some? {
      assert (ps + [r.formulaCell.value])[..|ps|] == ps;
    } else {
      assert ps + [] == ps;
    }
  }

  lemma {:induction false} AppendAllConcat(m: map<string, seq<string>>, a: seq<string>, b: seq<string>, v: string)
    ensures AppendAll(m, a + b, v) == AppendAll(AppendAll(m, a, v), b, v)
    decreases |b|
  {
    if |b| == 0 {
      assert a + b == a;
    } else {
      var init := b[..|b| - 1];
      AppendAllConcat(m, a, init, v);
      assert (a + b)[..|a + b| - 1] == a + init;
    }
  }

  /** Filing two runs of references one after the other files them all. */
  lemma FileConcat(m: map<string, seq<string>>, p: map<string, seq<string>>, a: seq<Reference>, b: seq<Reference>, v: string)
    ensures AppendAll(m, Keys(a + b), v) == AppendAll(AppendAll(m, Keys(a), v), Keys(b), v)
    ensures AppendAll(p, ParentKeys(a + b), v) == AppendAll(AppendAll(p, ParentKeys(a), v), ParentKeys(b), v)
  {
    KeysConcat(a, b);
    AppendAllConcat(m, Keys(a), Keys(b), v);
    AppendAllConcat(p, ParentKeys(a), ParentKeys(b), v);
  }

  lemma {:induction false} PutAllConcat(m: map<string, string>, a: seq<string>, b: seq<string>, v: string)
    ensures PutAll(m, a + b, v) == PutAll(PutAll(m, a, v), b, v)
    decreases |b|
  {
    if |b| == 0 {
      assert a + b == a;
    } else {
      var init := b[..|b| - 1];
      PutAllConcat(m, a, init, v);
      assert (a + b)[..|a + b| - 1] == a + init;
    }
  }

  /** The same for a map that keeps one reader per cell. */
  lemma FilePutConcat(m: map<string, seq<string>>, q: map<string, string>, a: seq<Reference>, b: seq<Reference>, v: string)
    ensures AppendAll(m, Keys(a + b), v) == AppendAll(AppendAll(m, Keys(a), v), Keys(b), v)
    ensures PutAll(q, ParentKeys(a + b), v) == PutAll(PutAll(q, ParentKeys(a), v), ParentKeys(b), v)
  {
    KeysConcat(a, b);
    AppendAllConcat(m, Keys(a), Keys(b), v);
    PutAllConcat(q, ParentKeys(a), ParentKeys(b), v);
  }

  /** One more column of an area adds that column's references. */
  lemma AreaStep(sheet: Sheet, fromCol: nat, col: nat, fromRow: nat, toRow: nat)
    requires fromCol <= col && AreaRefs(sheet, fromCol, col, fromRow, toRow).1
    ensures AreaRefs(sheet, fromCol, col + 1, fromRow, toRow)
      == (AreaRefs(sheet, fromCol, col, fromRow, toRow).0 + ColumnRefs(sheet, col, fromRow, toRow).0,
          ColumnRefs(sheet, col, fromRow, toRow).1)
  {
  }

  /** A column with a missing row ends the area's scan. */
  lemma AreaStopsAt(sheet: Sheet, fromCol: nat, col: nat, toCol: nat, fromRow: nat, toRow: nat)
    requires fromCol <= col < toCol && AreaRefs(sheet, fromCol, col, fromRow, toRow).1
    requires !ColumnRefs(sheet, col, fromRow, toRow).1
    ensures AreaRefs(sheet, fromCol, toCol, fromRow, toRow)
      == (AreaRefs(sheet, fromCol, col, fromRow, toRow).0 + ColumnRefs(sheet, col, fromRow, toRow).0, false)
  {
    AreaStep(sheet, fromCol, col, fromRow, toRow);
    AreaSticks(sheet, fromCol, col + 1, toCol, fromRow, toRow);
  }

  /** Scanning one more token adds that token's references. */
  lemma ScanStep(sheet: Sheet, ptgs: seq<Ptg>, keying: RefKeying, t: nat)
    requires t < |ptgs| && ScanRefs(sheet, ptgs[..t], keying).1
    ensures ScanRefs(sheet, ptgs[..t + 1], keying)
      == (ScanRefs(sheet, ptgs[..t], keying).0 + TokenRefs(sheet, ptgs[t], keying).0, TokenRefs(sheet, ptgs[t], keying).1)
  {
    assert ptgs[..t + 1][..t] == ptgs[..t];
  }

  /** Once a column scan has stopped at a missing row it stays stopped. */
  lemma {:induction false} ColumnSticks(sheet: Sheet, col: nat, fromRow: nat, n: nat, toRow: nat)
    requires n <= toRow && !ColumnRefs(sheet, col, fromRow, n).1
    ensures ColumnRefs(sheet, col, fromRow, toRow) == ColumnRefs(sheet, col, fromRow, n)
    decreases toRow
  {
    if toRow > n {
      ColumnSticks(sheet, col, fromRow, n, toRow - 1);
    }
  }

  lemma {:induction false} AreaSticks(sheet: Sheet, fromCol: nat, n: nat, toCol: nat, fromRow: nat, toRow: nat)
    requires n <= toCol && !AreaRefs(sheet, fromCol, n, fromRow, toRow).1
    ensures AreaRefs(sheet, fromCol, toCol, fromRow, toRow) == AreaRefs(sheet, fromCol, n, fromRow, toRow)
    decreases toCol
  {
    if toCol > n {
      AreaSticks(sheet, fromCol, n, toCol - 1, fromRow, toRow);
    }
  }

  lemma {:induction false} ScanSticks(sheet: Sheet, ptgs: seq<Ptg>, keying: RefKeying, n: nat)
    requires n <= |ptgs| && !ScanRefs(sheet, ptgs[..n], keying).1
    ensures ScanRefs(sheet, ptgs, keying) == ScanRefs(sheet, ptgs[..n], keying)
    decreases |ptgs|
  {
    if n == |ptgs| {
      assert ptgs[..n] == ptgs;
    } else {
      var init := ptgs[..|ptgs| - 1];
      assert init[..n] == ptgs[..n];
      ScanSticks(sheet, init, keying, n);
    }
  }

  // ---------------------------------------------------------------------
  // Lemmas about the scan.

  /** A column scan succeeds exactly when all its rows exist. */
  lemma {:induction false} ColumnRefsOk(sheet: Sheet, col: nat, fromRow: nat, toRow: nat)
    ensures ColumnRefs(sheet, col, fromRow, toRow).1 <==> forall r :: fromRow <= r < toRow ==> r in sheet.rows
    decreases toRow
  {
    if toRow > fromRow {
      ColumnRefsOk(sheet, col, fromRow, toRow - 1);
    }
  }

  /** A completed column scan names each of its cells once and no other
      cell, and records as a parent edge exactly its formula cells. */
  lemma {:induction false} ColumnFanOut(sheet: Sheet, col: nat, fromRow: nat, toRow: nat)
    requires ColumnRefs(sheet, col, fromRow, toRow).1
    ensures forall r: nat, c: nat ::
      Count(Keys(ColumnRefs(sheet, col, fromRow, toRow).0), Label(r, c))
      == if c == col && fromRow <= r < toRow then 1 else 0
    ensures forall r: nat, c: nat ::
      Count(ParentKeys(ColumnRefs(sheet, col, fromRow, toRow).0), Label(r, c))
      == if c == col && fromRow <= r < toRow && (r, c) in sheet.formulas then 1 else 0
    decreases toRow
  {
    if toRow > fromRow {
      var refs := ColumnRefs(sheet, col, fromRow, toRow - 1).0;
      ColumnFanOut(sheet, col, fromRow, toRow - 1);
      var last := CellReferenceTo(sheet, toRow - 1, col, Label(toRow - 1, col));
      assert ColumnRefs(sheet, col, fromRow, toRow).0 == refs + [last];
      forall r: nat, c: nat
        ensures Count(Keys(refs + [last]), Label(r, c)) == if c == col && fromRow <= r < toRow then 1 else 0
        ensures Count(ParentKeys(refs + [last]), Label(r, c))
          == if c == col && fromRow <= r < toRow && (r, c) in sheet.formulas then 1 else 0
      {
        ColumnCellStep(sheet, col, fromRow, toRow, refs, r, c);
      }
    }
  }

  /** The count of one label after a column scan takes one more row. */
  lemma ColumnCellStep(sheet: Sheet, col: nat, fromRow: nat, toRow: nat, refs: seq<Reference>, r: nat, c: nat)
    requires fromRow < toRow
    requires Count(Keys(refs), Label(r, c)) == if c == col && fromRow <= r < toRow - 1 then 1 else 0
    requires Count(ParentKeys(refs), Label(r, c))
      == if c == col && fromRow <= r < toRow - 1 && (r, c) in sheet.formulas then 1 else 0
    ensures Count(Keys(refs + [CellReferenceTo(sheet, toRow - 1, col, Label(toRow - 1, col))]), Label(r, c))
      == if c == col && fromRow <= r < toRow then 1 else 0
    ensures Count(ParentKeys(refs + [CellReferenceTo(sheet, toRow - 1, col, Label(toRow - 1, col))]), Label(r, c))
      == if c == col && fromRow <= r < toRow && (r, c) in sheet.formulas then 1 else 0
  {
    var last := CellReferenceTo(sheet, toRow - 1, col, Label(toRow - 1, col));
    var same := Label(toRow - 1, col) == Label(r, c);
    if same {
      LabelInjective(toRow - 1, col, r, c);
    }
    KeysSnoc(refs, last);
    CountSnoc(Keys(refs), Label(toRow - 1, col), Label(r, c));
    ColumnCellParents(ParentKeys(refs), last, Label(r, c));
  }

  lemma ColumnCellParents(parents: seq<string>, last: Reference, x: string)
    ensures Count(parents + (if last.formulaCell.Some? then [last.formulaCell.value] else []), x)
      == Count(parents, x) + if last.formulaCell.Some? && last.formulaCell.value == x then 1 else 0
  {
    if last.formulaCell.Some? {
      CountSnoc(parents, last.formulaCell.value, x);
    } else {
      assert parents + [] == parents;
    }
  }

  /** A completed area scan names each cell of the inclusive rectangle
      exactly once and no cell outside it, and records a parent edge for
      exactly the rectangle's formula cells. */
  lemma {:induction false} AreaFanOut(sheet: Sheet, fromCol: nat, toCol: nat, fromRow: nat, toRow: nat)
    requires AreaRefs(sheet, fromCol, toCol, fromRow, toRow).1
    ensures forall r: nat, c: nat ::
      Count(Keys(AreaRefs(sheet, fromCol, toCol, fromRow, toRow).0), Label(r, c))
      == if fromCol <= c < toCol && fromRow <= r < toRow then 1 else 0
    ensures forall r: nat, c: nat ::
      Count(ParentKeys(AreaRefs(sheet, fromCol, toCol, fromRow, toRow).0), Label(r, c))
      == if fromCol <= c < toCol && fromRow <= r < toRow && (r, c) in sheet.formulas then 1 else 0
    decreases toCol
  {
    if toCol > fromCol {
      var refs := AreaRefs(sheet, fromCol, toCol - 1, fromRow, toRow).0;
      var column := ColumnRefs(sheet, toCol - 1, fromRow, toRow).0;
      AreaFanOut(sheet, fromCol, toCol - 1, fromRow, toRow);
      ColumnFanOut(sheet, toCol - 1, fromRow, toRow);
      KeysConcat(refs, column);
      forall r: nat, c: nat
        ensures Count(Keys(refs + column), Label(r, c)) == if fromCol <= c < toCol && fromRow <= r < toRow then 1 else 0
        ensures Count(ParentKeys(refs + column), Label(r, c))
          == if fromCol <= c < toCol && fromRow <= r < toRow && (r, c) in sheet.formulas then 1 else 0
      {
        CountConcat(Keys(refs), Keys(column), Label(r, c));
        CountConcat(ParentKeys(refs), ParentKeys(column), Label(r, c));
      }
    }
  }

  /** An area scan succeeds exactly when every row of the rectangle exists
      (or the rectangle is empty). */
  lemma {:induction false} AreaRefsOk(sheet: Sheet, fromCol: nat, toCol: nat, fromRow: nat, toRow: nat)
    ensures AreaRefs(sheet, fromCol, toCol, fromRow, toRow).1
      <==> toCol <= fromCol || forall r :: fromRow <= r < toRow ==> r in sheet.rows
    decreases toCol
  {
    if toCol > fromCol {
      AreaRefsOk(sheet, fromCol, toCol - 1, fromRow, toRow);
      ColumnRefsOk(sheet, toCol - 1, fromRow, toRow);
    }
  }

  /** A completed scan files something under the key of every cell that a
      single-cell token references. */
  lemma {:induction false} ScanFilesEveryRef(sheet: Sheet, ptgs: seq<Ptg>, keying: RefKeying)
    requires ScanRefs(sheet, ptgs, keying).1
    ensures forall i :: 0 <= i < |ptgs| && ptgs[i].Ref? ==> RefKey(ptgs[i], keying) in Keys(ScanRefs(sheet, ptgs, keying).0)
    decreases |ptgs|
  {
    if |ptgs| > 0 {
      var init := ptgs[..|ptgs| - 1];
      var last := ptgs[|ptgs| - 1];
      ScanFilesEveryRef(sheet, init, keying);
      var refs := ScanRefs(sheet, init, keying).0;
      var more := TokenRefs(sheet, last, keying).0;
      KeysConcat(refs, more);
      forall i | 0 <= i < |ptgs| && ptgs[i].Ref?
        ensures RefKey(ptgs[i], keying) in Keys(refs + more)
      {
        if i < |ptgs| - 1 {
          assert ptgs[i] == init[i];
        } else {
          assert Keys(more) == [RefKey(last, keying)];
        }
      }
    }
  }

  /** Keyed by relative labels, a completed scan files something under the
      label of every cell a single-cell token references, so the
      annotation pass of that cell finds the formula. */
  lemma RelativeScanFilesEveryLabel(sheet: Sheet, ptgs: seq<Ptg>)
    requires ScanRefs(sheet, ptgs, RelativeLabel).1
    ensures forall i :: 0 <= i < |ptgs| && ptgs[i].Ref? ==> Label(ptgs[i].row, ptgs[i].col) in Keys(ScanRefs(sheet, ptgs, RelativeLabel).0)
  {
    ScanFilesEveryRef(sheet, ptgs, RelativeLabel);
  }

  /** The key the converters use is the label the annotation pass looks up
      exactly when the reference has no `$`: an absolute reference such as
      `$A$1` is filed under a key no lookup uses. */
  lemma RefKeyAsWrittenMatchesIff(t: Ptg)
    requires t.Ref?
    ensures RefKey(t, FormulaText) == RefKey(t, RelativeLabel) <==> !t.rowAbs && !t.colAbs
  {
    var letters := ColumnLabel(t.col);
    var digits := NatToString(t.row + 1);
    if t.colAbs {
      assert RefKey(t, FormulaText)[0] == '$';
      assert Label(t.row, t.col)[0] == letters[0];
    } else if t.rowAbs {
      assert |RefKey(t, FormulaText)| == |letters| + 1 + |digits|;
      assert |Label(t.row, t.col)| == |letters| + |digits|;
    }
  }

  /** A formula reading `$A$1`: the converters file it under "$A$1" and not
      under "A1", the key the annotation of A1 looks up. */
  lemma AbsoluteRefExample()
    ensures Keys(ScanRefs(Sheet({0}, {}), [Ref(0, 0, true, true)], FormulaText).0) == ["$A$1"]
    ensures Keys(ScanRefs(Sheet({0}, {}), [Ref(0, 0, true, true)], RelativeLabel).0) == ["A1"]
  {
    var sheet := Sheet({0}, {});
    var t := Ref(0, 0, true, true);
    LabelExamples();
    assert [t][..0] == [];
    forall keying: RefKeying
      ensures Keys(ScanRefs(sheet, [t], keying).0) == [RefKey(t, keying)]
    {
      assert ScanRefs(sheet, [t], keying).0 == [CellReferenceTo(sheet, 0, 0, RefKey(t, keying))];
      KeysSnoc([], CellReferenceTo(sheet, 0, 0, RefKey(t, keying)));
    }
  }
}
