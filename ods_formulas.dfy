/** Formula propagation in the OpenDocument converter: processFormula
    copies a formula, headed by the cell that computes it, onto every cell
    it reads and marks the formula cell processed; applyFormulaToCells
    repeats that until no formula cell is left unprocessed. The arguments
    of a formula (the bracketed `[.A1]`, `[.A1:.B3]` of the document's
    formula text) are given by the caller. */
module OdsFormulas {
  import opened Wrappers
  import opened Text
  import opened OdsIds
  import opened OdsSheet

  /** A formula cell not yet processed. */
  predicate Pending(c: Cell)
  {
    c.origFormula != "" && !c.processed
  }

  /** A cell that a formula nf reads: nf joins its formula list; a formula
      cell not yet processed stays so, every other cell becomes processed,
      and a cell without a formula of its own loses its read-only mark. */
  function Touch(c: Cell, nf: string): Cell
  {
    c.(formula := c.formula + [nf],
       processed := !Pending(c),
       readOnly := if c.origFormula == "" then "" else c.readOnly)
  }

  /** The formula as the cells record it: the first `of:=` becomes
      `[<id>]=`. */
  function NewFormula(formulaCellId: string, formula: string): string
  {
    ReplaceFirst(formula, "of:=", "[" + formulaCellId + "]=")
  }

  /** A document formula `of:=<body>` is recorded as `[<id>]=<body>`. */
  lemma NewFormulaOfDocumentFormula(formulaCellId: string, body: string)
    ensures NewFormula(formulaCellId, "of:=" + body) == "[" + formulaCellId + "]=" + body
  {
    var s := "of:=" + body;
    assert OccursAt(s, "of:=", 0) by {
      assert s[0..4] == "of:=";
    }
    assert s[4..] == body;
  }

  // ---------------------------------------------------------------------
  // Finding a cell by id.

  /** The first cell of the row, from `from` on, with the given id. */
  function FirstInRow(row: seq<Cell>, id: string, from: nat): (r: Option<nat>)
    requires from <= |row|
    ensures r.Some? ==> from <= r.value < |row| && row[r.value].id == id
    ensures r.Some? ==> forall k :: from <= k < r.value ==> row[k].id != id
    ensures r.None? ==> forall k :: from <= k < |row| ==> row[k].id != id
    decreases |row| - from
  {
    if from == |row| then None
    else if row[from].id == id then Some(from)
    else FirstInRow(row, id, from + 1)
  }

  /** The first cell with the given id, row by row from row `from`. */
  function FirstIdFrom(cells: Sheet, id: string, from: nat): (r: Option<(nat, nat)>)
    requires from <= |cells|
    ensures r.Some? ==> from <= r.value.0 < |cells| && r.value.1 < |cells[r.value.0]|
    ensures r.Some? ==> cells[r.value.0][r.value.1].id == id
    ensures r.Some? ==> forall k :: 0 <= k < r.value.1 ==> cells[r.value.0][k].id != id
    ensures r.Some? ==> forall a, k :: from <= a < r.value.0 && 0 <= k < |cells[a]| ==> cells[a][k].id != id
    ensures r.None? ==> forall a, k :: from <= a < |cells| && 0 <= k < |cells[a]| ==> cells[a][k].id != id
    decreases |cells| - from
  {
    if from == |cells| then None
    else match FirstInRow(cells[from], id, 0)
      case Some(k) => Some((from, k))
      case None => FirstIdFrom(cells, id, from + 1)
  }

  function FirstId(cells: Sheet, id: string): Option<(nat, nat)>
  {
    FirstIdFrom(cells, id, 0)
  }

  /** No two cells share an id. */
  predicate DistinctIds(cells: Sheet)
  {
    forall a, b, c, d ::
      0 <= a < |cells| && 0 <= b < |cells[a]| && 0 <= c < |cells| && 0 <= d < |cells[c]| && cells[a][b].id == cells[c][d].id
      ==> a == c && b == d
  }

  /** With distinct ids, the search for a cell's id finds that cell. */
  lemma FirstIdOfDistinct(cells: Sheet, i: nat, j: nat)
    requires DistinctIds(cells) && i < |cells| && j < |cells[i]|
    ensures FirstId(cells, cells[i][j].id) == Some((i, j))
  {
    var p := FirstId(cells, cells[i][j].id);
    assert p.Some?;
  }

  /** The row-by-row search with `break`, as both loops of processFormula
      that look a cell up by id do it. */
  method FindId(cells: Sheet, id: string) returns (p: Option<(nat, nat)>)
    ensures p == FirstId(cells, id)
  {
    var i := 0;
    while i < |cells|
      invariant 0 <= i <= |cells|
      invariant FirstIdFrom(cells, id, i) == FirstId(cells, id)
    {
      var k := 0;
      while k < |cells[i]|
        invariant 0 <= k <= |cells[i]|
        invariant FirstInRow(cells[i], id, k) == FirstInRow(cells[i], id, 0)
      {
        if cells[i][k].id == id {
          return Some((i, k));
        }
        k := k + 1;
      }
      i := i + 1;
    }
    return None;
  }

  // ---------------------------------------------------------------------
  // The arguments of a formula.

  /** The range test of a range argument `lo:hi`, as a function of the
      cell's id: inLimit as written, the columns compared as strings. */
  function Limit(lo: string, hi: string): string -> Result<bool, OdsError>
  {
    id => InLimitAsWritten(id, lo, hi)
  }

  /** A range argument: every cell in the range is touched; a cell whose id
      (or a range end) has no letters or no digits raises. */
  function RangeCell(c: Cell, inRange: string -> Result<bool, OdsError>, nf: string): Cell
  {
    if inRange(c.id) == Ok(true) then Touch(c, nf) else c
  }

  /** A range argument over one row, cell by cell. */
  function RangeRow(row: seq<Cell>, inRange: string -> Result<bool, OdsError>, nf: string): (r: Result<seq<Cell>, OdsError>)
    ensures r.Err? <==> exists b :: 0 <= b < |row| && inRange(row[b].id).Err?
    ensures r.Ok? ==> |r.value| == |row| && forall b :: 0 <= b < |row| ==> r.value[b] == RangeCell(row[b], inRange, nf)
    decreases |row|
  {
    if |row| == 0 then Ok([])
    else
      var last := row[|row| - 1];
      match RangeRow(row[..|row| - 1], inRange, nf)
      case Err(e) => Err(e)
      case Ok(init) =>
        match inRange(last.id)
        case Err(e) => Err(e)
        case Ok(inside) => Ok(init + [if inside then Touch(last, nf) else last])
  }

  /** A range argument over the sheet, row by row. */
  function RangeReferenced(cells: Sheet, inRange: string -> Result<bool, OdsError>, nf: string): (r: Result<Sheet, OdsError>)
    ensures r.Err? <==> exists a, b :: 0 <= a < |cells| && 0 <= b < |cells[a]| && inRange(cells[a][b].id).Err?
    ensures r.Ok? ==> |r.value| == |cells|
    ensures r.Ok? ==> forall a :: 0 <= a < |cells| ==> RangeRow(cells[a], inRange, nf) == Ok(r.value[a])
    decreases |cells|
  {
    if |cells| == 0 then Ok([])
    else
      match RangeReferenced(cells[..|cells| - 1], inRange, nf)
      case Err(e) => Err(e)
      case Ok(init) =>
        match RangeRow(cells[|cells| - 1], inRange, nf)
        case Err(e) => Err(e)
        case Ok(row) => Ok(init + [row])
  }

  /** A single-cell argument: the first cell with that id is touched. */
  function FirstReferenced(cells: Sheet, arg: string, nf: string): Sheet
  {
    match FirstId(cells, arg)
    case None => cells
    case Some((a, b)) => cells[a := cells[a][b := Touch(cells[a][b], nf)]]
  }

  /** One argument of the formula: a range when it holds `:`, which must
      then split into exactly two ends, a single cell otherwise. */
  function ApplyArgument(cells: Sheet, arg: string, nf: string): Result<Sheet, OdsError>
  {
    if ':' in arg then
      var ends := Split(arg, ':');
      if |ends| != 2 then Err(ValueError) else RangeReferenced(cells, Limit(ends[0], ends[1]), nf)
    else Ok(FirstReferenced(cells, arg, nf))
  }

  /** The arguments applied in order; the first failure stops the rest. */
  function ApplyArguments(cells: Sheet, args: seq<string>, nf: string): Result<Sheet, OdsError>
    decreases |args|
  {
    if |args| == 0 then Ok(cells)
    else match ApplyArguments(cells, args[..|args| - 1], nf)
      case Err(e) => Err(e)
      case Ok(c) => ApplyArgument(c, args[|args| - 1], nf)
  }

  /** The formula cell (the first cell with its id) marked processed. */
  function MarkProcessed(cells: Sheet, formulaCellId: string): Sheet
  {
    match FirstId(cells, formulaCellId)
    case None => cells
    case Some((a, b)) => cells[a := cells[a][b := cells[a][b].(processed := true)]]
  }

  /** What processFormula leaves: every argument applied, then the formula
      cell marked processed. */
  function FormulaProcessed(cells: Sheet, formulaCellId: string, formula: string, args: seq<string>)
    : Result<Sheet, OdsError>
  {
    match ApplyArguments(cells, args, NewFormula(formulaCellId, formula))
    case Err(e) => Err(e)
    case Ok(c) => Ok(MarkProcessed(c, formulaCellId))
  }

  // ---------------------------------------------------------------------
  // processFormula.

  /** The nested loops over the cells for a range argument. */
  method ReferenceRange(cells: Sheet, lo: string, hi: string, nf: string) returns (r: Result<Sheet, OdsError>)
    ensures r == RangeReferenced(cells, Limit(lo, hi), nf)
  {
    var out: Sheet := [];
    var a := 0;
    while a < |cells|
      invariant 0 <= a <= |cells|
      invariant RangeReferenced(cells[..a], Limit(lo, hi), nf) == Ok(out)
    {
      assert cells[..a + 1][..a] == cells[..a];
      var row := ReferenceRangeRow(cells[a], Limit(lo, hi), nf);
      if row.Err? {
        RangeReferencedStops(cells, Limit(lo, hi), nf, a + 1);
        return Err(row.error);
      }
      out := out + [row.value];
      a := a + 1;
    }
    assert cells[..a] == cells;
    r := Ok(out);
  }

  /** The inner loop for a range argument, over one row: each cell the
      range test accepts is touched. */
  method ReferenceRangeRow(row: seq<Cell>, inRange: string -> Result<bool, OdsError>, nf: string)
    returns (r: Result<seq<Cell>, OdsError>)
    ensures r == RangeRow(row, inRange, nf)
  {
    var out: seq<Cell> := [];
    var b := 0;
    while b < |row|
      invariant 0 <= b <= |row|
      invariant RangeRow(row[..b], inRange, nf) == Ok(out)
    {
      assert row[..b + 1][..b] == row[..b];
      var inside := inRange(row[b].id);
      if inside.Err? {
        RangeRowStops(row, inRange, nf, b + 1);
        return Err(inside.error);
      }
      if inside.value {
        out := out + [Touch(row[b], nf)];
      } else {
        out := out + [row[b]];
      }
      b := b + 1;
    }
    assert row[..b] == row;
    return Ok(out);
  }

  /** Once a cell of the row raises, the row's range argument raises with
      that error. */
  lemma {:induction false} RangeRowStops(row: seq<Cell>, inRange: string -> Result<bool, OdsError>, nf: string, b: nat)
    requires b <= |row| && RangeRow(row[..b], inRange, nf).Err?
    ensures RangeRow(row, inRange, nf) == RangeRow(row[..b], inRange, nf)
    decreases |row| - b
  {
    if b < |row| {
      assert row[..b + 1][..b] == row[..b];
      RangeRowStops(row, inRange, nf, b + 1);
    } else {
      assert row[..b] == row;
    }
  }

  lemma {:induction false} RangeReferencedStops(cells: Sheet, inRange: string -> Result<bool, OdsError>, nf: string, a: nat)
    requires a <= |cells| && RangeReferenced(cells[..a], inRange, nf).Err?
    ensures RangeReferenced(cells, inRange, nf) == RangeReferenced(cells[..a], inRange, nf)
    decreases |cells| - a
  {
    if a < |cells| {
      assert cells[..a + 1][..a] == cells[..a];
      RangeReferencedStops(cells, inRange, nf, a + 1);
    } else {
      assert cells[..a] == cells;
    }
  }

  /** processFormula: applies each argument of the formula, then marks the
      formula cell processed. */
  method ProcessFormula(cells: Sheet, formulaCellId: string, formula: string, elements: seq<string>)
    returns (r: Result<Sheet, OdsError>)
    ensures r == FormulaProcessed(cells, formulaCellId, formula, elements)
  {
    var nf := ReplaceFirst(formula, "of:=", "[" + formulaCellId + "]=");
    var cur := cells;
    var t := 0;
    while t < |elements|
      invariant 0 <= t <= |elements|
      invariant ApplyArguments(cells, elements[..t], nf) == Ok(cur)
    {
      var argument := elements[t];
      assert elements[..t + 1][..t] == elements[..t];
      var next: Result<Sheet, OdsError>;
      if ':' in argument {
        var ends := Split(argument, ':');
        if |ends| != 2 {
          next := Err(ValueError);
        } else {
          next := ReferenceRange(cur, ends[0], ends[1], nf);
        }
      } else {
        var p := FindId(cur, argument);
        if p.Some? {
          var (a, b) := p.value;
          cur := cur[a := cur[a][b := Touch(cur[a][b], nf)]];
        }
        next := Ok(cur);
      }
      if next.Err? {
        ApplyArgumentsStopsAtError(cells, elements, nf, t + 1);
        return Err(next.error);
      }
      cur := next.value;
      t := t + 1;
    }
    assert elements[..t] == elements;
    var p := FindId(cur, formulaCellId);
    if p.Some? {
      var (a, b) := p.value;
      cur := cur[a := cur[a][b := cur[a][b].(processed := true)]];
    }
    return Ok(cur);
  }

  /** Once an argument fails, processFormula fails with its error. */
  lemma {:induction false} ApplyArgumentsStopsAtError(cells: Sheet, args: seq<string>, nf: string, t: nat)
    requires t <= |args| && ApplyArguments(cells, args[..t], nf).Err?
    ensures ApplyArguments(cells, args, nf) == ApplyArguments(cells, args[..t], nf)
    decreases |args| - t
  {
    if t < |args| {
      assert args[..t + 1][..t] == args[..t];
      ApplyArgumentsStopsAtError(cells, args, nf, t + 1);
    } else {
      assert args[..t] == args;
    }
  }

  // ---------------------------------------------------------------------
  // What processFormula changes.

  /** d is c with its fixed attributes kept, processed not undone, and
      formulas only appended. */
  predicate Kept(c: Cell, d: Cell)
  {
    d.id == c.id && d.colId == c.colId && d.origFormula == c.origFormula
    && d.value == c.value && d.valueType == c.valueType
    && (c.processed ==> d.processed)
    && |c.formula| <= |d.formula| && d.formula[..|c.formula|] == c.formula
  }

  /** d is c after formula nf read it some number of times: nothing but nf
      appended, and still pending exactly when c was. */
  predicate Referenced(c: Cell, d: Cell, nf: string)
  {
    Kept(c, d) && Pending(d) == Pending(c)
    && forall k :: |c.formula| <= k < |d.formula| ==> d.formula[k] == nf
  }

  predicate SameShape(a: Sheet, b: Sheet)
  {
    |a| == |b| && forall i :: 0 <= i < |a| ==> |a[i]| == |b[i]|
  }

  predicate SheetReferenced(a: Sheet, b: Sheet, nf: string)
  {
    SameShape(a, b)
    && forall i, j :: 0 <= i < |a| && 0 <= j < |a[i]| ==> Referenced(a[i][j], b[i][j], nf)
  }

  predicate SheetKept(a: Sheet, b: Sheet)
  {
    SameShape(a, b)
    && forall i, j :: 0 <= i < |a| && 0 <= j < |a[i]| ==> Kept(a[i][j], b[i][j])
  }

  lemma TouchReferenced(c: Cell, nf: string)
    ensures Referenced(c, Touch(c, nf), nf)
    ensures nf in Touch(c, nf).formula
  {
    assert Touch(c, nf).formula[..|c.formula|] == c.formula;
    assert Touch(c, nf).formula[|c.formula|] == nf;
  }

  lemma ReferencedTransitive(c: Cell, d: Cell, e: Cell, nf: string)
    requires Referenced(c, d, nf) && Referenced(d, e, nf)
    ensures Referenced(c, e, nf)
  {
    assert e.formula[..|c.formula|] == e.formula[..|d.formula|][..|c.formula|];
    forall k | |c.formula| <= k < |e.formula|
      ensures e.formula[k] == nf
    {
      if k < |d.formula| {
        assert e.formula[k] == e.formula[..|d.formula|][k];
      }
    }
  }

  lemma KeptTransitive(c: Cell, d: Cell, e: Cell)
    requires Kept(c, d) && Kept(d, e)
    ensures Kept(c, e)
  {
    assert e.formula[..|c.formula|] == e.formula[..|d.formula|][..|c.formula|];
  }

  /** A formula already in a cell's list stays there. */
  lemma KeptFormula(c: Cell, d: Cell, f: string)
    requires Kept(c, d) && f in c.formula
    ensures f in d.formula
  {
    var k :| 0 <= k < |c.formula| && c.formula[k] == f;
    assert d.formula[..|c.formula|][k] == f;
  }

  lemma SheetReferencedTransitive(a: Sheet, b: Sheet, c: Sheet, nf: string)
    requires SheetReferenced(a, b, nf) && SheetReferenced(b, c, nf)
    ensures SheetReferenced(a, c, nf)
  {
    forall i, j | 0 <= i < |a| && 0 <= j < |a[i]|
      ensures Referenced(a[i][j], c[i][j], nf)
    {
      ReferencedTransitive(a[i][j], b[i][j], c[i][j], nf);
    }
  }

  lemma SheetKeptTransitive(a: Sheet, b: Sheet, c: Sheet)
    requires SheetKept(a, b) && SheetKept(b, c)
    ensures SheetKept(a, c)
  {
    forall i, j | 0 <= i < |a| && 0 <= j < |a[i]|
      ensures Kept(a[i][j], c[i][j])
    {
      KeptTransitive(a[i][j], b[i][j], c[i][j]);
    }
  }

  /** Cells keep their ids, so the search by id finds the same cell. */
  lemma {:induction false} FirstIdKept(a: Sheet, b: Sheet, id: string, from: nat)
    requires SheetKept(a, b) && from <= |a|
    ensures FirstIdFrom(a, id, from) == FirstIdFrom(b, id, from)
    decreases |a| - from
  {
    if from < |a| {
      FirstInRowKept(a[from], b[from], id, 0);
      FirstIdKept(a, b, id, from + 1);
    }
  }

  lemma {:induction false} FirstInRowKept(r: seq<Cell>, s: seq<Cell>, id: string, from: nat)
    requires |r| == |s| && from <= |r|
    requires forall k :: 0 <= k < |r| ==> s[k].id == r[k].id
    ensures FirstInRow(r, id, from) == FirstInRow(s, id, from)
    decreases |r| - from
  {
    if from < |r| {
      FirstInRowKept(r, s, id, from + 1);
    }
  }

  /** Applying one argument only appends the new formula to cells. */
  lemma ApplyArgumentReferenced(cells: Sheet, arg: string, nf: string)
    requires ApplyArgument(cells, arg, nf).Ok?
    ensures SheetReferenced(cells, ApplyArgument(cells, arg, nf).value, nf)
  {
    var out := ApplyArgument(cells, arg, nf).value;
    forall i, j | 0 <= i < |cells| && 0 <= j < |cells[i]|
      ensures Referenced(cells[i][j], out[i][j], nf)
    {
      TouchReferenced(cells[i][j], nf);
      assert out[i][j] == cells[i][j] || out[i][j] == Touch(cells[i][j], nf);
    }
  }

  lemma {:induction false} ApplyArgumentsReferenced(cells: Sheet, args: seq<string>, nf: string)
    requires ApplyArguments(cells, args, nf).Ok?
    ensures SheetReferenced(cells, ApplyArguments(cells, args, nf).value, nf)
    decreases |args|
  {
    if |args| == 0 {
      forall i, j | 0 <= i < |cells| && 0 <= j < |cells[i]|
        ensures Referenced(cells[i][j], cells[i][j], nf)
      {
        assert cells[i][j].formula[..|cells[i][j].formula|] == cells[i][j].formula;
      }
    } else {
      var init := args[..|args| - 1];
      ApplyArgumentsReferenced(cells, init, nf);
      var mid := ApplyArguments(cells, init, nf).value;
      ApplyArgumentReferenced(mid, args[|args| - 1], nf);
      SheetReferencedTransitive(cells, mid, ApplyArguments(cells, args, nf).value, nf);
    }
  }

  /** What processFormula promises: the cells keep their place, ids and
      values; nothing but the new formula is added to any cell; processed
      is never undone; and the only cell that stops being pending is the
      formula cell, which ends processed. */
  lemma FormulaProcessedFacts(cells: Sheet, formulaCellId: string, formula: string, args: seq<string>)
    requires FormulaProcessed(cells, formulaCellId, formula, args).Ok?
    ensures var out := FormulaProcessed(cells, formulaCellId, formula, args).value;
      SheetKept(cells, out)
      && (forall i, j :: 0 <= i < |cells| && 0 <= j < |cells[i]| ==>
            forall k :: |cells[i][j].formula| <= k < |out[i][j].formula| ==>
              out[i][j].formula[k] == NewFormula(formulaCellId, formula))
      && (forall i, j :: 0 <= i < |cells| && 0 <= j < |cells[i]| ==>
            (Pending(out[i][j]) <==> Pending(cells[i][j]) && FirstId(cells, formulaCellId) != Some((i, j))))
      && (FirstId(cells, formulaCellId).Some? ==>
            out[FirstId(cells, formulaCellId).value.0][FirstId(cells, formulaCellId).value.1].processed)
  {
    var nf := NewFormula(formulaCellId, formula);
    ApplyArgumentsReferenced(cells, args, nf);
    var mid := ApplyArguments(cells, args, nf).value;
    FirstIdKept(cells, mid, formulaCellId, 0);
    var out := MarkProcessed(mid, formulaCellId);
    forall i, j | 0 <= i < |cells| && 0 <= j < |cells[i]|
      ensures Kept(cells[i][j], out[i][j])
      ensures forall k :: |cells[i][j].formula| <= k < |out[i][j].formula| ==> out[i][j].formula[k] == nf
      ensures Pending(out[i][j]) <==> Pending(cells[i][j]) && FirstId(cells, formulaCellId) != Some((i, j))
    {
      assert Referenced(cells[i][j], mid[i][j], nf);
      assert out[i][j].formula == mid[i][j].formula;
    }
  }

  /** One argument reaches the cells it names: the first cell with a
      single argument's id, and every cell in a range argument. */
  lemma ArgumentReaches(cells: Sheet, arg: string, nf: string, i: nat, j: nat)
    requires ApplyArgument(cells, arg, nf).Ok?
    requires i < |cells| && j < |cells[i]|
    requires ':' !in arg ==> FirstId(cells, arg) == Some((i, j))
    requires ':' in arg ==>
      |Split(arg, ':')| == 2 && InLimitAsWritten(cells[i][j].id, Split(arg, ':')[0], Split(arg, ':')[1]) == Ok(true)
    ensures var out := ApplyArgument(cells, arg, nf).value;
      i < |out| && j < |out[i]| && nf in out[i][j].formula
  {
    TouchReferenced(cells[i][j], nf);
    if ':' in arg {
      var ends := Split(arg, ':');
      var out := ApplyArgument(cells, arg, nf).value;
      assert RangeRow(cells[i], Limit(ends[0], ends[1]), nf) == Ok(out[i]);
      assert out[i][j] == RangeCell(cells[i][j], Limit(ends[0], ends[1]), nf);
    }
  }

  /** Every cell an argument names gets the new formula: the first cell
      with a single argument's id, and every cell in a range argument. */
  lemma {:induction false} ArgumentsReach(cells: Sheet, args: seq<string>, nf: string, t: nat, i: nat, j: nat)
    requires ApplyArguments(cells, args, nf).Ok?
    requires t < |args| && i < |cells| && j < |cells[i]|
    requires ':' !in args[t] ==> FirstId(cells, args[t]) == Some((i, j))
    requires ':' in args[t] ==>
      |Split(args[t], ':')| == 2 && InLimitAsWritten(cells[i][j].id, Split(args[t], ':')[0], Split(args[t], ':')[1]) == Ok(true)
    ensures var out := ApplyArguments(cells, args, nf).value;
      i < |out| && j < |out[i]| && nf in out[i][j].formula
    decreases |args|
  {
    var init := args[..|args| - 1];
    var mid := ApplyArguments(cells, init, nf).value;
    ApplyArgumentsReferenced(cells, init, nf);
    ApplyArgumentReferenced(mid, args[|args| - 1], nf);
    var out := ApplyArguments(cells, args, nf).value;
    if t < |args| - 1 {
      assert init[t] == args[t];
      ArgumentsReach(cells, init, nf, t, i, j);
      KeptFormula(mid[i][j], out[i][j], nf);
    } else {
      var arg := args[t];
      assert mid[i][j].id == cells[i][j].id;
      if ':' !in arg {
        FirstIdKept(cells, mid, arg, 0);
      }
      ArgumentReaches(mid, arg, nf, i, j);
    }
  }

  // ---------------------------------------------------------------------
  // applyFormulaToCells.

  /** The positions of the pending formula cells. */
  function PendingSet(cells: Sheet): set<(nat, nat)>
  {
    set i: nat, j: nat | i < |cells| && j < |cells[i]| && Pending(cells[i][j]) :: (i, j)
  }

  /** Processing a pending formula cell of a sheet with distinct ids
      leaves exactly one pending cell fewer: that one. */
  lemma ProcessingPendingCell(cells: Sheet, i: nat, j: nat, args: seq<string>)
    requires DistinctIds(cells) && i < |cells| && j < |cells[i]| && Pending(cells[i][j])
    requires FormulaProcessed(cells, cells[i][j].id, cells[i][j].origFormula, args).Ok?
    ensures var out := FormulaProcessed(cells, cells[i][j].id, cells[i][j].origFormula, args).value;
      SheetKept(cells, out) && DistinctIds(out) && PendingSet(out) == PendingSet(cells) - {(i, j)}
  {
    var out: Sheet := FormulaProcessed(cells, cells[i][j].id, cells[i][j].origFormula, args).value;
    FirstIdOfDistinct(cells, i, j);
    FormulaProcessedFacts(cells, cells[i][j].id, cells[i][j].origFormula, args);
    assert forall a, b :: 0 <= a < |cells| && 0 <= b < |cells[a]| ==> out[a][b].id == cells[a][b].id;
  }

  /** Argument arg of a formula names cell (i, j): a range `lo:hi` every
      cell inLimit as written accepts, a single argument the first cell
      with that id. */
  predicate Names(cells: Sheet, arg: string, i: nat, j: nat)
    requires i < |cells| && j < |cells[i]|
  {
    if ':' in arg then
      |Split(arg, ':')| == 2 && InLimitAsWritten(cells[i][j].id, Split(arg, ':')[0], Split(arg, ':')[1]) == Ok(true)
    else FirstId(cells, arg) == Some((i, j))
  }

  /** Cells keep their ids, so an argument names the same cells. */
  lemma NamesKept(a: Sheet, b: Sheet, arg: string, i: nat, j: nat)
    requires SheetKept(a, b) && i < |a| && j < |a[i]|
    ensures Names(a, arg, i, j) == Names(b, arg, i, j)
  {
    if ':' !in arg {
      FirstIdKept(a, b, arg, 0);
    }
  }

  /** processFormula gives the new formula to every cell one of its
      arguments names. */
  lemma ProcessedReaches(cells: Sheet, formulaCellId: string, formula: string, args: seq<string>, t: nat, i: nat, j: nat)
    requires FormulaProcessed(cells, formulaCellId, formula, args).Ok?
    requires t < |args| && i < |cells| && j < |cells[i]| && Names(cells, args[t], i, j)
    ensures var out := FormulaProcessed(cells, formulaCellId, formula, args).value;
      i < |out| && j < |out[i]| && NewFormula(formulaCellId, formula) in out[i][j].formula
  {
    var nf := NewFormula(formulaCellId, formula);
    ArgumentsReach(cells, args, nf, t, i, j);
    MarkedFormula(ApplyArguments(cells, args, nf).value, formulaCellId, i, j);
  }

  /** Marking the formula cell processed changes no formula list. */
  lemma MarkedFormula(cells: Sheet, formulaCellId: string, i: nat, j: nat)
    requires i < |cells| && j < |cells[i]|
    ensures var out := MarkProcessed(cells, formulaCellId);
      i < |out| && j < |out[i]| && out[i][j].formula == cells[i][j].formula
  {
  }

  /** The formula of cell (a, b) of s0 has reached, in out, every cell
      that one of its arguments names in s0. */
  predicate FormulaApplied(s0: Sheet, out: Sheet, argsOf: string -> seq<string>, a: nat, b: nat)
    requires a < |s0| && b < |s0[a]| && SameShape(s0, out)
  {
    var args := argsOf(s0[a][b].origFormula);
    forall t, i, j :: 0 <= t < |args| && 0 <= i < |s0| && 0 <= j < |s0[i]| && Names(s0, args[t], i, j)
      ==> NewFormula(s0[a][b].id, s0[a][b].origFormula) in out[i][j].formula
  }

  /** Every formula cell of s0 that cells no longer has pending has been
      applied. */
  predicate AppliedSoFar(s0: Sheet, cells: Sheet, argsOf: string -> seq<string>)
    requires SameShape(s0, cells)
  {
    forall a, b :: 0 <= a < |s0| && 0 <= b < |s0[a]| && Pending(s0[a][b]) && !Pending(cells[a][b])
      ==> FormulaApplied(s0, cells, argsOf, a, b)
  }

  /** Processing one pending formula cell keeps every formula applied so
      far, and applies that cell's own. */
  lemma AppliedStep(s0: Sheet, cells: Sheet, argsOf: string -> seq<string>, i: nat, j: nat)
    requires DistinctIds(cells) && SheetKept(s0, cells) && AppliedSoFar(s0, cells, argsOf)
    requires i < |cells| && j < |cells[i]| && Pending(cells[i][j])
    requires FormulaProcessed(cells, cells[i][j].id, cells[i][j].origFormula, argsOf(cells[i][j].origFormula)).Ok?
    ensures var next := FormulaProcessed(cells, cells[i][j].id, cells[i][j].origFormula, argsOf(cells[i][j].origFormula)).value;
      SheetKept(s0, next) && AppliedSoFar(s0, next, argsOf)
  {
    var args := argsOf(cells[i][j].origFormula);
    var next := FormulaProcessed(cells, cells[i][j].id, cells[i][j].origFormula, args).value;
    ProcessingPendingCell(cells, i, j, args);
    SheetKeptTransitive(s0, cells, next);
    forall a, b | 0 <= a < |s0| && 0 <= b < |s0[a]| && Pending(s0[a][b]) && !Pending(next[a][b])
      ensures FormulaApplied(s0, next, argsOf, a, b)
    {
      var argsAB := argsOf(s0[a][b].origFormula);
      var nf := NewFormula(s0[a][b].id, s0[a][b].origFormula);
      forall t, x, y | 0 <= t < |argsAB| && 0 <= x < |s0| && 0 <= y < |s0[x]| && Names(s0, argsAB[t], x, y)
        ensures nf in next[x][y].formula
      {
        if Pending(cells[a][b]) {
          assert (a, b) in PendingSet(cells) && (a, b) !in PendingSet(next);
          NamesKept(s0, cells, argsAB[t], x, y);
          ProcessedReaches(cells, cells[i][j].id, cells[i][j].origFormula, args, t, x, y);
        } else {
          KeptFormula(cells[x][y], next[x][y], nf);
        }
      }
    }
  }

  /** A cell's list grows under one argument only when the argument names
      the cell: the converse of ArgumentReaches. */
  lemma ArgumentOnlyNamed(cells: Sheet, arg: string, nf: string, i: nat, j: nat)
    requires ApplyArgument(cells, arg, nf).Ok? && i < |cells| && j < |cells[i]|
    ensures var out := ApplyArgument(cells, arg, nf).value;
      i < |out| && j < |out[i]| && |out[i][j].formula| > |cells[i][j].formula| ==> Names(cells, arg, i, j)
  {
    var out := ApplyArgument(cells, arg, nf).value;
    if ':' in arg {
      var ends := Split(arg, ':');
      assert RangeRow(cells[i], Limit(ends[0], ends[1]), nf) == Ok(out[i]);
      assert out[i][j] == RangeCell(cells[i][j], Limit(ends[0], ends[1]), nf);
    }
  }

  /** A cell's list grows under the arguments only when one of them names
      the cell. */
  lemma {:induction false} ArgumentsOnlyNamed(cells: Sheet, args: seq<string>, nf: string, i: nat, j: nat)
    requires ApplyArguments(cells, args, nf).Ok? && i < |cells| && j < |cells[i]|
    ensures var out := ApplyArguments(cells, args, nf).value;
      i < |out| && j < |out[i]| && |out[i][j].formula| > |cells[i][j].formula|
      ==> exists t :: 0 <= t < |args| && Names(cells, args[t], i, j)
    decreases |args|
  {
    if |args| > 0 {
      var init := args[..|args| - 1];
      var last := args[|args| - 1];
      var mid := ApplyArguments(cells, init, nf).value;
      ApplyArgumentsReferenced(cells, init, nf);
      assert SheetKept(cells, mid);
      if |mid[i][j].formula| > |cells[i][j].formula| {
        ArgumentsOnlyNamed(cells, init, nf, i, j);
        var t :| 0 <= t < |init| && Names(cells, init[t], i, j);
        assert init[t] == args[t];
      } else {
        ArgumentOnlyNamed(mid, last, nf, i, j);
        NamesKept(cells, mid, last, i, j);
        if Names(cells, last, i, j) {
          assert args[|args| - 1] == last;
        }
      }
    }
  }

  /** f is the new formula of a formula cell (a, b) pending in s0, one of
      whose arguments names cell (i, j). */
  predicate NewFormulaFor(s0: Sheet, argsOf: string -> seq<string>, i: nat, j: nat, f: string)
    requires i < |s0| && j < |s0[i]|
  {
    exists a, b, t :: 0 <= a < |s0| && 0 <= b < |s0[a]| && Pending(s0[a][b])
      && 0 <= t < |argsOf(s0[a][b].origFormula)| && Names(s0, argsOf(s0[a][b].origFormula)[t], i, j)
      && f == NewFormula(s0[a][b].id, s0[a][b].origFormula)
  }

  /** Every formula that cells has gained over s0 is the new formula of a
      pending formula cell of s0 that names it. */
  predicate OnlyApplied(s0: Sheet, cells: Sheet, argsOf: string -> seq<string>)
    requires SheetKept(s0, cells)
  {
    forall i, j, k :: 0 <= i < |s0| && 0 <= j < |s0[i]| && |s0[i][j].formula| <= k < |cells[i][j].formula|
      ==> NewFormulaFor(s0, argsOf, i, j, cells[i][j].formula[k])
  }

  /** Processing one pending formula cell adds only its own formula, and
      only to cells its arguments name. */
  lemma OnlyAppliedStep(s0: Sheet, cells: Sheet, argsOf: string -> seq<string>, i: nat, j: nat)
    requires DistinctIds(cells) && SheetKept(s0, cells) && OnlyApplied(s0, cells, argsOf)
    requires i < |cells| && j < |cells[i]| && Pending(cells[i][j])
    requires FormulaProcessed(cells, cells[i][j].id, cells[i][j].origFormula, argsOf(cells[i][j].origFormula)).Ok?
    ensures var next := FormulaProcessed(cells, cells[i][j].id, cells[i][j].origFormula, argsOf(cells[i][j].origFormula)).value;
      SheetKept(s0, next) && OnlyApplied(s0, next, argsOf)
  {
    var args := argsOf(cells[i][j].origFormula);
    var nf := NewFormula(cells[i][j].id, cells[i][j].origFormula);
    var next := FormulaProcessed(cells, cells[i][j].id, cells[i][j].origFormula, args).value;
    FormulaProcessedFacts(cells, cells[i][j].id, cells[i][j].origFormula, args);
    SheetKeptTransitive(s0, cells, next);
    forall x, y, k | 0 <= x < |s0| && 0 <= y < |s0[x]| && |s0[x][y].formula| <= k < |next[x][y].formula|
      ensures NewFormulaFor(s0, argsOf, x, y, next[x][y].formula[k])
    {
      if k < |cells[x][y].formula| {
        assert next[x][y].formula[k] == next[x][y].formula[..|cells[x][y].formula|][k];
      } else {
        NewFormulaFromNamed(s0, cells, argsOf, i, j, x, y);
      }
    }
  }

  /** The formula cell being processed is pending in s0, and a cell whose
      list grows is named by one of its arguments in s0. */
  lemma NewFormulaFromNamed(s0: Sheet, cells: Sheet, argsOf: string -> seq<string>, i: nat, j: nat, x: nat, y: nat)
    requires SheetKept(s0, cells)
    requires i < |cells| && j < |cells[i]| && Pending(cells[i][j])
    requires x < |cells| && y < |cells[x]|
    requires FormulaProcessed(cells, cells[i][j].id, cells[i][j].origFormula, argsOf(cells[i][j].origFormula)).Ok?
    ensures var next := FormulaProcessed(cells, cells[i][j].id, cells[i][j].origFormula, argsOf(cells[i][j].origFormula)).value;
      x < |next| && y < |next[x]| && |next[x][y].formula| > |cells[x][y].formula|
      ==> NewFormulaFor(s0, argsOf, x, y, NewFormula(cells[i][j].id, cells[i][j].origFormula))
  {
    var args := argsOf(cells[i][j].origFormula);
    var nf := NewFormula(cells[i][j].id, cells[i][j].origFormula);
    var mid := ApplyArguments(cells, args, nf).value;
    ApplyArgumentsReferenced(cells, args, nf);
    MarkedFormula(mid, cells[i][j].id, x, y);
    ArgumentsOnlyNamed(cells, args, nf, x, y);
    if |mid[x][y].formula| > |cells[x][y].formula| {
      var t :| 0 <= t < |args| && Names(cells, args[t], x, y);
      NamesKept(s0, cells, args[t], x, y);
      assert Kept(s0[i][j], cells[i][j]);
      assert Pending(s0[i][j]);
      assert NewFormulaFor(s0, argsOf, x, y, nf) by {
        assert Names(s0, argsOf(s0[i][j].origFormula)[t], x, y);
      }
    }
  }

  /** The first pending formula cell of a row, as the inner loop of
      applyFormulaToCells finds it before it breaks. */
  method FindPending(row: seq<Cell>) returns (j: Option<nat>)
    ensures j.Some? ==> j.value < |row| && Pending(row[j.value])
    ensures j.Some? ==> forall k :: 0 <= k < j.value ==> !Pending(row[k])
    ensures j.None? ==> forall k :: 0 <= k < |row| ==> !Pending(row[k])
  {
    var k := 0;
    while k < |row|
      invariant 0 <= k <= |row|
      invariant forall n :: 0 <= n < k ==> !Pending(row[n])
    {
      if Pending(row[k]) {
        return Some(k);
      }
      k := k + 1;
    }
    return None;
  }

  /** applyFormulaToCells: pass after pass, the first pending formula cell
      of each row is processed, until a pass finds none. Each pass leaves
      fewer pending cells, so with distinct ids the passes stop, and then
      every formula cell is processed, its formula copied onto every cell
      its arguments name. */
  method ApplyFormulaToCells(sCells: Sheet, argsOf: string -> seq<string>) returns (r: Result<Sheet, OdsError>)
    requires DistinctIds(sCells)
    ensures r.Ok? ==> SheetKept(sCells, r.value)
    ensures r.Ok? ==> forall i, j :: 0 <= i < |r.value| && 0 <= j < |r.value[i]| ==> !Pending(r.value[i][j])
    ensures r.Ok? ==>
              forall a, b :: 0 <= a < |sCells| && 0 <= b < |sCells[a]| && Pending(sCells[a][b])
                ==> FormulaApplied(sCells, r.value, argsOf, a, b)
    ensures r.Ok? ==>
              forall i, j, k :: 0 <= i < |sCells| && 0 <= j < |sCells[i]| && |sCells[i][j].formula| <= k < |r.value[i][j].formula|
                ==> NewFormulaFor(sCells, argsOf, i, j, r.value[i][j].formula[k])
  {
    var cells := sCells;
    assert SheetKept(sCells, cells) by {
      forall i, j | 0 <= i < |sCells| && 0 <= j < |sCells[i]|
        ensures Kept(sCells[i][j], cells[i][j])
      {
        assert cells[i][j].formula[..|cells[i][j].formula|] == cells[i][j].formula;
      }
    }
    while true
      invariant DistinctIds(cells) && SheetKept(sCells, cells) && AppliedSoFar(sCells, cells, argsOf)
        && OnlyApplied(sCells, cells, argsOf)
      decreases PendingSet(cells)
    {
      var processedFormula := false;
      ghost var before := PendingSet(cells);
      ghost var start := cells;
      var i := 0;
      while i < |cells|
        invariant 0 <= i <= |cells|
        invariant DistinctIds(cells) && SheetKept(sCells, cells) && AppliedSoFar(sCells, cells, argsOf)
          && OnlyApplied(sCells, cells, argsOf)
        invariant processedFormula ==> PendingSet(cells) < before
        invariant !processedFormula ==> cells == start
        invariant !processedFormula ==> forall a, b :: 0 <= a < i && 0 <= b < |cells[a]| ==> !Pending(cells[a][b])
      {
        var j := FindPending(cells[i]);
        if j.Some? {
          var aCell := cells[i][j.value];
          var next := ProcessFormula(cells, aCell.id, aCell.origFormula, argsOf(aCell.origFormula));
          if next.Err? {
            return Err(next.error);
          }
          ProcessingPendingCell(cells, i, j.value, argsOf(aCell.origFormula));
          AppliedStep(sCells, cells, argsOf, i, j.value);
          OnlyAppliedStep(sCells, cells, argsOf, i, j.value);
          assert (i, j.value) in PendingSet(cells);
          cells := next.value;
          processedFormula := true;
        }
        i := i + 1;
      }
      if !processedFormula {
        break;
      }
    }
    return Ok(cells);
  }
}
