/** FormulaRenderer: turns a formula's parsed tokens (POI "Ptg"s, in Reverse
    Polish order) into infix text in the OpenDocument formula syntax
    (`[.A1]`, `[.A1:.B2]`, `;` between arguments), with one pass over the
    tokens and a stack of rendered strings. */
module FormulaRenderer {
  import opened Wrappers
  import opened Text
  import opened CellLabels

  /** The option bits of a tAttr token that the renderer tests, and the
      operand count of a tAttrSum. */
  datatype AttrFlags = AttrFlags(
    optimizedIf: bool, optimizedChoose: bool, skip: bool,
    space: bool, semiVolatile: bool, sum: bool, operandCount: nat)

  /** How POI renders a value operator from its operands. */
  datatype OperatorShape = Binary(symbol: string) | Prefix(symbol: string) | Postfix(symbol: string)

  /** The token kinds the renderer tells apart. */
  datatype Ptg =
    | MemArea | MemFunc | MemErr
    | Parenthesis
    | Attr(flags: AttrFlags)
      /** a defined name or 3-D reference, rendered by the workbook */
    | WorkbookDependent(text: string)
      /** `wholeColumnText` is Some(t) when POI classifies the area as whole
          columns and renders it as t */
    | Area(firstRow: nat, firstCol: nat, lastRow: nat, lastCol: nat,
           firstRowAbs: bool, firstColAbs: bool, lastRowAbs: bool, lastColAbs: bool,
           wholeColumnText: Option<string>)
    | Ref(row: nat, col: nat, rowAbs: bool, colAbs: bool)
      /** any other operand token (numbers, strings, booleans, errors, ...),
          with the text POI renders for it */
    | Operand(text: string)
    | Operator(shape: OperatorShape)
      /** a built-in or external function call with its operand count */
    | Function(name: string, arity: nat, external: bool)

  /** The exceptions the renderer raises. */
  datatype RenderError =
    | EmptyFormula                             // IllegalArgumentException: null or empty token array
    | TooFewOperands(expected: nat, got: nat)  // IllegalStateException from getOperands
    | EmptyStack                               // Stack.pop for a parenthesis with nothing to wrap
    | UnexpectedAttr                           // RuntimeException: an attr kind it does not handle
    | MissingFunctionName                      // operands[0] of an external call with no operands
    | StackUnderflow                           // IllegalStateException: nothing left at the end
    | TooMuchLeft                              // IllegalStateException: more than one string left

  function Arity(shape: OperatorShape): nat
  {
    if shape.Binary? then 2 else 1
  }

  function OperatorText(shape: OperatorShape, ops: seq<string>): string
    requires |ops| == Arity(shape)
  {
    match shape
    case Binary(sym) => ops[0] + sym + ops[1]
    case Prefix(sym) => sym + ops[0]
    case Postfix(sym) => ops[0] + sym
  }

  /** `name(op0;op1;...)` for a built-in function; for an external one the
      first operand is the name and the others are the arguments. */
  function FunctionText(name: string, external: bool, ops: seq<string>): Result<string, RenderError>
  {
    if external then
      if |ops| == 0 then Err(MissingFunctionName) else Ok(ops[0] + "(" + Join(ops[1..], ";") + ")")
    else Ok(name + "(" + Join(ops, ";") + ")")
  }

  function SumText(ops: seq<string>): string
  {
    "SUM(" + Join(ops, ";") + ")"
  }

  /** formatReferenceAsString: the whole-column form when POI classifies the
      area so, otherwise both corners, each with its own `$` sigils. */
  function AreaText(t: Ptg): string
    requires t.Area?
  {
    match t.wholeColumnText
    case Some(text) => text
    case None =>
      "[." + CellLabel(t.firstRow, t.firstCol, t.firstRowAbs, t.firstColAbs)
      + ":" + "." + CellLabel(t.lastRow, t.lastCol, t.lastRowAbs, t.lastColAbs) + "]"
  }

  function RefText(t: Ptg): string
    requires t.Ref?
  {
    "[." + CellLabel(t.row, t.col, t.rowAbs, t.colAbs) + "]"
  }

  /** An attr token that the renderer drops. */
  predicate AttrIgnored(f: AttrFlags)
  {
    f.optimizedIf || f.optimizedChoose || f.skip || f.space || f.semiVolatile
  }

  /** The top n strings of the stack in push order, and what is left below
      them. */
  function TakeOperands(stack: seq<string>, n: nat): Result<(seq<string>, seq<string>), RenderError>
  {
    if |stack| < n then Err(TooFewOperands(n, |stack|))
    else Ok((stack[|stack| - n..], stack[..|stack| - n]))
  }

  function Push(stack: seq<string>, s: string): seq<string> { stack + [s] }

  /** The effect of one token on the stack. */
  function Step(stack: seq<string>, t: Ptg): Result<seq<string>, RenderError>
  {
    match t
    case MemArea => Ok(stack)
    case MemFunc => Ok(stack)
    case MemErr => Ok(stack)
    case Parenthesis =>
      if |stack| == 0 then Err(EmptyStack)
      else Ok(stack[..|stack| - 1] + ["(" + stack[|stack| - 1] + ")"])
    case Attr(f) =>
      if AttrIgnored(f) then Ok(stack)
      else if f.sum then
        (match TakeOperands(stack, f.operandCount)
         case Err(e) => Err(e)
         case Ok((ops, rest)) => Ok(Push(rest, SumText(ops))))
      else Err(UnexpectedAttr)
    case WorkbookDependent(text) => Ok(Push(stack, text))
    case Area(_, _, _, _, _, _, _, _, _) => Ok(Push(stack, AreaText(t)))
    case Ref(_, _, _, _) => Ok(Push(stack, RefText(t)))
    case Operand(text) => Ok(Push(stack, text))
    case Operator(shape) =>
      (match TakeOperands(stack, Arity(shape))
       case Err(e) => Err(e)
       case Ok((ops, rest)) => Ok(Push(rest, OperatorText(shape, ops))))
    case Function(name, arity, external) =>
      match TakeOperands(stack, arity)
      case Err(e) => Err(e)
      case Ok((ops, rest)) =>
        match FunctionText(name, external, ops)
        case Err(e) => Err(e)
        case Ok(text) => Ok(Push(rest, text))
  }

  /** The stack after all the tokens, or the first error. */
  function Run(stack: seq<string>, ptgs: seq<Ptg>): Result<seq<string>, RenderError>
    decreases |ptgs|
  {
    if |ptgs| == 0 then Ok(stack)
    else
      match Step(stack, ptgs[0])
      case Err(e) => Err(e)
      case Ok(next) => Run(next, ptgs[1..])
  }

  /** toFormulaString(book, ptgs): the single string left on the stack. */
  function Render(ptgs: seq<Ptg>): Result<string, RenderError>
  {
    if |ptgs| == 0 then Err(EmptyFormula)
    else
      match Run([], ptgs)
      case Err(e) => Err(e)
      case Ok(stack) =>
        if |stack| == 0 then Err(StackUnderflow)
        else if |stack| > 1 then Err(TooMuchLeft)
        else Ok(stack[0])
  }

  // ---------------------------------------------------------------------
  // The Java methods.

  /** getOperands: pops n strings into an array, filling it from the end so
      that index 0 holds the earliest pushed. */
  method GetOperands(stack: seq<string>, n: nat) returns (r: Result<(seq<string>, seq<string>), RenderError>)
    ensures r.Ok? <==> n <= |stack|
    ensures r.Ok? ==> |r.value.0| == n && r.value.1 + r.value.0 == stack
    ensures r.Err? ==> r.error == TooFewOperands(n, |stack|)
  {
    var operands := new string[n];
    var rest := stack;
    var j := n;
    while j > 0
      invariant 0 <= j <= n
      invariant |rest| + (n - j) == |stack|
      invariant rest == stack[..|rest|]
      invariant operands[j..] == stack[|rest|..]
    {
      if |rest| == 0 {
        return Err(TooFewOperands(n, n - j));
      }
      j := j - 1;
      var top := rest[|rest| - 1];
      assert stack[|rest| - 1..] == [top] + stack[|rest|..];
      operands[j] := top;
      assert operands[j..] == [top] + operands[j + 1..];
      rest := rest[..|rest| - 1];
    }
    r := Ok((operands[..], rest));
  }

  /** appendArgs: `(`, the operands from firstArgIx on separated by `;`, `)`. */
  method AppendArgs(buf: string, firstArgIx: nat, operands: seq<string>) returns (r: string)
    ensures firstArgIx <= |operands| ==> r == buf + "(" + Join(operands[firstArgIx..], ";") + ")"
    ensures firstArgIx > |operands| ==> r == buf + "()"
  {
    r := buf + "(";
    var i := firstArgIx;
    while i < |operands|
      invariant firstArgIx <= |operands| ==> firstArgIx <= i <= |operands|
      invariant i < |operands| ==> firstArgIx <= i
      invariant firstArgIx <= i <= |operands| ==> r == buf + "(" + Join(operands[firstArgIx..i], ";")
      invariant firstArgIx > |operands| ==> r == buf + "("
    {
      if i > firstArgIx {
        r := r + ";";
      }
      r := r + operands[i];
      if i > firstArgIx {
        JoinSnoc(operands[firstArgIx..i], operands[i], ";");
      }
      assert operands[firstArgIx..i + 1] == operands[firstArgIx..i] + [operands[i]];
      i := i + 1;
    }
    if firstArgIx <= |operands| {
      assert operands[firstArgIx..i] == operands[firstArgIx..];
    }
    r := r + ")";
  }

  /** toFormulaString(AbstractFunctionPtg, operands). */
  method FunctionToFormulaString(name: string, external: bool, operands: seq<string>)
    returns (r: Result<string, RenderError>)
    ensures external && |operands| > 0 ==> r == Ok(operands[0] + "(" + Join(operands[1..], ";") + ")")
    ensures external && |operands| == 0 ==> r == Err(MissingFunctionName)
    ensures !external ==> r == Ok(name + "(" + Join(operands, ";") + ")")
  {
    if external {
      if |operands| == 0 {
        return Err(MissingFunctionName);
      }
      var s := AppendArgs(operands[0], 1, operands);
      r := Ok(s);
    } else {
      var s := AppendArgs(name, 0, operands);
      assert operands[0..] == operands;
      r := Ok(s);
    }
  }

  /** toFormulaString(book, ptgs): the token loop over an explicit stack. */
  method ToFormulaString(ptgs: seq<Ptg>) returns (r: Result<string, RenderError>)
    ensures r == Render(ptgs)
    ensures |ptgs| == 0 ==> r == Err(EmptyFormula)
  {
    if |ptgs| == 0 {
      return Err(EmptyFormula);
    }
    var stack: seq<string> := [];
    var i := 0;
    while i < |ptgs|
      invariant 0 <= i <= |ptgs|
      invariant Run(stack, ptgs[i..]) == Run([], ptgs)
    {
      var ptg := ptgs[i];
      assert ptgs[i..][0] == ptg && ptgs[i..][1..] == ptgs[i + 1..];
      match ptg {
        case MemArea =>
        case MemFunc =>
        case MemErr =>
        case Parenthesis =>
          if |stack| == 0 {
            return Err(EmptyStack);
          }
          var contents := stack[|stack| - 1];
          stack := stack[..|stack| - 1] + ["(" + contents + ")"];
        case Attr(f) =>
          if !AttrIgnored(f) {
            if !f.sum {
              return Err(UnexpectedAttr);
            }
            var got := GetOperands(stack, f.operandCount);
            if got.Err? {
              return Err(got.error);
            }
            assert got.value.0 == stack[|stack| - f.operandCount..];
            stack := got.value.1 + [SumText(got.value.0)];
          }
        case WorkbookDependent(text) =>
          stack := stack + [text];
        case Area(_, _, _, _, _, _, _, _, _) =>
          stack := stack + [AreaText(ptg)];
        case Ref(_, _, _, _) =>
          stack := stack + [RefText(ptg)];
        case Operand(text) =>
          stack := stack + [text];
        case Operator(shape) =>
          var got := GetOperands(stack, Arity(shape));
          if got.Err? {
            return Err(got.error);
          }
          assert got.value.0 == stack[|stack| - Arity(shape)..];
          stack := got.value.1 + [OperatorText(shape, got.value.0)];
        case Function(name, arity, external) =>
          var got := GetOperands(stack, arity);
          if got.Err? {
            return Err(got.error);
          }
          assert got.value.0 == stack[|stack| - arity..];
          var text := FunctionToFormulaString(name, external, got.value.0);
          if text.Err? {
            return Err(text.error);
          }
          stack := got.value.1 + [text.value];
      }
      i := i + 1;
    }
    assert ptgs[|ptgs|..] == [];
    if |stack| == 0 {
      return Err(StackUnderflow);
    }
    var result := stack[|stack| - 1];
    if |stack| > 1 {
      return Err(TooMuchLeft);
    }
    r := Ok(result);
  }

  // ---------------------------------------------------------------------
  // Stack discipline.

  /** How many strings a token pops. */
  function Consumed(t: Ptg): nat
  {
    match t
    case Parenthesis => 1
    case Attr(f) => if AttrIgnored(f) || !f.sum then 0 else f.operandCount
    case Operator(shape) => Arity(shape)
    case Function(_, arity, _) => arity
    case _ => 0
  }

  /** How many strings a token pushes. */
  function Produced(t: Ptg): nat
  {
    match t
    case MemArea => 0
    case MemFunc => 0
    case MemErr => 0
    case Attr(f) => if AttrIgnored(f) then 0 else 1
    case _ => 1
  }

  /** A token the renderer can handle once its operands are there. */
  predicate Renderable(t: Ptg)
  {
    match t
    case Attr(f) => AttrIgnored(f) || f.sum
    case Function(_, arity, external) => !external || arity > 0
    case _ => true
  }

  /** Starting from a stack of depth d, no token asks for more operands than
      the stack holds. */
  predicate Fits(d: nat, ptgs: seq<Ptg>)
    decreases |ptgs|
  {
    |ptgs| == 0
    || (Renderable(ptgs[0]) && Consumed(ptgs[0]) <= d
        && Fits(d - Consumed(ptgs[0]) + Produced(ptgs[0]), ptgs[1..]))
  }

  /** The stack depth after the tokens. */
  function FinalDepth(d: nat, ptgs: seq<Ptg>): nat
    requires Fits(d, ptgs)
    decreases |ptgs|
  {
    if |ptgs| == 0 then d else FinalDepth(d - Consumed(ptgs[0]) + Produced(ptgs[0]), ptgs[1..])
  }

  /** One token fails exactly when it cannot be rendered or finds too few
      operands; otherwise it replaces the top Consumed(t) strings by
      Produced(t) strings and leaves everything below them alone. A
      parenthesis thus keeps the depth, the Mem and ignored attr tokens
      keep the whole stack. */
  lemma StepEffect(stack: seq<string>, t: Ptg)
    ensures Step(stack, t).Ok? <==> Renderable(t) && Consumed(t) <= |stack|
    ensures Step(stack, t).Ok? ==>
      && |Step(stack, t).value| == |stack| - Consumed(t) + Produced(t)
      && Step(stack, t).value[..|stack| - Consumed(t)] == stack[..|stack| - Consumed(t)]
    ensures Step(stack, t).Ok? && Produced(t) == 0 ==> Step(stack, t).value == stack
    ensures !Renderable(t) && t.Attr? ==> Step(stack, t) == Err(UnexpectedAttr)
  {
    match t {
      case Parenthesis =>
        if |stack| > 0 {
          assert Step(stack, t).value[..|stack| - 1] == stack[..|stack| - 1];
        }
      case _ =>
    }
  }

  /** Running the tokens succeeds exactly when they fit the stack, and then
      leaves FinalDepth strings. */
  lemma {:induction false} RunSucceedsIffFits(stack: seq<string>, ptgs: seq<Ptg>)
    ensures Run(stack, ptgs).Ok? <==> Fits(|stack|, ptgs)
    ensures Run(stack, ptgs).Ok? ==> |Run(stack, ptgs).value| == FinalDepth(|stack|, ptgs)
    decreases |ptgs|
  {
    if |ptgs| > 0 {
      StepEffect(stack, ptgs[0]);
      var step := Step(stack, ptgs[0]);
      if step.Ok? {
        RunSucceedsIffFits(step.value, ptgs[1..]);
      }
    }
  }

  /** toFormulaString returns a string exactly when the token array is
      non-empty, fits the stack and leaves exactly one string; with one
      fitting it reports an empty stack or leftovers as such. */
  lemma RenderSucceedsIff(ptgs: seq<Ptg>)
    ensures Render(ptgs).Ok? <==> |ptgs| > 0 && Fits(0, ptgs) && FinalDepth(0, ptgs) == 1
    ensures |ptgs| > 0 && Fits(0, ptgs) && FinalDepth(0, ptgs) == 0 ==> Render(ptgs) == Err(StackUnderflow)
    ensures |ptgs| > 0 && Fits(0, ptgs) && FinalDepth(0, ptgs) > 1 ==> Render(ptgs) == Err(TooMuchLeft)
  {
    RunSucceedsIffFits([], ptgs);
  }

  // ---------------------------------------------------------------------
  // Reference texts.

  /** A relative label is letters and digits, never a colon. */
  lemma LabelHasNoColon(r: nat, c: nat)
    ensures ':' !in Label(r, c)
  {
    LabelParts(r, c);
    var l, d := ColumnLabel(c), NatToString(r + 1);
    forall i | 0 <= i < |l + d|
      ensures (l + d)[i] != ':'
    {
      if i < |l| {
        assert (l + d)[i] == l[i];
      } else {
        assert (l + d)[i] == d[i - |l|];
      }
    }
  }

  /** The first colon of x + ":" + y is the one after x when x has none. */
  lemma FirstColon(x: string, y: string)
    requires ':' !in x
    ensures IndexOf(x + ":" + y, ":", 0) == Some(|x|)
  {
    var s := x + ":" + y;
    assert OccursAt(s, ":", |x|) by {
      assert s[|x|..|x| + 1] == ":";
    }
    forall k: nat | k < |x|
      ensures !OccursAt(s, ":", k)
    {
      assert s[k] == x[k];
    }
  }

  /** Text around the first colon splits in one way only. */
  lemma ColonSplit(x1: string, y1: string, x2: string, y2: string)
    requires ':' !in x1 && ':' !in x2
    requires x1 + ":" + y1 == x2 + ":" + y2
    ensures x1 == x2 && y1 == y2
  {
    var s := x1 + ":" + y1;
    FirstColon(x1, y1);
    FirstColon(x2, y2);
    assert x1 == s[..|x1|] == x2;
    assert y1 == s[|x1| + 1..] == y2;
  }

  /** The text of an area with relative corners that is not whole
      columns, between its brackets. */
  lemma AreaTextInner(a: Ptg)
    requires a.Area? && a.wholeColumnText.None? && !a.firstRowAbs && !a.firstColAbs && !a.lastRowAbs && !a.lastColAbs
    ensures |AreaText(a)| >= 3
    ensures AreaText(a)[2..|AreaText(a)| - 1] == Label(a.firstRow, a.firstCol) + ":" + ("." + Label(a.lastRow, a.lastCol))
  {
    var x := Label(a.firstRow, a.firstCol) + ":" + ("." + Label(a.lastRow, a.lastCol));
    assert AreaText(a) == "[." + x + "]";
  }

  /** formatReferenceAsString names an area by its corners: two areas with
      relative corners that are not whole columns render alike only when
      they are the same area. */
  lemma AreaTextIdentifiesArea(a: Ptg, b: Ptg)
    requires a.Area? && a.wholeColumnText.None? && !a.firstRowAbs && !a.firstColAbs && !a.lastRowAbs && !a.lastColAbs
    requires b.Area? && b.wholeColumnText.None? && !b.firstRowAbs && !b.firstColAbs && !b.lastRowAbs && !b.lastColAbs
    requires AreaText(a) == AreaText(b)
    ensures a == b
  {
    var ta, ba := Label(a.firstRow, a.firstCol), Label(a.lastRow, a.lastCol);
    var tb, bb := Label(b.firstRow, b.firstCol), Label(b.lastRow, b.lastCol);
    AreaTextInner(a);
    AreaTextInner(b);
    LabelHasNoColon(a.firstRow, a.firstCol);
    LabelHasNoColon(b.firstRow, b.firstCol);
    ColonSplit(ta, "." + ba, tb, "." + bb);
    assert ba == ("." + ba)[1..] == ("." + bb)[1..] == bb;
    LabelInjective(a.firstRow, a.firstCol, b.firstRow, b.firstCol);
    LabelInjective(a.lastRow, a.lastCol, b.lastRow, b.lastCol);
  }
}
