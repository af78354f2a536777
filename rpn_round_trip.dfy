/** The renderer read against a reference: formula expression trees, the
    Reverse Polish token order in which a formula parser emits them, and the
    infix text each tree stands for. Rendering the tokens of any tree gives
    back exactly that tree's text, so the stack machine puts every operand
    where it belongs (left before right, arguments in order). */
module RpnRoundTrip {
  import opened Wrappers
  import opened Text
  import opened CellLabels
  import opened FormulaRenderer

  /** A formula as a tree. */
  datatype Expr =
    | Lit(text: string)
    | CellRef(row: nat, col: nat, rowAbs: bool, colAbs: bool)
    | Group(inner: Expr)
    | Bin(symbol: string, left: Expr, right: Expr)
    | Pre(symbol: string, operand: Expr)
    | Post(symbol: string, operand: Expr)
    | Call(name: string, args: seq<Expr>)
      /** a call of a function from an add-in: the parser pushes the name
          as the first operand */
    | ExtCall(name: string, args: seq<Expr>)

  /** The tokens of a tree in Reverse Polish order. */
  function ToRpn(e: Expr): seq<Ptg>
    decreases e, 1
  {
    match e
    case Lit(text) => [Operand(text)]
    case CellRef(r, c, ra, ca) => [Ref(r, c, ra, ca)]
    case Group(inner) => ToRpn(inner) + [Parenthesis]
    case Bin(sym, l, r) => ToRpn(l) + ToRpn(r) + [Operator(Binary(sym))]
    case Pre(sym, x) => ToRpn(x) + [Operator(Prefix(sym))]
    case Post(sym, x) => ToRpn(x) + [Operator(Postfix(sym))]
    case Call(name, args) => ArgsRpn(args) + [Function(name, |args|, false)]
    case ExtCall(name, args) => [Operand(name)] + ArgsRpn(args) + [Function("", |args| + 1, true)]
  }

  function ArgsRpn(args: seq<Expr>): seq<Ptg>
    decreases args, 0
  {
    if |args| == 0 then [] else ToRpn(args[0]) + ArgsRpn(args[1..])
  }

  /** The infix text a tree stands for, in OpenDocument formula syntax. */
  function Infix(e: Expr): string
    decreases e, 1
  {
    match e
    case Lit(text) => text
    case CellRef(r, c, ra, ca) => "[." + CellLabel(r, c, ra, ca) + "]"
    case Group(inner) => "(" + Infix(inner) + ")"
    case Bin(sym, l, r) => Infix(l) + sym + Infix(r)
    case Pre(sym, x) => sym + Infix(x)
    case Post(sym, x) => Infix(x) + sym
    case Call(name, args) => name + "(" + Join(InfixArgs(args), ";") + ")"
    case ExtCall(name, args) => name + "(" + Join(InfixArgs(args), ";") + ")"
  }

  function InfixArgs(args: seq<Expr>): (r: seq<string>)
    ensures |r| == |args|
    decreases args, 0
  {
    if |args| == 0 then [] else [Infix(args[0])] + InfixArgs(args[1..])
  }

  /** Running two token sequences one after the other. */
  lemma {:induction false} RunConcat(stack: seq<string>, a: seq<Ptg>, b: seq<Ptg>)
    ensures Run(stack, a + b) ==
      match Run(stack, a)
      case Err(e) => Err(e)
      case Ok(s) => Run(s, b)
    decreases |a|
  {
    if |a| > 0 {
      assert (a + b)[0] == a[0] && (a + b)[1..] == a[1..] + b;
      match Step(stack, a[0]) {
        case Err(_) =>
        case Ok(next) => RunConcat(next, a[1..], b);
      }
    } else {
      assert a + b == b;
    }
  }

  /** Tokens that push `ops`, then a token that turns them into one string. */
  lemma RunThenClose(stack: seq<string>, toks: seq<Ptg>, ops: seq<string>, t: Ptg, text: string)
    requires Run(stack, toks) == Ok(stack + ops)
    requires Step(stack + ops, t) == Ok(stack + [text])
    ensures Run(stack, toks + [t]) == Ok(stack + [text])
  {
    RunConcat(stack, toks, [t]);
    assert [t][1..] == [];
  }

  /** Tokens that push x, followed by tokens that push y. */
  lemma RunThenRun(stack: seq<string>, a: seq<Ptg>, b: seq<Ptg>, x: string, y: string)
    requires Run(stack, a) == Ok(stack + [x])
    requires Run(stack + [x], b) == Ok(stack + [x] + [y])
    ensures Run(stack, a + b) == Ok(stack + [x, y])
  {
    RunConcat(stack, a, b);
    assert stack + [x] + [y] == stack + [x, y];
  }

  lemma StepParenthesis(stack: seq<string>, x: string)
    ensures Step(stack + [x], Parenthesis) == Ok(stack + ["(" + x + ")"])
  {
    var s := stack + [x];
    assert s[..|s| - 1] == stack;
  }

  lemma StepOperator(stack: seq<string>, ops: seq<string>, shape: OperatorShape)
    requires |ops| == Arity(shape)
    ensures Step(stack + ops, Operator(shape)) == Ok(stack + [OperatorText(shape, ops)])
  {
    var s := stack + ops;
    assert s[|s| - |ops|..] == ops && s[..|s| - |ops|] == stack;
  }

  lemma StepFunction(stack: seq<string>, ops: seq<string>, name: string, external: bool, text: string)
    requires FunctionText(name, external, ops) == Ok(text)
    ensures Step(stack + ops, Function(name, |ops|, external)) == Ok(stack + [text])
  {
    var s := stack + ops;
    assert s[|s| - |ops|..] == ops && s[..|s| - |ops|] == stack;
    assert TakeOperands(s, |ops|) == Ok((ops, stack));
  }

  /** The tokens of a tree, run on any stack, push the tree's text. */
  lemma {:induction false} RunToRpn(stack: seq<string>, e: Expr)
    ensures Run(stack, ToRpn(e)) == Ok(stack + [Infix(e)])
    decreases e, 1
  {
    match e {
      case Lit(text) =>
      case CellRef(r, c, ra, ca) =>
      case Group(inner) =>
        RunToRpn(stack, inner);
        StepParenthesis(stack, Infix(inner));
        RunThenClose(stack, ToRpn(inner), [Infix(inner)], Parenthesis, Infix(e));
      case Bin(sym, l, r) =>
        RunToRpn(stack, l);
        RunToRpn(stack + [Infix(l)], r);
        RunThenRun(stack, ToRpn(l), ToRpn(r), Infix(l), Infix(r));
        StepOperator(stack, [Infix(l), Infix(r)], Binary(sym));
        RunThenClose(stack, ToRpn(l) + ToRpn(r), [Infix(l), Infix(r)], Operator(Binary(sym)), Infix(e));
      case Pre(sym, x) =>
        RunToRpn(stack, x);
        StepOperator(stack, [Infix(x)], Prefix(sym));
        RunThenClose(stack, ToRpn(x), [Infix(x)], Operator(Prefix(sym)), Infix(e));
      case Post(sym, x) =>
        RunToRpn(stack, x);
        StepOperator(stack, [Infix(x)], Postfix(sym));
        RunThenClose(stack, ToRpn(x), [Infix(x)], Operator(Postfix(sym)), Infix(e));
      case Call(name, args) =>
        RunArgsRpn(stack, args);
        StepFunction(stack, InfixArgs(args), name, false, Infix(e));
        RunThenClose(stack, ArgsRpn(args), InfixArgs(args), Function(name, |args|, false), Infix(e));
      case ExtCall(name, args) =>
        var ops := [name] + InfixArgs(args);
        assert Run(stack, [Operand(name)]) == Ok(stack + [name]);
        RunArgsRpn(stack + [name], args);
        RunConcat(stack, [Operand(name)], ArgsRpn(args));
        assert stack + [name] + InfixArgs(args) == stack + ops;
        assert ops[0] == name && ops[1..] == InfixArgs(args);
        StepFunction(stack, ops, "", true, Infix(e));
        RunThenClose(stack, [Operand(name)] + ArgsRpn(args), ops, Function("", |args| + 1, true), Infix(e));
    }
  }

  /** The tokens of an argument list push the arguments' texts in order. */
  lemma {:induction false} RunArgsRpn(stack: seq<string>, args: seq<Expr>)
    ensures Run(stack, ArgsRpn(args)) == Ok(stack + InfixArgs(args))
    decreases args, 0
  {
    if |args| > 0 {
      RunConcat(stack, ToRpn(args[0]), ArgsRpn(args[1..]));
      RunToRpn(stack, args[0]);
      RunArgsRpn(stack + [Infix(args[0])], args[1..]);
      assert stack + [Infix(args[0])] + InfixArgs(args[1..]) == stack + InfixArgs(args);
    } else {
      assert stack + [] == stack;
    }
  }

  /** Rendering the tokens of any formula tree gives back its infix text. */
  lemma RenderToRpn(e: Expr)
    ensures Render(ToRpn(e)) == Ok(Infix(e))
  {
    RunToRpn([], e);
    assert [] + [Infix(e)] == [Infix(e)];
  }

  /** The left operand of a binary operator is the one pushed first. */
  lemma RenderDifferenceExample()
    ensures Render([Ref(0, 0, false, false), Ref(0, 1, false, false), Operator(Binary("-"))])
      == Ok("[.A1]-[.B1]")
  {
    var sub := Bin("-", CellRef(0, 0, false, false), CellRef(0, 1, false, false));
    assert ToRpn(sub) == [Ref(0, 0, false, false), Ref(0, 1, false, false), Operator(Binary("-"))];
    RenderToRpn(sub);
    assert NatToString(1) == "1";
    assert ColumnLabel(0) == "A" && ColumnLabel(1) == "B";
    assert CellLabel(0, 0, false, false) == "" + "A" + "" + "1" == "A1";
    assert CellLabel(0, 1, false, false) == "" + "B" + "" + "1" == "B1";
    assert Infix(sub) == "[." + "A1" + "]" + "-" + "[." + "B1" + "]";
    assert "[." + "A1" + "]" + "-" + "[." + "B1" + "]" == "[.A1]-[.B1]";
  }

  /** An add-in call: the name travels as the first operand. */
  lemma RenderAddInExample()
    ensures Render([Operand("MYFUNC"), Operand("X"), Operand("Y"), Function("", 3, true)])
      == Ok("MYFUNC(X;Y)")
  {
    var args := [Lit("X"), Lit("Y")];
    assert args[1..] == [Lit("Y")] && [Lit("Y")][1..] == [];
    assert ArgsRpn([Lit("Y")]) == [Operand("Y")];
    assert ArgsRpn(args) == [Operand("X"), Operand("Y")];
    assert InfixArgs([Lit("Y")]) == ["Y"];
    assert InfixArgs(args) == ["X", "Y"];
    assert Join(["X", "Y"], ";") == "X;Y" by {
      assert ["X", "Y"][..1] == ["X"];
    }
    var call := ExtCall("MYFUNC", args);
    assert Infix(call) == "MYFUNC" + "(" + "X;Y" + ")";
    assert "MYFUNC" + "(" + "X;Y" + ")" == "MYFUNC(X;Y)";
    assert ToRpn(call) == [Operand("MYFUNC"), Operand("X"), Operand("Y"), Function("", 3, true)];
    RenderToRpn(call);
  }
}
