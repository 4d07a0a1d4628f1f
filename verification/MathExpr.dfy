/**
 * Math expressions (pkg/expr/mathexp): the parsed tree of a math command and its evaluation against
 * the results of earlier nodes. The arithmetic on series, numbers and scalars is not modelled: it is
 * a parameter (`Arith`). What is modelled is which variables an evaluation looks at.
 */
module MathExpr {
  import opened Prelude

  /** A labelled series, a labelled number or a bare scalar; `content` stands for its data. */
  datatype Value = Series(content: int) | Number(content: int) | Scalar(content: int)

  type Results = seq<Value>

  type Vars = map<string, Results>

  datatype Error = Error(message: string)

  datatype Expr =
    | ScalarNode(text: string)
    | StringNode(text: string)
    | VarNode(name: string)
    | UnaryNode(op: string, arg: Expr)
    | BinaryNode(op: string, left: Expr, right: Expr)
    | FuncNode(name: string, args: seq<Expr>)

  /** An argument handed to a built-in function: a string constant or an evaluated operand. */
  datatype Arg = Text(text: string) | Operand(results: Results)

  /** The numeric operations, each told the refID that labels the values it creates. */
  datatype Arith = Arith(
    scalar: (string, string) -> Results,
    unary: (string, string, Results) -> Result<Results, Error>,
    binary: (string, string, Results, Results) -> Result<Results, Error>,
    call: (string, string, seq<Arg>) -> Result<Results, Error>)

  /** Reading a variable: a missing key reads as an empty result, as indexing a Go map does. */
  function Lookup(vars: Vars, name: string): Results {
    if name in vars then vars[name] else []
  }

  /** The variable names of a tree in the order the parser meets them, repetitions included. */
  function VarNames(e: Expr): seq<string>
    decreases e, 1
  {
    match e
    case ScalarNode(_) => []
    case StringNode(_) => []
    case VarNode(name) => [name]
    case UnaryNode(_, arg) => VarNames(arg)
    case BinaryNode(_, left, right) => VarNames(left) + VarNames(right)
    case FuncNode(_, args) => ArgsVarNames(args)
  }

  function ArgsVarNames(args: seq<Expr>): seq<string>
    decreases args, 0
  {
    if args == [] then [] else VarNames(args[0]) + ArgsVarNames(args[1..])
  }

  function Walk(a: Arith, refID: string, e: Expr, vars: Vars): Result<Results, Error>
    decreases e, 1
  {
    match e
    case ScalarNode(text) => Ok(a.scalar(refID, text))
    case StringNode(_) => Err(Error("expr: can not walk node type"))
    case VarNode(name) => Ok(Lookup(vars, name))
    case UnaryNode(op, arg) =>
      (match Walk(a, refID, arg, vars)
       case Err(err) => Err(err)
       case Ok(r) => a.unary(op, refID, r))
    case BinaryNode(op, left, right) =>
      (match Walk(a, refID, left, vars)
       case Err(err) => Err(err)
       case Ok(l) =>
         match Walk(a, refID, right, vars)
         case Err(err) => Err(err)
         case Ok(r) => a.binary(op, refID, l, r))
    case FuncNode(name, args) =>
      (match WalkArgs(a, refID, args, vars)
       case Err(err) => Err(err)
       case Ok(operands) => a.call(name, refID, operands))
  }

  function WalkArgs(a: Arith, refID: string, args: seq<Expr>, vars: Vars): Result<seq<Arg>, Error>
    decreases args, 0
  {
    if args == [] then Ok([])
    else
      match (if args[0].StringNode? then Ok(Text(args[0].text))
             else match Walk(a, refID, args[0], vars)
                  case Err(err) => Err(err)
                  case Ok(r) => Ok(Operand(r)))
      case Err(err) => Err(err)
      case Ok(first) =>
        match WalkArgs(a, refID, args[1..], vars)
        case Err(err) => Err(err)
        case Ok(rest) => Ok([first] + rest)
  }

  // ---------------------------------------------------------------- the tree in postfix

  /** One instruction of a stack machine. */
  datatype Instruction =
    | PushScalar(text: string)
    | PushText(text: string)
    | Refuse
    | Load(name: string)
    | DoUnary(op: string)
    | DoBinary(op: string)
    | DoCall(name: string, count: nat)

  /** Operands before their operator, the left before the right, arguments in order. */
  function Postfix(e: Expr): seq<Instruction>
    decreases e, 1
  {
    match e
    case ScalarNode(text) => [PushScalar(text)]
    case StringNode(_) => [Refuse]
    case VarNode(name) => [Load(name)]
    case UnaryNode(op, arg) => Postfix(arg) + [DoUnary(op)]
    case BinaryNode(op, left, right) => Postfix(left) + (Postfix(right) + [DoBinary(op)])
    case FuncNode(name, args) => PostfixArgs(args) + [DoCall(name, |args|)]
  }

  function PostfixArgs(args: seq<Expr>): seq<Instruction>
    decreases args, 0
  {
    if args == [] then []
    else PostfixArg(args[0]) + PostfixArgs(args[1..])
  }

  function PostfixArg(arg: Expr): seq<Instruction>
    decreases arg, 2
  {
    if arg.StringNode? then [PushText(arg.text)] else Postfix(arg)
  }

  function Push(stack: seq<Arg>, r: Result<Results, Error>): Result<seq<Arg>, Error> {
    if r.Ok? then Ok(stack + [Operand(r.value)]) else Err(r.error)
  }

  const Underflow := Error("too few operands")

  /** One instruction on a stack with its top at the end: of two operands the right one is popped first. */
  function Obey(a: Arith, refID: string, vars: Vars, i: Instruction, stack: seq<Arg>): Result<seq<Arg>, Error> {
    var n := |stack|;
    match i
    case PushScalar(text) => Push(stack, Ok(a.scalar(refID, text)))
    case PushText(text) => Ok(stack + [Text(text)])
    case Refuse => Err(Error("expr: can not walk node type"))
    case Load(name) => Push(stack, Ok(if name in vars then vars[name] else []))
    case DoUnary(op) =>
      if n < 1 || stack[n - 1].Text? then Err(Underflow) else Push(stack[..n - 1], a.unary(op, refID, stack[n - 1].results))
    case DoBinary(op) =>
      if n < 2 || stack[n - 2].Text? || stack[n - 1].Text? then Err(Underflow)
      else Push(stack[..n - 2], a.binary(op, refID, stack[n - 2].results, stack[n - 1].results))
    case DoCall(name, count) =>
      if n < count then Err(Underflow) else Push(stack[..n - count], a.call(name, refID, stack[n - count..]))
  }

  function RunCode(a: Arith, refID: string, vars: Vars, code: seq<Instruction>, stack: seq<Arg>): Result<seq<Arg>, Error> {
    if code == [] then Ok(stack)
    else
      var next := Obey(a, refID, vars, code[0], stack);
      if next.Ok? then RunCode(a, refID, vars, code[1..], next.value) else next
  }

  /** The instructions of an expression push its value and go on, or end in its error. */
  ghost predicate Computes(a: Arith, refID: string, vars: Vars, code: seq<Instruction>, rest: seq<Instruction>, stack: seq<Arg>, r: Result<seq<Arg>, Error>) {
    RunCode(a, refID, vars, code + rest, stack) == if r.Ok? then RunCode(a, refID, vars, rest, stack + r.value) else r
  }

  function One(r: Result<Results, Error>): Result<seq<Arg>, Error> {
    if r.Ok? then Ok([Operand(r.value)]) else Err(r.error)
  }

  lemma OneInstruction(a: Arith, refID: string, vars: Vars, i: Instruction, rest: seq<Instruction>, stack: seq<Arg>)
    ensures var next := Obey(a, refID, vars, i, stack);
            RunCode(a, refID, vars, [i] + rest, stack) == if next.Ok? then RunCode(a, refID, vars, rest, next.value) else next
  {
    assert ([i] + rest)[1..] == rest;
  }

  /** The machine computes what walking the tree does, first error included, and leaves the rest of the stack alone. */
  lemma {:induction false} WalkIsPostfix(a: Arith, refID: string, vars: Vars, e: Expr, rest: seq<Instruction>, stack: seq<Arg>)
    ensures Computes(a, refID, vars, Postfix(e), rest, stack, One(Walk(a, refID, e, vars)))
    decreases e, 1
  {
    match e
    case UnaryNode(op, arg) =>
      UnaryIsPostfix(a, refID, vars, op, arg, rest, stack);
    case BinaryNode(op, left, right) =>
      BinaryIsPostfix(a, refID, vars, op, left, right, rest, stack);
    case FuncNode(name, args) =>
      CallIsPostfix(a, refID, vars, name, args, rest, stack);
    case _ =>
      OneInstruction(a, refID, vars, Postfix(e)[0], rest, stack);
  }

  lemma {:induction false} UnaryIsPostfix(a: Arith, refID: string, vars: Vars, op: string, arg: Expr, rest: seq<Instruction>, stack: seq<Arg>)
    ensures var e := UnaryNode(op, arg); Computes(a, refID, vars, Postfix(e), rest, stack, One(Walk(a, refID, e, vars)))
    decreases UnaryNode(op, arg), 0
  {
    var more := [DoUnary(op)] + rest;
    assert Postfix(UnaryNode(op, arg)) + rest == Postfix(arg) + more;
    WalkIsPostfix(a, refID, vars, arg, more, stack);
    var r := Walk(a, refID, arg, vars);
    if r.Ok? {
      OneInstruction(a, refID, vars, DoUnary(op), rest, stack + [Operand(r.value)]);
    }
  }

  lemma {:induction false} CallIsPostfix(a: Arith, refID: string, vars: Vars, name: string, args: seq<Expr>, rest: seq<Instruction>, stack: seq<Arg>)
    ensures var e := FuncNode(name, args); Computes(a, refID, vars, Postfix(e), rest, stack, One(Walk(a, refID, e, vars)))
    decreases FuncNode(name, args), 0
  {
    var more := [DoCall(name, |args|)] + rest;
    assert Postfix(FuncNode(name, args)) + rest == PostfixArgs(args) + more;
    ArgsArePostfix(a, refID, vars, args, more, stack);
    var operands := WalkArgs(a, refID, args, vars);
    if operands.Ok? {
      OneInstruction(a, refID, vars, DoCall(name, |args|), rest, stack + operands.value);
    }
  }

  lemma {:induction false} BinaryIsPostfix(a: Arith, refID: string, vars: Vars, op: string, left: Expr, right: Expr, rest: seq<Instruction>, stack: seq<Arg>)
    ensures var e := BinaryNode(op, left, right); Computes(a, refID, vars, Postfix(e), rest, stack, One(Walk(a, refID, e, vars)))
    decreases BinaryNode(op, left, right), 0
  {
    var last := [DoBinary(op)] + rest;
    var more := Postfix(right) + last;
    assert Postfix(BinaryNode(op, left, right)) + rest == Postfix(left) + more;
    WalkIsPostfix(a, refID, vars, left, more, stack);
    var l, r := Walk(a, refID, left, vars), Walk(a, refID, right, vars);
    if l.Ok? {
      var one := stack + [Operand(l.value)];
      WalkIsPostfix(a, refID, vars, right, last, one);
      if r.Ok? {
        CombineTwo(a, refID, vars, op, l.value, r.value, rest, stack);
      }
    }
  }

  lemma CombineTwo(a: Arith, refID: string, vars: Vars, op: string, l: Results, r: Results, rest: seq<Instruction>, stack: seq<Arg>)
    ensures var two := stack + [Operand(l)] + [Operand(r)];
            var next := Push(stack, a.binary(op, refID, l, r));
            RunCode(a, refID, vars, [DoBinary(op)] + rest, two) == if next.Ok? then RunCode(a, refID, vars, rest, next.value) else next
  {
    var two := stack + [Operand(l)] + [Operand(r)];
    assert two[..|stack|] == stack;
    OneInstruction(a, refID, vars, DoBinary(op), rest, two);
  }

  lemma {:induction false} ArgsArePostfix(a: Arith, refID: string, vars: Vars, args: seq<Expr>, rest: seq<Instruction>, stack: seq<Arg>)
    ensures Computes(a, refID, vars, PostfixArgs(args), rest, stack, WalkArgs(a, refID, args, vars))
    ensures WalkArgs(a, refID, args, vars).Ok? ==> |WalkArgs(a, refID, args, vars).value| == |args|
    decreases args, 0
  {
    if args == [] {
      assert [] + rest == rest && stack + [] == stack;
    } else {
      var more := PostfixArgs(args[1..]) + rest;
      assert PostfixArgs(args) + rest == PostfixArg(args[0]) + more;
      ArgIsPostfix(a, refID, vars, args[0], more, stack);
      var first := WalkArg(a, refID, args[0], vars);
      if first.Ok? {
        ArgsArePostfix(a, refID, vars, args[1..], rest, stack + first.value);
        var others := WalkArgs(a, refID, args[1..], vars);
        assert others.Ok? ==> (stack + first.value) + others.value == stack + (first.value + others.value);
      }
    }
  }

  function WalkArg(a: Arith, refID: string, arg: Expr, vars: Vars): Result<seq<Arg>, Error> {
    if arg.StringNode? then Ok([Text(arg.text)]) else One(Walk(a, refID, arg, vars))
  }

  lemma {:induction false} ArgIsPostfix(a: Arith, refID: string, vars: Vars, arg: Expr, rest: seq<Instruction>, stack: seq<Arg>)
    ensures Computes(a, refID, vars, PostfixArg(arg), rest, stack, WalkArg(a, refID, arg, vars))
    decreases arg, 2
  {
    if arg.StringNode? {
      OneInstruction(a, refID, vars, PushText(arg.text), rest, stack);
    } else {
      WalkIsPostfix(a, refID, vars, arg, rest, stack);
    }
  }

  /** What the instructions of an expression compute, from an empty stack. */
  function Computed(a: Arith, refID: string, vars: Vars, e: Expr): Result<Results, Error> {
    match RunCode(a, refID, vars, Postfix(e), [])
    case Err(err) => Err(err)
    case Ok(stack) => if |stack| == 1 && stack[0].Operand? then Ok(stack[0].results) else Err(Underflow)
  }

  /** Walking a tree is running its postfix form. */
  lemma WalkIsComputed(a: Arith, refID: string, vars: Vars, e: Expr)
    ensures Walk(a, refID, e, vars) == Computed(a, refID, vars, e)
  {
    WalkIsPostfix(a, refID, vars, e, [], []);
    assert Postfix(e) + [] == Postfix(e);
  }

  /** The names loaded, in order. */
  function Loads(code: seq<Instruction>): seq<string> {
    if code == [] then [] else (if code[0].Load? then [code[0].name] else []) + Loads(code[1..])
  }

  lemma {:induction false} LoadsJoin(c: seq<Instruction>, d: seq<Instruction>)
    ensures Loads(c + d) == Loads(c) + Loads(d)
  {
    if c == [] {
      assert c + d == d;
    } else {
      assert (c + d)[1..] == c[1..] + d;
      LoadsJoin(c[1..], d);
    }
  }

  /** The variables the parser collects are exactly those the postfix form loads, in that order. */
  lemma {:induction false} VarNamesAreLoads(e: Expr)
    ensures VarNames(e) == Loads(Postfix(e))
    decreases e, 1
  {
    match e
    case UnaryNode(op, arg) =>
      VarNamesAreLoads(arg);
      LoadsJoin(Postfix(arg), [DoUnary(op)]);
    case BinaryNode(op, left, right) =>
      VarNamesAreLoads(left);
      VarNamesAreLoads(right);
      LoadsJoin(Postfix(right), [DoBinary(op)]);
      LoadsJoin(Postfix(left), Postfix(right) + [DoBinary(op)]);
    case FuncNode(name, args) =>
      ArgsVarNamesAreLoads(args);
      LoadsJoin(PostfixArgs(args), [DoCall(name, |args|)]);
    case _ =>
  }

  lemma {:induction false} ArgsVarNamesAreLoads(args: seq<Expr>)
    ensures ArgsVarNames(args) == Loads(PostfixArgs(args))
    decreases args, 0
  {
    if args != [] {
      var first := PostfixArg(args[0]);
      VarNamesAreLoads(args[0]);
      ArgsVarNamesAreLoads(args[1..]);
      LoadsJoin(first, PostfixArgs(args[1..]));
    }
  }

  // ---------------------------------------------------------------- what an evaluation reads

  /** Two variable maps read the same at every one of the given names. */
  ghost predicate Agree(v1: Vars, v2: Vars, names: seq<string>) {
    forall n :: n in names ==> Lookup(v1, n) == Lookup(v2, n)
  }

  /** Evaluation looks at nothing but the variables the parser collected. */
  lemma {:induction false} WalkReadsOnlyVarNames(a: Arith, refID: string, e: Expr, v1: Vars, v2: Vars)
    requires Agree(v1, v2, VarNames(e))
    ensures Walk(a, refID, e, v1) == Walk(a, refID, e, v2)
    decreases e, 1
  {
    match e
    case ScalarNode(_) =>
    case StringNode(_) =>
    case VarNode(name) =>
      assert name in VarNames(e);
    case UnaryNode(_, arg) =>
      WalkReadsOnlyVarNames(a, refID, arg, v1, v2);
    case BinaryNode(_, left, right) =>
      assert VarNames(e) == VarNames(left) + VarNames(right);
      WalkReadsOnlyVarNames(a, refID, left, v1, v2);
      WalkReadsOnlyVarNames(a, refID, right, v1, v2);
    case FuncNode(_, args) =>
      WalkArgsReadsOnlyVarNames(a, refID, args, v1, v2);
  }

  lemma {:induction false} WalkArgsReadsOnlyVarNames(a: Arith, refID: string, args: seq<Expr>, v1: Vars, v2: Vars)
    requires Agree(v1, v2, ArgsVarNames(args))
    ensures WalkArgs(a, refID, args, v1) == WalkArgs(a, refID, args, v2)
    decreases args, 0
  {
    if args != [] {
      assert ArgsVarNames(args) == VarNames(args[0]) + ArgsVarNames(args[1..]);
      WalkReadsOnlyVarNames(a, refID, args[0], v1, v2);
      WalkArgsReadsOnlyVarNames(a, refID, args[1..], v1, v2);
    }
  }
}
