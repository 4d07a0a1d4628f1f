/**
 * The three expression commands (pkg/expr/commands.go): which variables each one needs and what it
 * does with them. Reducing or resampling one series is a parameter, as is the arithmetic.
 */
module Commands {
  import opened Prelude
  import opened MathExpr

  datatype TimeRange = TimeRange(from: int, to: int)

  datatype Command =
    | MathCommand(refID: string, expression: Expr)
    | ReduceCommand(refID: string, reducer: string, varToReduce: string)
    | ResampleCommand(refID: string, window: int, varToResample: string, downsampler: string, upsampler: string,
                      timeRange: TimeRange)

  /** What the commands call: arithmetic, and the reduction or resampling of one value. */
  datatype Engine = Engine(
    arith: Arith,
    reduce: (Command, Value) -> Result<Value, Error>,
    resample: (Command, Value) -> Result<Value, Error>)

  function NeedsVars(c: Command): seq<string> {
    match c
    case MathCommand(_, expression) => VarNames(expression)
    case ReduceCommand(_, _, v) => [v]
    case ResampleCommand(_, _, v, _, _, _) => [v]
  }

  /** One value through a per-series operation that refuses anything but a series. */
  function OnSeries(f: Value -> Result<Value, Error>, refusal: Error, v: Value): Result<Value, Error> {
    if v.Series? then f(v) else Err(refusal)
  }

  /** A per-series operation over all values, in order, stopping at the first that fails. */
  function OnEachSeries(f: Value -> Result<Value, Error>, refusal: Error, vals: Results): Result<Results, Error> {
    if vals == [] then Ok([])
    else
      match OnSeries(f, refusal, vals[0])
      case Err(e) => Err(e)
      case Ok(v) =>
        match OnEachSeries(f, refusal, vals[1..])
        case Err(e) => Err(e)
        case Ok(rest) => Ok([v] + rest)
  }

  /** OnEachSeries reads off pointwise: all values are series that succeed, or the first bad one decides. */
  lemma {:induction false} OnEachSeriesPointwise(f: Value -> Result<Value, Error>, refusal: Error, vals: Results)
    ensures var r := OnEachSeries(f, refusal, vals);
            && (r.Ok? ==> |r.value| == |vals| && forall i :: 0 <= i < |vals| ==> OnSeries(f, refusal, vals[i]) == Ok(r.value[i]))
            && (r.Err? ==> exists i :: 0 <= i < |vals| && OnSeries(f, refusal, vals[i]) == Err(r.error)
                                       && forall k :: 0 <= k < i ==> OnSeries(f, refusal, vals[k]).Ok?)
  {
    if vals != [] && OnSeries(f, refusal, vals[0]).Ok? {
      OnEachSeriesPointwise(f, refusal, vals[1..]);
      var r := OnEachSeries(f, refusal, vals);
      var rest := OnEachSeries(f, refusal, vals[1..]);
      if rest.Err? {
        var i :| 0 <= i < |vals[1..]| && OnSeries(f, refusal, vals[1..][i]) == Err(rest.error)
                 && forall k :: 0 <= k < i ==> OnSeries(f, refusal, vals[1..][k]).Ok?;
        forall k | 0 <= k < i + 1
          ensures OnSeries(f, refusal, vals[k]).Ok?
        {
          if k > 0 {
            assert vals[k] == vals[1..][k - 1];
          }
        }
        assert OnSeries(f, refusal, vals[i + 1]) == Err(r.error);
      }
    }
  }

  const NotReducible := Error("can only reduce type series")
  const NotResamplable := Error("can only resample type series")

  /** What executing a command yields. */
  function Outcome(eng: Engine, c: Command, vars: Vars): Result<Results, Error> {
    match c
    case MathCommand(refID, e) => Walk(eng.arith, refID, e, vars)
    case ReduceCommand(_, _, v) => OnEachSeries(x => eng.reduce(c, x), NotReducible, Lookup(vars, v))
    case ResampleCommand(_, _, v, _, _, _) => OnEachSeries(x => eng.resample(c, x), NotResamplable, Lookup(vars, v))
  }

  ghost function Prepend(done: Results, r: Result<Results, Error>): Result<Results, Error> {
    if r.Ok? then Ok(done + r.value) else r
  }

  lemma PrependNothing(r: Result<Results, Error>)
    ensures Prepend([], r) == r
  {
    assert r.Ok? ==> [] + r.value == r.value;
  }

  /** The shared loop of the reduce and the resample command. */
  method ExecuteOnSeries(f: Value -> Result<Value, Error>, refusal: Error, vals: Results)
    returns (r: Result<Results, Error>)
    ensures r == OnEachSeries(f, refusal, vals)
  {
    var newRes: Results := [];
    assert vals[0..] == vals;
    PrependNothing(OnEachSeries(f, refusal, vals));
    for i := 0 to |vals|
      invariant OnEachSeries(f, refusal, vals) == Prepend(newRes, OnEachSeries(f, refusal, vals[i..]))
    {
      assert vals[i..][0] == vals[i] && vals[i..][1..] == vals[i + 1..];
      if !vals[i].Series? {
        return Err(refusal);
      }
      var num := f(vals[i]);
      if num.Err? {
        return Err(num.error);
      }
      ghost var rest := OnEachSeries(f, refusal, vals[i + 1..]);
      assert rest.Ok? ==> newRes + ([num.value] + rest.value) == newRes + [num.value] + rest.value;
      newRes := newRes + [num.value];
    }
    assert vals[|vals|..] == [] && newRes + [] == newRes;
    return Ok(newRes);
  }

  // ---------------------------------------------------------------- what a command yields, told by itself

  /** Each value reduced, in order; or the error at the first that is no series or cannot be. */
  ghost predicate EachReduced(eng: Engine, c: Command, vals: Results, r: Result<Results, Error>) {
    if r.Ok? then
      |r.value| == |vals| && forall i :: 0 <= i < |vals| ==> vals[i].Series? && eng.reduce(c, vals[i]) == Ok(r.value[i])
    else
      exists i :: 0 <= i < |vals|
                  && (if vals[i].Series? then eng.reduce(c, vals[i]) == Err(r.error) else r.error == Error("can only reduce type series"))
                  && forall k :: 0 <= k < i ==> vals[k].Series? && eng.reduce(c, vals[k]).Ok?
  }

  /** Each value resampled, likewise. */
  ghost predicate EachResampled(eng: Engine, c: Command, vals: Results, r: Result<Results, Error>) {
    if r.Ok? then
      |r.value| == |vals| && forall i :: 0 <= i < |vals| ==> vals[i].Series? && eng.resample(c, vals[i]) == Ok(r.value[i])
    else
      exists i :: 0 <= i < |vals|
                  && (if vals[i].Series? then eng.resample(c, vals[i]) == Err(r.error) else r.error == Error("can only resample type series"))
                  && forall k :: 0 <= k < i ==> vals[k].Series? && eng.resample(c, vals[k]).Ok?
  }

  /** The postfix form of a formula computes it; each value of the named variable is reduced or resampled. */
  ghost predicate Yields(eng: Engine, c: Command, vars: Vars, r: Result<Results, Error>) {
    match c
    case MathCommand(refID, e) => r == Computed(eng.arith, refID, vars, e)
    case ReduceCommand(_, _, v) => EachReduced(eng, c, if v in vars then vars[v] else [], r)
    case ResampleCommand(_, _, v, _, _, _) => EachResampled(eng, c, if v in vars then vars[v] else [], r)
  }

  lemma OutcomeYields(eng: Engine, c: Command, vars: Vars)
    ensures Yields(eng, c, vars, Outcome(eng, c, vars))
  {
    match c
    case MathCommand(refID, e) =>
      WalkIsComputed(eng.arith, refID, vars, e);
    case ReduceCommand(_, _, v) =>
      ReduceYields(eng, c, Lookup(vars, v));
    case ResampleCommand(_, _, v, _, _, _) =>
      ResampleYields(eng, c, Lookup(vars, v));
  }

  lemma ReduceYields(eng: Engine, c: Command, vals: Results)
    ensures EachReduced(eng, c, vals, OnEachSeries(x => eng.reduce(c, x), NotReducible, vals))
  {
    var f := x => eng.reduce(c, x);
    OnEachSeriesPointwise(f, NotReducible, vals);
    var r := OnEachSeries(f, NotReducible, vals);
    if r.Err? {
      var i :| 0 <= i < |vals| && OnSeries(f, NotReducible, vals[i]) == Err(r.error)
               && forall k :: 0 <= k < i ==> OnSeries(f, NotReducible, vals[k]).Ok?;
      forall k | 0 <= k < i
        ensures vals[k].Series? && eng.reduce(c, vals[k]).Ok?
      {
        assert OnSeries(f, NotReducible, vals[k]).Ok?;
      }
    } else {
      forall i | 0 <= i < |vals|
        ensures vals[i].Series? && eng.reduce(c, vals[i]) == Ok(r.value[i])
      {
        assert OnSeries(f, NotReducible, vals[i]) == Ok(r.value[i]);
      }
    }
  }

  lemma ResampleYields(eng: Engine, c: Command, vals: Results)
    ensures EachResampled(eng, c, vals, OnEachSeries(x => eng.resample(c, x), NotResamplable, vals))
  {
    var f := x => eng.resample(c, x);
    OnEachSeriesPointwise(f, NotResamplable, vals);
    var r := OnEachSeries(f, NotResamplable, vals);
    if r.Err? {
      var i :| 0 <= i < |vals| && OnSeries(f, NotResamplable, vals[i]) == Err(r.error)
               && forall k :: 0 <= k < i ==> OnSeries(f, NotResamplable, vals[k]).Ok?;
      forall k | 0 <= k < i
        ensures vals[k].Series? && eng.resample(c, vals[k]).Ok?
      {
        assert OnSeries(f, NotResamplable, vals[k]).Ok?;
      }
    } else {
      forall i | 0 <= i < |vals|
        ensures vals[i].Series? && eng.resample(c, vals[i]) == Ok(r.value[i])
      {
        assert OnSeries(f, NotResamplable, vals[i]) == Ok(r.value[i]);
      }
    }
  }

  /** A formula on two variables: the left one is the left operand. */
  lemma BinaryOfTwo(eng: Engine, refID: string, op: string, left: string, right: string, vars: Vars)
    requires left in vars && right in vars
    ensures Outcome(eng, MathCommand(refID, BinaryNode(op, VarNode(left), VarNode(right))), vars)
         == eng.arith.binary(op, refID, vars[left], vars[right])
  {
    assert Walk(eng.arith, refID, VarNode(left), vars) == Ok(vars[left]);
    assert Walk(eng.arith, refID, VarNode(right), vars) == Ok(vars[right]);
  }

  method Execute(eng: Engine, c: Command, vars: Vars) returns (r: Result<Results, Error>)
    ensures r == Outcome(eng, c, vars)
    ensures Yields(eng, c, vars, r)
  {
    OutcomeYields(eng, c, vars);
    match c
    case MathCommand(refID, e) =>
      r := Walk(eng.arith, refID, e, vars);
    case ReduceCommand(_, _, v) =>
      r := ExecuteOnSeries(x => eng.reduce(c, x), NotReducible, Lookup(vars, v));
    case ResampleCommand(_, _, v, _, _, _) =>
      r := ExecuteOnSeries(x => eng.resample(c, x), NotResamplable, Lookup(vars, v));
  }

  /** Some engine and maps that differ in this variable alone give the command different outcomes. */
  ghost predicate Matters(c: Command, v: string) {
    exists eng, v1: Vars, v2: Vars :: (forall n: string :: n != v ==> Lookup(v1, n) == Lookup(v2, n)) && Outcome(eng, c, v1) != Outcome(eng, c, v2)
  }

  /** A formula needs what its postfix form loads; the other commands need exactly the variable that matters. */
  lemma NeedsExactly(c: Command, v: string)
    ensures c.MathCommand? ==> NeedsVars(c) == Loads(Postfix(c.expression))
    ensures !c.MathCommand? ==> (v in NeedsVars(c) <==> Matters(c, v))
  {
    if c.MathCommand? {
      VarNamesAreLoads(c.expression);
    } else {
      if v in NeedsVars(c) {
        var arith := Arith((_, _) => [], (_, _, r) => Ok(r), (_, _, r, _) => Ok(r), (_, _, _) => Ok([]));
        var eng := Engine(arith, (_, x) => Ok(x), (_, x) => Ok(x));
        var v1: Vars, v2: Vars := map[v := [Scalar(0)]], map[];
        assert Outcome(eng, c, v1).Err? && Outcome(eng, c, v2) == Ok([]);
        assert Matters(c, v);
      }
      if Matters(c, v) {
        var eng, v1: Vars, v2: Vars :| (forall n: string :: n != v ==> Lookup(v1, n) == Lookup(v2, n)) && Outcome(eng, c, v1) != Outcome(eng, c, v2);
        if v !in NeedsVars(c) {
          ReadsOnlyNeededVars(eng, c, v1, v2);
        }
      }
    }
  }

  /** The read frame of a command: only the variables it declares can change its outcome. */
  lemma ReadsOnlyNeededVars(eng: Engine, c: Command, v1: Vars, v2: Vars)
    requires Agree(v1, v2, NeedsVars(c))
    ensures Outcome(eng, c, v1) == Outcome(eng, c, v2)
  {
    match c
    case MathCommand(refID, e) =>
      WalkReadsOnlyVarNames(eng.arith, refID, e, v1, v2);
    case ReduceCommand(_, _, v) =>
      assert v in NeedsVars(c);
    case ResampleCommand(_, _, v, _, _, _) =>
      assert v in NeedsVars(c);
  }
}
