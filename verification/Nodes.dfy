/**
 * Nodes of an expression request (pkg/expr/nodes.go): building one from a query, with every error the
 * builder reports, and executing one against the results so far.
 */
module Nodes {
  import opened Prelude
  import opened MathExpr
  import opened Commands

  /** A decoded JSON value; shapes no builder asks for are lumped together. */
  datatype Json = JString(s: string) | JNumber(n: real) | JOther

  type Fields = map<string, Json>

  /** `body` is None when the query's JSON does not decode to an object. */
  datatype Query = Query(refID: string, body: Option<Fields>, queryType: string, timeRange: TimeRange)

  datatype Node =
    | CMDNode(id: nat, refID: string, command: Command)
    | DSNode(id: nat, refID: string, query: Fields, datasourceID: int, datasourceUID: string, orgID: int,
             queryType: string, timeRange: TimeRange, intervalMS: int, maxDP: int)

  /** Parsing a math expression and a duration, both outside the modelled files. */
  datatype Parsers = Parsers(math: string -> Option<Expr>, duration: string -> Option<int>)

  const ExpressionDatasource := "__expr__"
  const DefaultIntervalMS := 64
  const DefaultMaxDP := 5000

  /** A required string field of a query. */
  function StringField(q: Fields, name: string): Result<string, Error> {
    if name !in q then Err(Error("missing " + name))
    else match q[name]
         case JString(s) => Ok(s)
         case _ => Err(Error("expected a string: " + name))
  }

  function TrimDollar(s: string): string {
    if s != "" && s[0] == '$' then s[1..] else s
  }

  function UnmarshalMath(ps: Parsers, q: Query, f: Fields): Result<Command, Error> {
    match StringField(f, "expression")
    case Err(e) => Err(e)
    case Ok(text) =>
      match ps.math(text)
      case None => Err(Error("invalid math command"))
      case Some(tree) => Ok(MathCommand(q.refID, tree))
  }

  function UnmarshalReduce(q: Query, f: Fields): Result<Command, Error> {
    match StringField(f, "expression")
    case Err(e) => Err(e)
    case Ok(v) =>
      match StringField(f, "reducer")
      case Err(e) => Err(e)
      case Ok(reducer) => Ok(ReduceCommand(q.refID, reducer, TrimDollar(v)))
  }

  function UnmarshalResample(ps: Parsers, q: Query, f: Fields): Result<Command, Error> {
    match StringField(f, "expression")
    case Err(e) => Err(e)
    case Ok(v) =>
      match StringField(f, "window")
      case Err(e) => Err(e)
      case Ok(window) =>
        match StringField(f, "downsampler")
        case Err(e) => Err(e)
        case Ok(down) =>
          match StringField(f, "upsampler")
          case Err(e) => Err(e)
          case Ok(up) =>
            match ps.duration(window)
            case None => Err(Error("failed to parse resample window"))
            case Some(w) => Ok(ResampleCommand(q.refID, w, TrimDollar(v), down, up, q.timeRange))
  }

  function BuildCMDNode(ps: Parsers, id: nat, q: Query, f: Fields): Result<Node, Error> {
    match StringField(f, "type")
    case Err(_) => Err(Error("invalid expression command type"))
    case Ok(kind) =>
      var built :=
        if kind == "math" then UnmarshalMath(ps, q, f)
        else if kind == "reduce" then UnmarshalReduce(q, f)
        else if kind == "resample" then UnmarshalResample(ps, q, f)
        else Err(Error("invalid expression command type"));
      match built
      case Err(e) => Err(e)
      case Ok(c) => Ok(CMDNode(id, q.refID, c))
  }

  /** Conversion of a float to an integer drops the fraction. */
  function Truncate(r: real): int {
    if r >= 0.0 then r.Floor else -(-r).Floor
  }

  /** Less than one away, towards zero. */
  lemma TruncateIs(r: real, n: int)
    ensures Truncate(r) == n <==> if r >= 0.0 then n as real <= r < n as real + 1.0 else n as real - 1.0 < r <= n as real
  {
  }

  /** The numeric setting `name`, which must be there once a datasourceId is. */
  function NumberField(f: Fields, name: string): Result<int, Error> {
    if name in f && f[name].JNumber? then Ok(Truncate(f[name].n)) else Err(Error("expected a number: " + name))
  }

  /**
   * The interval and the point limit are read only when the query carries a datasourceId, and are then
   * mandatory; a query addressed by uid alone keeps the defaults whatever it says.
   */
  function BuildDSNode(id: nat, q: Query, f: Fields, orgID: int): Result<Node, Error> {
    if "datasourceId" in f then
      match NumberField(f, "datasourceId")
      case Err(e) => Err(e)
      case Ok(dsID) =>
        match NumberField(f, "intervalMs")
        case Err(e) => Err(e)
        case Ok(interval) =>
          match NumberField(f, "maxDataPoints")
          case Err(e) => Err(e)
          case Ok(maxDP) => Ok(DSNode(id, q.refID, f, dsID, "", orgID, q.queryType, q.timeRange, interval, maxDP))
    else
      match StringField(f, "datasourceUid")
      case Err(e) => Err(e)
      case Ok(uid) =>
        Ok(DSNode(id, q.refID, f, 0, uid, orgID, q.queryType, q.timeRange, DefaultIntervalMS, DefaultMaxDP))
  }

  /** One round of the loop of buildGraph: the node a query turns into, or the error that ends the build. */
  function BuildNode(ps: Parsers, orgID: int, id: nat, q: Query): (r: Result<Node, Error>)
    ensures r.Ok? ==> r.value.id == id && r.value.refID == q.refID
  {
    match q.body
    case None => Err(Error("query is not a JSON object"))
    case Some(f) =>
      match StringField(f, "datasource")
      case Err(e) => Err(e)
      case Ok(name) => if name == ExpressionDatasource then BuildCMDNode(ps, id, q, f) else BuildDSNode(id, q, f, orgID)
  }

  ghost predicate IsString(f: Fields, name: string) {
    name in f && f[name].JString?
  }

  ghost predicate IsNumber(f: Fields, name: string) {
    name in f && f[name].JNumber?
  }

  /** The fields a command is made of are there, and its formula or window parses. */
  ghost predicate CommandFits(ps: Parsers, f: Fields) {
    && IsString(f, "type") && IsString(f, "expression")
    && var kind := f["type"].s;
       || (kind == "math" && ps.math(f["expression"].s).Some?)
       || (kind == "reduce" && IsString(f, "reducer"))
       || (kind == "resample" && IsString(f, "window") && IsString(f, "downsampler") && IsString(f, "upsampler")
           && ps.duration(f["window"].s).Some?)
  }

  /** A data source is named by number, with the interval and the point limit, or by uid alone. */
  ghost predicate DatasourceFits(f: Fields) {
    if "datasourceId" in f then IsNumber(f, "datasourceId") && IsNumber(f, "intervalMs") && IsNumber(f, "maxDataPoints")
    else IsString(f, "datasourceUid")
  }

  ghost predicate QueryFits(ps: Parsers, q: Query) {
    && q.body.Some? && IsString(q.body.value, "datasource")
    && if q.body.value["datasource"].s == ExpressionDatasource then CommandFits(ps, q.body.value) else DatasourceFits(q.body.value)
  }

  /** The variable an expression names, with or without a `$` in front. */
  ghost predicate Names(expression: string, v: string) {
    expression == "$" + v || (expression == v && (v == "" || v[0] != '$'))
  }

  /** What a query that fits becomes: which command on which variable, or which data source with which limits. */
  ghost predicate Becomes(ps: Parsers, orgID: int, q: Query, n: Node)
    requires QueryFits(ps, q)
  {
    var f := q.body.value;
    if f["datasource"].s == ExpressionDatasource then
      n.CMDNode? && n.command.refID == q.refID && Expresses(ps, f, q.timeRange, n.command)
    else
      && n.DSNode? && n.orgID == orgID && n.query == f && n.queryType == q.queryType && n.timeRange == q.timeRange
      && if "datasourceId" in f then
           && n.datasourceUID == "" && n.datasourceID == Truncate(f["datasourceId"].n)
           && n.intervalMS == Truncate(f["intervalMs"].n) && n.maxDP == Truncate(f["maxDataPoints"].n)
         else
           n.datasourceID == 0 && n.datasourceUID == f["datasourceUid"].s && n.intervalMS == 64 && n.maxDP == 5000
  }

  ghost predicate Expresses(ps: Parsers, f: Fields, timeRange: TimeRange, c: Command)
    requires CommandFits(ps, f)
  {
    var expression := f["expression"].s;
    match c
    case MathCommand(_, tree) => f["type"].s == "math" && ps.math(expression) == Some(tree)
    case ReduceCommand(_, reducer, v) => f["type"].s == "reduce" && reducer == f["reducer"].s && Names(expression, v)
    case ResampleCommand(_, window, v, down, up, range) =>
      && f["type"].s == "resample" && ps.duration(f["window"].s) == Some(window) && Names(expression, v)
      && down == f["downsampler"].s && up == f["upsampler"].s && range == timeRange
  }

  /** A query builds exactly if its fields fit, and what it builds is what they say. */
  lemma BuildsIffFits(ps: Parsers, orgID: int, id: nat, q: Query)
    ensures BuildNode(ps, orgID, id, q).Ok? <==> QueryFits(ps, q)
    ensures QueryFits(ps, q) ==> Becomes(ps, orgID, q, BuildNode(ps, orgID, id, q).value)
  {
    if q.body.Some? && IsString(q.body.value, "expression") {
      var expression := q.body.value["expression"].s;
      assert expression != "" && expression[0] == '$' ==> expression == "$" + expression[1..];
    }
  }

  /** The refIDs a node depends on: a datasource query depends on nothing. */
  function Needs(n: Node): seq<string> {
    match n
    case CMDNode(_, _, c) => NeedsVars(c)
    case DSNode(_, _, _, _, _, _, _, _, _, _) => []
  }

  /** The command engine, and a datasource plugin answering a query node. */
  datatype Backend = Backend(engine: Engine, fetch: Node -> Result<Results, Error>)

  function NodeOutcome(b: Backend, n: Node, vars: Vars): Result<Results, Error> {
    match n
    case CMDNode(_, _, c) => Outcome(b.engine, c, vars)
    case DSNode(_, _, _, _, _, _, _, _, _, _) => b.fetch(n)
  }

  method ExecuteNode(b: Backend, n: Node, vars: Vars) returns (r: Result<Results, Error>)
    ensures r == NodeOutcome(b, n, vars)
  {
    match n
    case CMDNode(_, _, c) =>
      r := Commands.Execute(b.engine, c, vars);
    case DSNode(_, _, _, _, _, _, _, _, _, _) =>
      r := b.fetch(n);
  }

  /** Only the variables a node declares can change its outcome; a datasource query reads none at all. */
  lemma NodeReadsOnlyNeeds(b: Backend, n: Node, v1: Vars, v2: Vars)
    requires Agree(v1, v2, Needs(n))
    ensures NodeOutcome(b, n, v1) == NodeOutcome(b, n, v2)
  {
    if n.CMDNode? {
      ReadsOnlyNeededVars(b.engine, n.command, v1, v2);
    }
  }
}
