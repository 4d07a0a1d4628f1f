/**
 * Evaluating a dashboard template (pkg/plugins/dashboard_importer.go): input variables are looked up and
 * substituted in every string of a JSON tree, and the `__inputs` declarations are dropped at every level.
 */
module DashboardTemplate {
  import opened Prelude

  datatype Json =
    | JNull
    | JBool(b: bool)
    | JNumber(text: string)
    | JString(s: string)
    | JArray(items: seq<Json>)
    | JObject(fields: map<string, Json>)

  datatype Input = Input(kind: string, name: string, value: string)

  type Variables = map<string, string>

  // ---------------------------------------------------------------- the pattern \$\{.+?\}

  /** The first closing brace before the end of the line. */
  function FirstClose(t: string): (n: Option<nat>)
    ensures n.Some? ==> n.value < |t| && t[n.value] == '}' && forall i :: 0 <= i < n.value ==> t[i] != '}' && t[i] != '\n'
    ensures n.None? ==> forall i :: 0 <= i < |t| && t[i] == '}' ==> exists k :: 0 <= k < i && t[k] == '\n'
  {
    if t == "" || t[0] == '\n' then None
    else if t[0] == '}' then Some(0)
    else
      var rest := FirstClose(t[1..]);
      assert rest.None? ==> forall i :: 1 <= i < |t| && t[i] == '}' ==> exists k :: 0 <= k < i && t[k] == '\n' by {
        forall i | rest.None? && 1 <= i < |t| && t[i] == '}'
          ensures exists k :: 0 <= k < i && t[k] == '\n'
        {
          assert t[1..][i - 1] == '}';
          var k :| 0 <= k < i - 1 && t[1..][k] == '\n';
          assert t[k + 1] == '\n';
        }
      }
      if rest.Some? then Some(rest.value + 1) else None
  }

  /** The variable at the head of a text: `${`, at least one character, and up to the nearest `}`. */
  function Head(s: string): (m: Option<string>)
    ensures m.Some? ==> 4 <= |m.value| <= |s| && m.value == s[..|m.value|] && s[0] == '$'
  {
    if |s| < 4 || s[0] != '$' || s[1] != '{' || s[2] == '\n' then None
    else match FirstClose(s[3..])
         case None => None
         case Some(n) => Some(s[..n + 4])
  }

  /** The form of a variable: `${`, one character that is no line break, and more without a brace or a line break, up to `}`. */
  predicate IsReference(m: string) {
    && |m| >= 4 && m[0] == '$' && m[1] == '{' && m[2] != '\n' && m[|m| - 1] == '}'
    && forall i :: 3 <= i < |m| - 1 ==> m[i] != '}' && m[i] != '\n'
  }

  /** What is found at the head of a text is the one variable it starts with, if there is one. */
  lemma HeadIs(s: string, m: string)
    ensures Head(s) == Some(m) <==> m <= s && IsReference(m)
  {
    if |s| >= 4 && s[0] == '$' && s[1] == '{' && s[2] != '\n' {
      var t, close := s[3..], FirstClose(s[3..]);
      if m <= s && IsReference(m) {
        var n := |m| - 4;
        assert t[n] == '}' && forall i :: 0 <= i < n ==> t[i] == m[i + 3];
        assert close.Some?;
        assert close.value == n && m == s[..n + 4];
      }
      if close.Some? {
        var found := s[..close.value + 4];
        forall i | 3 <= i < |found| - 1
          ensures found[i] != '}' && found[i] != '\n'
        {
          assert found[i] == t[i - 3];
        }
        assert found[|found| - 1] == t[close.value];
        assert IsReference(found) && Head(s) == Some(found);
      }
    }
  }

  /** Every variable of the text that has a value replaced by it, the rest kept. */
  function Interpolate(vars: Variables, s: string): string {
    if s == "" then ""
    else match Head(s)
         case None => s[..1] + Interpolate(vars, s[1..])
         case Some(m) => (if m in vars then vars[m] else m) + Interpolate(vars, s[|m|..])
  }

  function Concat(pieces: seq<string>): string {
    if pieces == [] then "" else pieces[0] + Concat(pieces[1..])
  }

  /** A text read from the left: references, and single characters at which none starts. */
  ghost predicate Reads(pieces: seq<string>, s: string) {
    && Concat(pieces) == s
    && forall i :: 0 <= i < |pieces| ==>
         IsReference(pieces[i]) || (|pieces[i]| == 1 && forall m :: IsReference(m) ==> !(m <= Concat(pieces[i..])))
  }

  /** Each piece, or its value if it is a reference that has one. */
  function Valued(vars: Variables, pieces: seq<string>): seq<string> {
    seq(|pieces|, i requires 0 <= i < |pieces| => if IsReference(pieces[i]) && pieces[i] in vars then vars[pieces[i]] else pieces[i])
  }

  /** Interpolation reads the text as references and single characters, and replaces each reference that has a value. */
  lemma {:induction false} InterpolateByPieces(vars: Variables, s: string) returns (pieces: seq<string>)
    ensures Reads(pieces, s) && Interpolate(vars, s) == Concat(Valued(vars, pieces))
    decreases |s|
  {
    if s == "" {
      pieces := [];
    } else {
      var first := FirstPiece(s);
      var rest := InterpolateByPieces(vars, s[|first|..]);
      pieces := [first] + rest;
      OneMorePiece(first, rest, s);
      OneMoreValue(vars, first, rest);
    }
  }

  lemma OneMoreValue(vars: Variables, first: string, rest: seq<string>)
    ensures Concat(Valued(vars, [first] + rest)) == (if IsReference(first) && first in vars then vars[first] else first) + Concat(Valued(vars, rest))
  {
    assert Valued(vars, [first] + rest)[1..] == Valued(vars, rest);
  }

  lemma FirstPiece(s: string) returns (first: string)
    requires s != ""
    ensures 0 < |first| <= |s| && first == s[..|first|]
    ensures if Head(s).Some? then IsReference(first) && Head(s).value == first
            else |first| == 1 && !IsReference(first) && forall m :: IsReference(m) ==> !(m <= s)
  {
    first := if Head(s).Some? then Head(s).value else s[..1];
    HeadIs(s, first);
    if Head(s).None? {
      forall m | IsReference(m)
        ensures !(m <= s)
      {
        HeadIs(s, m);
      }
    }
  }

  lemma OneMorePiece(first: string, rest: seq<string>, s: string)
    requires 0 < |first| <= |s| && first == s[..|first|] && Reads(rest, s[|first|..])
    requires IsReference(first) || (|first| == 1 && forall m :: IsReference(m) ==> !(m <= s))
    ensures Reads([first] + rest, s)
  {
    var pieces := [first] + rest;
    assert pieces[1..] == rest && first + s[|first|..] == s && pieces[0..] == pieces;
    forall i | 0 < i < |pieces|
      ensures pieces[i] == rest[i - 1] && pieces[i..] == rest[i - 1..]
    {
    }
  }

  /** What evaluating a JSON value yields. */
  function Evaluated(vars: Variables, j: Json): Json {
    match j
    case JString(s) => JString(Interpolate(vars, s))
    case JArray(items) => JArray(seq(|items|, i requires 0 <= i < |items| => Evaluated(vars, items[i])))
    case JObject(fields) => JObject(map k | k in fields && k != "__inputs" :: Evaluated(vars, fields[k]))
    case _ => j
  }

  // ---------------------------------------------------------------- shape

  /** The same tree but for string contents and `__inputs` entries. */
  ghost predicate SameShape(a: Json, b: Json) {
    match a
    case JString(_) => b.JString?
    case JArray(items) => b.JArray? && |b.items| == |items| && forall i :: 0 <= i < |items| ==> SameShape(items[i], b.items[i])
    case JObject(fields) => b.JObject? && b.fields.Keys == fields.Keys - {"__inputs"}
                            && forall k :: k in b.fields ==> SameShape(fields[k], b.fields[k])
    case _ => b == a
  }

  lemma {:induction false} ShapeIsKept(vars: Variables, j: Json)
    ensures SameShape(j, Evaluated(vars, j))
  {
    match j
    case JArray(items) =>
      forall i | 0 <= i < |items|
        ensures SameShape(items[i], Evaluated(vars, j).items[i])
      {
        ShapeIsKept(vars, items[i]);
      }
    case JObject(fields) =>
      forall k | k in Evaluated(vars, j).fields
        ensures SameShape(fields[k], Evaluated(vars, j).fields[k])
      {
        ShapeIsKept(vars, fields[k]);
      }
    case _ =>
  }

  // ---------------------------------------------------------------- by paths

  datatype Branch = At(index: nat) | Field(key: string)

  /** What is found down a path of array places and object keys. */
  ghost function Down(j: Json, path: seq<Branch>): Option<Json>
    decreases |path|
  {
    if path == [] then Some(j)
    else
      match path[0]
      case At(i) => if j.JArray? && i < |j.items| then Down(j.items[i], path[1..]) else None
      case Field(k) => if j.JObject? && k in j.fields then Down(j.fields[k], path[1..]) else None
  }

  /** The value found at one place before and after: strings have their references replaced, all else is kept. */
  ghost predicate ReplacedAt(vars: Variables, before: Option<Json>, after: Option<Json>) {
    match before
    case None => after.None?
    case Some(JString(s)) => after == Some(JString(Interpolate(vars, s)))
    case Some(JArray(items)) => after.Some? && after.value.JArray? && |after.value.items| == |items|
    case Some(JObject(fields)) => after.Some? && after.value.JObject? && after.value.fields.Keys == fields.Keys - {"__inputs"}
    case Some(other) => after == Some(other)
  }

  /** Path by path: whatever does not lead through a declaration is replaced in place, and the declarations are gone. */
  ghost predicate ReplacedEverywhere(vars: Variables, before: Json, after: Json) {
    forall path :: if Field("__inputs") in path then Down(after, path).None? else ReplacedAt(vars, Down(before, path), Down(after, path))
  }

  lemma {:induction false} ReplacedDown(vars: Variables, j: Json, path: seq<Branch>)
    ensures if Field("__inputs") in path then Down(Evaluated(vars, j), path).None?
            else ReplacedAt(vars, Down(j, path), Down(Evaluated(vars, j), path))
    decreases |path|
  {
    if path != [] {
      match path[0]
      case At(i) =>
        if j.JArray? && i < |j.items| {
          ReplacedDown(vars, j.items[i], path[1..]);
        }
      case Field(k) =>
        if j.JObject? && k in j.fields && k != "__inputs" {
          ReplacedDown(vars, j.fields[k], path[1..]);
        }
    }
  }

  /** Evaluation at any depth, told without it. */
  lemma EvaluatedByPaths(vars: Variables, j: Json)
    ensures ReplacedEverywhere(vars, j, Evaluated(vars, j))
  {
    forall path: seq<Branch>
      ensures if Field("__inputs") in path then Down(Evaluated(vars, j), path).None?
              else ReplacedAt(vars, Down(j, path), Down(Evaluated(vars, j), path))
    {
      ReplacedDown(vars, j, path);
    }
  }

  // ---------------------------------------------------------------- the evaluator

  /** `Get("x").MustString()`: the text of a field, empty if there is none. */
  function StringOf(j: Json, field: string): string {
    if j.JObject? && field in j.fields && j.fields[field].JString? then j.fields[field].s else ""
  }

  /** `Get("__inputs").MustArray()`: the declared inputs, none if there is no such array. */
  function DeclaredInputs(template: Json): seq<Json> {
    if template.JObject? && "__inputs" in template.fields && template.fields["__inputs"].JArray?
    then template.fields["__inputs"].items else []
  }

  predicate Supplies(input: Input, name: string, kind: string) {
    kind == input.kind && (input.name == name || input.name == "*")
  }

  /** The input found for a declaration: the first one that supplies it. */
  function InputFor(inputs: seq<Input>, name: string, kind: string): (r: Option<Input>)
    ensures r.Some? ==> r.value in inputs && Supplies(r.value, name, kind)
    ensures r.None? ==> forall i :: i in inputs ==> !Supplies(i, name, kind)
  {
    if inputs == [] then None
    else if Supplies(inputs[0], name, kind) then Some(inputs[0])
    else InputFor(inputs[1..], name, kind)
  }

  ghost predicate Supplied(inputs: seq<Input>, decl: Json) {
    InputFor(inputs, StringOf(decl, "name"), StringOf(decl, "type")).Some?
  }

  ghost predicate AllSupplied(inputs: seq<Input>, decls: seq<Json>) {
    forall d :: d in decls ==> Supplied(inputs, d)
  }

  /** The variables the declarations bind; a repeated name keeps its last value. */
  ghost function Bindings(inputs: seq<Input>, decls: seq<Json>): Variables
    requires AllSupplied(inputs, decls)
  {
    if decls == [] then map[]
    else
      var d := decls[|decls| - 1];
      assert Supplied(inputs, d);
      Bindings(inputs, decls[..|decls| - 1])["${" + StringOf(d, "name") + "}" := InputFor(inputs, StringOf(d, "name"), StringOf(d, "type")).value.value]
  }

  /** Place `m` of the inputs is the first of the type that is called so, or `*`. */
  ghost predicate FirstSupplier(inputs: seq<Input>, name: string, kind: string, m: nat) {
    && m < |inputs| && inputs[m].kind == kind && (inputs[m].name == name || inputs[m].name == "*")
    && forall l :: 0 <= l < m ==> !(inputs[l].kind == kind && (inputs[l].name == name || inputs[l].name == "*"))
  }

  /** The last declaration of this name is declaration `i`, and input `m` supplies it first. */
  ghost predicate BoundBy(inputs: seq<Input>, decls: seq<Json>, name: string, i: nat, m: nat) {
    && i < |decls| && StringOf(decls[i], "name") == name
    && (forall j :: i < j < |decls| ==> StringOf(decls[j], "name") != name)
    && FirstSupplier(inputs, name, StringOf(decls[i], "type"), m)
  }

  /** The references that are bound and their values, told without any loop. */
  ghost predicate Binds(inputs: seq<Input>, decls: seq<Json>, reference: string, value: string) {
    exists name: string, i: nat, m: nat :: reference == "${" + name + "}" && BoundBy(inputs, decls, name, i, m) && inputs[m].value == value
  }

  lemma {:induction false} FirstSupplierIs(inputs: seq<Input>, name: string, kind: string) returns (m: nat)
    requires InputFor(inputs, name, kind).Some?
    ensures FirstSupplier(inputs, name, kind, m) && inputs[m] == InputFor(inputs, name, kind).value
  {
    if Supplies(inputs[0], name, kind) {
      m := 0;
    } else {
      var k := FirstSupplierIs(inputs[1..], name, kind);
      m := k + 1;
      forall l | 0 <= l < m
        ensures !(inputs[l].kind == kind && (inputs[l].name == name || inputs[l].name == "*"))
      {
        if l > 0 {
          assert inputs[l] == inputs[1..][l - 1];
        }
      }
    }
  }

  lemma SameReference(a: string, b: string)
    requires "${" + a + "}" == "${" + b + "}"
    ensures a == b
  {
    assert ("${" + a + "}")[2..|a| + 2] == a && ("${" + b + "}")[2..|b| + 2] == b;
  }

  /** The bindings are what the last declaration of each name and its first supplier say. */
  lemma {:induction false} BindingsAre(inputs: seq<Input>, decls: seq<Json>, reference: string, value: string)
    requires AllSupplied(inputs, decls)
    ensures reference in Bindings(inputs, decls) && Bindings(inputs, decls)[reference] == value <==> Binds(inputs, decls, reference, value)
  {
    if decls != [] {
      var n := |decls| - 1;
      var front, d := decls[..n], decls[n];
      assert Supplied(inputs, d);
      var name, kind := StringOf(d, "name"), StringOf(d, "type");
      if reference == "${" + name + "}" {
        var m := FirstSupplierIs(inputs, name, kind);
        assert BoundBy(inputs, decls, name, n, m);
        LastBinds(inputs, decls, reference, value, m);
      } else {
        BindingsAre(inputs, front, reference, value);
        EarlierBinds(inputs, decls, reference, value);
      }
    }
  }

  lemma LastBinds(inputs: seq<Input>, decls: seq<Json>, reference: string, value: string, m: nat)
    requires decls != [] && reference == "${" + StringOf(decls[|decls| - 1], "name") + "}"
    requires BoundBy(inputs, decls, StringOf(decls[|decls| - 1], "name"), |decls| - 1, m)
    ensures Binds(inputs, decls, reference, value) <==> inputs[m].value == value
  {
    if Binds(inputs, decls, reference, value) {
      var name: string, i: nat, k: nat :| reference == "${" + name + "}" && BoundBy(inputs, decls, name, i, k) && inputs[k].value == value;
      SameReference(name, StringOf(decls[|decls| - 1], "name"));
      assert i == |decls| - 1 && k == m;
    }
  }

  lemma EarlierBinds(inputs: seq<Input>, decls: seq<Json>, reference: string, value: string)
    requires decls != [] && reference != "${" + StringOf(decls[|decls| - 1], "name") + "}"
    ensures Binds(inputs, decls, reference, value) <==> Binds(inputs, decls[..|decls| - 1], reference, value)
  {
    var front := decls[..|decls| - 1];
    if Binds(inputs, decls, reference, value) {
      var name: string, i: nat, m: nat :| reference == "${" + name + "}" && BoundBy(inputs, decls, name, i, m) && inputs[m].value == value;
      EarlierBound(inputs, decls, name, i, m);
    }
    if Binds(inputs, front, reference, value) {
      var name: string, i: nat, m: nat :| reference == "${" + name + "}" && BoundBy(inputs, front, name, i, m) && inputs[m].value == value;
      EarlierBound(inputs, decls, name, i, m);
    }
  }

  lemma EarlierBound(inputs: seq<Input>, decls: seq<Json>, name: string, i: nat, m: nat)
    requires decls != [] && name != StringOf(decls[|decls| - 1], "name")
    ensures BoundBy(inputs, decls, name, i, m) <==> BoundBy(inputs, decls[..|decls| - 1], name, i, m)
  {
  }

  /** The name of the first declared input nobody supplies, or the evaluated template. */
  ghost function EvalOutcome(template: Json, inputs: seq<Input>): Result<Json, string> {
    var decls := DeclaredInputs(template);
    if AllSupplied(inputs, decls) then Ok(EvaluatedObject(Bindings(inputs, decls), template))
    else Err(FirstMissing(inputs, decls))
  }

  ghost function FirstMissing(inputs: seq<Input>, decls: seq<Json>): (name: string)
    requires !AllSupplied(inputs, decls)
  {
    if !Supplied(inputs, decls[0]) then StringOf(decls[0], "name")
    else
      assert decls == [decls[0]] + decls[1..];
      FirstMissing(inputs, decls[1..])
  }

  /** The top level is always treated as an object: anything else evaluates to an empty one. */
  function EvaluatedObject(vars: Variables, j: Json): Json {
    if j.JObject? then Evaluated(vars, j) else JObject(map[])
  }

  class Evaluator {
    const template: Json
    const inputs: seq<Input>
    var variables: Variables

    constructor (template: Json, inputs: seq<Input>)
      ensures this.template == template && this.inputs == inputs && variables == map[]
    {
      this.template, this.inputs, this.variables := template, inputs, map[];
    }

    method FindInput(varName: string, varType: string) returns (r: Option<Input>)
      ensures r == InputFor(inputs, varName, varType)
    {
      assert inputs[0..] == inputs;
      for i := 0 to |inputs|
        invariant InputFor(inputs, varName, varType) == InputFor(inputs[i..], varName, varType)
      {
        if varType == inputs[i].kind && (inputs[i].name == varName || inputs[i].name == "*") {
          return Some(inputs[i]);
        }
        assert inputs[i..][1..] == inputs[i + 1..];
      }
      return None;
    }

    /** Either every declared input is supplied and the template is evaluated under the bindings, or the first missing one is named. */
    method Eval() returns (r: Result<Json, string>)
      modifies this
      ensures r == EvalOutcome(template, inputs)
      ensures r.Ok? ==> variables == Bindings(inputs, DeclaredInputs(template))
      ensures r.Ok? ==> forall reference, value ::
                reference in variables && variables[reference] == value <==> Binds(inputs, DeclaredInputs(template), reference, value)
      ensures r.Ok? ==> ReplacedEverywhere(variables, if template.JObject? then template else JObject(map[]), r.value)
      ensures r.Err? ==> exists i :: 0 <= i < |DeclaredInputs(template)| && StringOf(DeclaredInputs(template)[i], "name") == r.error
                                     && FirstUnsupplied(inputs, DeclaredInputs(template), i)
    {
      variables := map[];
      var decls := DeclaredInputs(template);
      for i := 0 to |decls|
        invariant AllSupplied(inputs, decls[..i]) && variables == Bindings(inputs, decls[..i])
      {
        var name, kind := StringOf(decls[i], "name"), StringOf(decls[i], "type");
        var input := FindInput(name, kind);
        if input.None? {
          assert !Supplied(inputs, decls[i]);
          MissingIsFirst(inputs, decls, i);
          NothingSupplies(inputs, decls, i);
          return Err(name);
        }
        assert Supplied(inputs, decls[i]) && decls[..i + 1] == decls[..i] + [decls[i]];
        assert decls[..i + 1][..i] == decls[..i];
        variables := variables["${" + name + "}" := input.value.value];
      }
      assert decls[..|decls|] == decls;
      var result := EvalObject(template);
      forall reference, value
        ensures reference in variables && variables[reference] == value <==> Binds(inputs, decls, reference, value)
      {
        BindingsAre(inputs, decls, reference, value);
      }
      EvaluatedByPaths(variables, if template.JObject? then template else JObject(map[]));
      return Ok(result);
    }

    method EvalValue(source: Json) returns (r: Json)
      ensures r == Evaluated(variables, source)
      decreases source, 1
    {
      match source
      case JString(s) =>
        r := JString(Interpolate(variables, s));
      case JObject(fields) =>
        r := EvalObject(source);
      case JArray(items) =>
        var values: seq<Json> := [];
        for i := 0 to |items|
          invariant |values| == i && forall k :: 0 <= k < i ==> values[k] == Evaluated(variables, items[k])
        {
          var v := EvalValue(items[i]);
          values := values + [v];
        }
        r := JArray(values);
        assert r.items == Evaluated(variables, source).items;
      case _ =>
        r := source;
    }

    method EvalObject(source: Json) returns (r: Json)
      ensures r == EvaluatedObject(variables, source)
      decreases source, 0
    {
      if !source.JObject? {
        return JObject(map[]);
      }
      var fields := source.fields;
      var result: map<string, Json> := map[];
      var left := fields.Keys;
      while left != {}
        invariant left <= fields.Keys
        invariant result == map k | k in fields && k !in left && k != "__inputs" :: Evaluated(variables, fields[k])
      {
        var key :| key in left;
        left := left - {key};
        if key == "__inputs" {
          continue;
        }
        var v := EvalValue(fields[key]);
        result := result[key := v];
      }
      r := JObject(result);
    }
  }

  ghost predicate HasSupplier(inputs: seq<Input>, decl: Json) {
    exists m: nat :: FirstSupplier(inputs, StringOf(decl, "name"), StringOf(decl, "type"), m)
  }

  /** No input supplies declaration `i`, and some input supplies each one before it. */
  ghost predicate FirstUnsupplied(inputs: seq<Input>, decls: seq<Json>, i: nat)
    requires i < |decls|
  {
    !HasSupplier(inputs, decls[i]) && forall j :: 0 <= j < i ==> HasSupplier(inputs, decls[j])
  }

  lemma NothingSupplies(inputs: seq<Input>, decls: seq<Json>, i: nat)
    requires i < |decls| && AllSupplied(inputs, decls[..i]) && !Supplied(inputs, decls[i])
    ensures FirstUnsupplied(inputs, decls, i)
  {
    forall m: nat | m < |inputs|
      ensures !FirstSupplier(inputs, StringOf(decls[i], "name"), StringOf(decls[i], "type"), m)
    {
      assert inputs[m] in inputs;
    }
    forall j | 0 <= j < i
      ensures HasSupplier(inputs, decls[j])
    {
      assert decls[j] in decls[..i];
      assert Supplied(inputs, decls[j]);
      var m := FirstSupplierIs(inputs, StringOf(decls[j], "name"), StringOf(decls[j], "type"));
      assert FirstSupplier(inputs, StringOf(decls[j], "name"), StringOf(decls[j], "type"), m);
    }
  }

  lemma {:induction false} MissingIsFirst(inputs: seq<Input>, decls: seq<Json>, i: nat)
    requires i < |decls| && AllSupplied(inputs, decls[..i]) && !Supplied(inputs, decls[i])
    ensures !AllSupplied(inputs, decls) && FirstMissing(inputs, decls) == StringOf(decls[i], "name")
  {
    assert decls[i] in decls;
    if i > 0 {
      assert decls[0] in decls[..i];
      forall d | d in decls[1..][..i - 1]
        ensures Supplied(inputs, d)
      {
        assert d in decls[..i];
      }
      MissingIsFirst(inputs, decls[1..], i - 1);
    }
  }

  lemma {:induction false} NothingInterpolated(s: string)
    ensures Interpolate(map[], s) == s
    decreases |s|
  {
    if s != "" {
      match Head(s)
      case None =>
        NothingInterpolated(s[1..]);
        assert s[..1] + s[1..] == s;
      case Some(m) =>
        NothingInterpolated(s[|m|..]);
        assert m + s[|m|..] == s;
    }
  }

  /** No `__inputs` at any level. */
  ghost predicate InputsDropped(j: Json) {
    match j
    case JArray(items) => forall i :: 0 <= i < |items| ==> InputsDropped(items[i])
    case JObject(fields) => "__inputs" !in fields && forall k :: k in fields ==> InputsDropped(fields[k])
    case _ => true
  }

  lemma {:induction false} AllInputsDropped(vars: Variables, j: Json)
    ensures InputsDropped(Evaluated(vars, j)) && InputsDropped(EvaluatedObject(vars, j))
  {
    match j
    case JArray(items) =>
      forall i | 0 <= i < |items|
        ensures InputsDropped(Evaluated(vars, items[i]))
      {
        AllInputsDropped(vars, items[i]);
      }
    case JObject(fields) =>
      forall k | k in fields
        ensures InputsDropped(Evaluated(vars, fields[k]))
      {
        AllInputsDropped(vars, fields[k]);
      }
    case _ =>
  }

  lemma {:induction false} NoVariablesNoChange(j: Json)
    requires InputsDropped(j)
    ensures Evaluated(map[], j) == j
  {
    match j
    case JString(s) =>
      NothingInterpolated(s);
    case JArray(items) =>
      forall i | 0 <= i < |items|
        ensures Evaluated(map[], items[i]) == items[i]
      {
        NoVariablesNoChange(items[i]);
      }
      assert Evaluated(map[], j).items == items;
    case JObject(fields) =>
      forall k | k in fields
        ensures Evaluated(map[], fields[k]) == fields[k]
      {
        NoVariablesNoChange(fields[k]);
      }
      assert Evaluated(map[], j).fields == fields;
    case _ =>
  }

  /** Importing the result once more asks for nothing and changes nothing, whatever the inputs and values. */
  lemma ImportTwice(template: Json, inputs: seq<Input>, later: seq<Input>)
    requires EvalOutcome(template, inputs).Ok?
    ensures EvalOutcome(EvalOutcome(template, inputs).value, later) == EvalOutcome(template, inputs)
  {
    var result := EvalOutcome(template, inputs).value;
    assert DeclaredInputs(result) == [];
    assert AllSupplied(later, []) && Bindings(later, []) == map[];
    AllInputsDropped(Bindings(inputs, DeclaredInputs(template)), template);
    NoVariablesNoChange(result);
  }
}
