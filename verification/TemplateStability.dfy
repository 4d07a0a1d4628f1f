/**
 * When evaluating a dashboard template a second time changes nothing (pkg/plugins/dashboard_importer.go). The exact
 * condition is on the bindings alone: the values that can be put in neither bring a variable that is replaced again
 * nor leave one unfinished for what comes after them.
 */
module TemplateStability {
  import opened Prelude
  import opened DashboardTemplate

  // ---------------------------------------------------------------- reading variables

  /** A value that cannot combine with its surroundings into a new variable. */
  predicate Inert(v: string) {
    v != "" && v[0] != '{' && '$' !in v
  }

  ghost predicate AllInert(vars: Variables) {
    forall k :: k in vars ==> Inert(vars[k])
  }

  lemma {:induction false} PlainTextKept(vars: Variables, v: string, s: string)
    requires '$' !in v
    ensures Interpolate(vars, v + s) == v + Interpolate(vars, s)
  {
    if v == "" {
      assert v + s == s;
    } else {
      assert v[0] in v;
      assert (v + s)[1..] == v[1..] + s && (v + s)[..1] == v[..1];
      PlainTextKept(vars, v[1..], s);
    }
  }

  lemma {:induction false} FirstCloseExtends(t: string, more: string)
    requires FirstClose(t).Some?
    ensures FirstClose(t + more) == FirstClose(t)
  {
    if t[0] != '}' {
      assert (t + more)[1..] == t[1..] + more;
      FirstCloseExtends(t[1..], more);
    }
  }

  /** A variable is recognised whatever follows it. */
  lemma HeadOfVariable(s: string, m: string, more: string)
    requires Head(s) == Some(m)
    ensures Head(m + more) == Some(m)
  {
    var n := FirstClose(s[3..]).value;
    assert m[3..] == s[3..][..n + 1];
    CloseInPrefix(s[3..], n);
    FirstCloseExtends(m[3..], more);
    assert (m + more)[3..] == m[3..] + more;
    assert (m + more)[..n + 4] == m;
  }

  lemma {:induction false} CloseInPrefix(t: string, n: nat)
    requires FirstClose(t) == Some(n)
    ensures FirstClose(t[..n + 1]) == Some(n)
  {
    if n > 0 {
      assert t[..n + 1][1..] == t[1..][..n];
      CloseInPrefix(t[1..], n - 1);
    }
  }

  /** A reference to `name`, with the characters the pattern allows in it, gives way to the value of the variable. */
  lemma ReferenceReplaced(vars: Variables, name: string, rest: string)
    requires name != "" && '\n' !in name && '}' !in name[1..]
    ensures var m := "${" + name + "}";
            Interpolate(vars, m + rest) == (if m in vars then vars[m] else m) + Interpolate(vars, rest)
  {
    var m := "${" + name + "}";
    assert m[2..] == name + "}" && m[3..] == name[1..] + "}";
    CloseOfName(name[1..]);
    assert m[2] == name[0] && name[0] in name;
    assert m[..|m|] == m;
    assert Head(m) == Some(m);
    HeadOfVariable(m, m, rest);
    assert (m + rest)[|m|..] == rest;
  }

  lemma {:induction false} CloseOfName(t: string)
    requires '\n' !in t && '}' !in t
    ensures FirstClose(t + "}") == Some(|t|)
  {
    if t != "" {
      assert (t + "}")[1..] == t[1..] + "}";
      assert t[0] in t;
      CloseOfName(t[1..]);
    }
  }

  lemma VariableHasClose(t: string)
    requires Head(t).Some?
    ensures FirstClose(t).Some?
  {
    var n := FirstClose(t[3..]).value;
    assert t[n + 3] == '}';
    if FirstClose(t).None? {
      var k :| 0 <= k < n + 3 && t[k] == '\n';
      assert false;
    }
  }

  /** Text with no closing brace on its first line has none after interpolation. */
  lemma {:induction false} NoCloseAppears(vars: Variables, t: string)
    requires FirstClose(t).None?
    ensures FirstClose(Interpolate(vars, t)).None?
  {
    if t != "" {
      if Head(t).Some? {
        VariableHasClose(t);
      }
      var r := Interpolate(vars, t);
      assert r == t[..1] + Interpolate(vars, t[1..]);
      assert r[1..] == Interpolate(vars, t[1..]);
      if t[0] != '\n' {
        NoCloseAppears(vars, t[1..]);
      }
    }
  }

  // ---------------------------------------------------------------- harmless bindings

  /** A variable whose replacement is another text. */
  predicate Active(vars: Variables, m: string) {
    m in vars && vars[m] != m
  }

  /** An active variable that the pattern finds. */
  predicate Found(vars: Variables, m: string) {
    Active(vars, m) && Head(m) == Some(m)
  }

  /** Text that starts no variable as it is, but does if the right text follows. */
  predicate Unfinished(t: string) {
    t == "$" || (|t| >= 2 && t[0] == '$' && t[1] == '{' && Head(t).None? && '\n' !in t[2..])
  }

  /** Reading the text meets no active variable, and leaves nothing unfinished. */
  predicate Quiet(vars: Variables, t: string) {
    if t == "" then true
    else match Head(t)
         case Some(m) => !Active(vars, m) && Quiet(vars, t[|m|..])
         case None => !Unfinished(t) && Quiet(vars, t[1..])
  }

  /** Every value that can be put in is quiet, also after a `$`. */
  ghost predicate Harmless(vars: Variables) {
    forall k :: k in vars && Found(vars, k) ==> Quiet(vars, vars[k]) && Quiet(vars, "$" + vars[k])
  }

  ghost predicate Stable(vars: Variables, s: string) {
    Interpolate(vars, Interpolate(vars, s)) == Interpolate(vars, s)
  }

  lemma {:induction false} BrokenLineStays(t: string, more: string)
    requires FirstClose(t).None? && '\n' in t
    ensures FirstClose(t + more).None?
  {
    if t[0] != '\n' {
      assert (t + more)[1..] == t[1..] + more;
      BrokenLineStays(t[1..], more);
    }
  }

  /** Text that starts no variable and is not unfinished starts none whatever follows. */
  lemma NothingGrows(t: string, more: string)
    requires t != "" && Head(t).None? && !Unfinished(t)
    ensures Head(t + more).None?
  {
    if |t| >= 3 && t[0] == '$' && t[1] == '{' && t[2] != '\n' {
      assert t[2..] == [t[2]] + t[3..];
      assert '\n' in t[3..];
      BrokenLineStays(t[3..], more);
      assert (t + more)[3..] == t[3..] + more;
    }
  }

  lemma FoundByHead(vars: Variables, s: string, m: string)
    requires Head(s) == Some(m)
    ensures Head(m) == Some(m) && s == m + s[|m|..] && (Active(vars, m) ==> Found(vars, m))
  {
    HeadOfVariable(s, m, "");
    assert m + "" == m;
  }

  /** One variable read in a text with more behind it. */
  lemma VariableThen(vars: Variables, m: string, rest: string)
    requires Head(m) == Some(m)
    ensures Interpolate(vars, m + rest) == (if m in vars then vars[m] else m) + Interpolate(vars, rest)
  {
    HeadOfVariable(m, m, rest);
    assert (m + rest)[|m|..] == rest;
  }

  lemma CharacterThen(vars: Variables, t: string, more: string)
    requires t != "" && Head(t).None? && !Unfinished(t)
    ensures Interpolate(vars, t + more) == t[..1] + Interpolate(vars, t[1..] + more)
  {
    NothingGrows(t, more);
    assert (t + more)[1..] == t[1..] + more && (t + more)[..1] == t[..1];
  }

  /** Quiet text is kept, and does not touch what follows it. */
  lemma {:induction false} QuietKept(vars: Variables, t: string, more: string)
    requires Quiet(vars, t)
    ensures Interpolate(vars, t + more) == t + Interpolate(vars, more)
    decreases |t|
  {
    if t == "" {
      assert t + more == more && t + Interpolate(vars, more) == Interpolate(vars, more);
    } else {
      match Head(t)
      case Some(m) =>
        FoundByHead(vars, t, m);
        QuietKept(vars, t[|m|..], more);
        QuietVariable(vars, m, t[|m|..], more);
      case None =>
        QuietKept(vars, t[1..], more);
        QuietCharacter(vars, t, more);
    }
  }

  lemma QuietVariable(vars: Variables, m: string, rest: string, more: string)
    requires Head(m) == Some(m) && !Active(vars, m) && Interpolate(vars, rest + more) == rest + Interpolate(vars, more)
    ensures Interpolate(vars, (m + rest) + more) == (m + rest) + Interpolate(vars, more)
  {
    VariableThen(vars, m, rest + more);
    Associative(m, rest, more);
    Associative(m, rest, Interpolate(vars, more));
  }

  lemma QuietCharacter(vars: Variables, t: string, more: string)
    requires t != "" && Head(t).None? && !Unfinished(t) && Interpolate(vars, t[1..] + more) == t[1..] + Interpolate(vars, more)
    ensures Interpolate(vars, t + more) == t + Interpolate(vars, more)
  {
    CharacterThen(vars, t, more);
    Associative(t[..1], t[1..], Interpolate(vars, more));
    assert t[..1] + t[1..] == t;
  }

  lemma Associative(a: string, b: string, c: string)
    ensures (a + b) + c == a + (b + c)
  {
  }

  lemma Cancel(p: string, a: string, b: string)
    requires p + a == p + b
    ensures a == b
  {
    assert (p + a)[|p|..] == a && (p + b)[|p|..] == b;
  }

  // ---------------------------------------------------------------- harmless bindings are stable

  /** A `$` that starts no variable, before text that starts with a brace, starts none after the rest is interpolated. */
  lemma OpenStaysOpen(vars: Variables, s: string)
    requires |s| >= 2 && s[0] == '$' && s[1] == '{' && Head(s).None?
    ensures Head(s[..1] + Interpolate(vars, s[1..])).None?
  {
    var t, body := s[1..], s[2..];
    var r := s[..1] + Interpolate(vars, t);
    assert t[1..] == body && Interpolate(vars, t) == t[..1] + Interpolate(vars, body);
    var inside := Interpolate(vars, body);
    assert r[2..] == inside;
    if body != "" && body[0] != '\n' {
      assert body[1..] == s[3..];
      assert FirstClose(s[3..]).None?;
      NoHeadInside(body);
      assert inside == body[..1] + Interpolate(vars, body[1..]);
      NoCloseAppears(vars, body[1..]);
      assert r[3..] == Interpolate(vars, body[1..]);
    }
  }

  lemma NoHeadInside(body: string)
    requires body != "" && FirstClose(body[1..]).None?
    ensures Head(body).None?
  {
    if |body| >= 4 {
      assert body[1..][1..] == body[2..] && body[2..][1..] == body[3..];
    }
  }

  /** With harmless bindings a `$` before interpolated text is read as before the text itself. */
  lemma DollarStable(vars: Variables, s: string)
    requires Harmless(vars) && s != "" && s[0] == '$' && Head(s).None?
    requires forall t: string :: |t| < |s| ==> Stable(vars, t)
    ensures Stable(vars, s)
  {
    var t := s[1..];
    assert s[..1] == "$" && s == "$" + t;
    assert Stable(vars, t);
    if t != "" && Head(t).Some? && Active(vars, Head(t).value) {
      assert Stable(vars, t[|Head(t).value|..]);
      DollarBeforeActive(vars, s, t, Head(t).value);
    } else {
      if t != "" && t[0] == '{' {
        OpenStaysOpen(vars, s);
      } else if t != "" {
        FirstStays(vars, t);
      }
      LoneDollarStable(vars, s);
    }
  }

  lemma DollarBeforeActive(vars: Variables, s: string, t: string, k: string)
    requires Harmless(vars) && s == "$" + t && Head(s).None? && Head(t) == Some(k) && Active(vars, k) && Stable(vars, t[|k|..])
    ensures Stable(vars, s)
  {
    var rest := Interpolate(vars, t[|k|..]);
    FoundByHead(vars, t, k);
    QuietKept(vars, "$" + vars[k], rest);
    assert s[1..] == t && s[..1] == "$";
    Associative("$", vars[k], rest);
  }

  lemma LoneDollarStable(vars: Variables, s: string)
    requires s != "" && s[0] == '$' && Head(s).None? && Stable(vars, s[1..])
    requires Head(s[..1] + Interpolate(vars, s[1..])).None?
    ensures Stable(vars, s)
  {
    var out := Interpolate(vars, s[1..]);
    assert (s[..1] + out)[1..] == out && (s[..1] + out)[..1] == s[..1];
  }

  lemma FirstStays(vars: Variables, t: string)
    requires t != "" && (Head(t).Some? ==> !Active(vars, Head(t).value))
    ensures Interpolate(vars, t) != "" && Interpolate(vars, t)[0] == t[0]
  {
  }

  /** With harmless bindings, interpolating a second time changes nothing. */
  lemma {:induction false} HarmlessIsStable(vars: Variables, s: string)
    requires Harmless(vars)
    ensures Stable(vars, s)
    decreases |s|
  {
    if s != "" {
      match Head(s)
      case None =>
        forall t: string | |t| < |s|
          ensures Stable(vars, t)
        {
          HarmlessIsStable(vars, t);
        }
        if s[0] == '$' {
          DollarStable(vars, s);
        } else {
          var r := s[..1] + Interpolate(vars, s[1..]);
          assert r[1..] == Interpolate(vars, s[1..]) && r[..1] == s[..1] && Stable(vars, s[1..]);
        }
      case Some(m) =>
        var rest := Interpolate(vars, s[|m|..]);
        HarmlessIsStable(vars, s[|m|..]);
        FoundByHead(vars, s, m);
        if Active(vars, m) {
          QuietKept(vars, vars[m], rest);
        } else {
          VariableThen(vars, m, rest);
        }
    }
  }

  // ---------------------------------------------------------------- stable bindings are harmless

  /** No active variable is shorter than `n`. */
  ghost predicate NoneShorter(vars: Variables, n: nat) {
    forall k :: k in vars && Found(vars, k) ==> n <= |k|
  }

  lemma {:induction false} Shortest(vars: Variables, k: string) returns (k0: string)
    requires Found(vars, k)
    ensures Found(vars, k0) && NoneShorter(vars, |k0|)
    decreases |k|
  {
    if j :| j in vars && Found(vars, j) && |j| < |k| {
      k0 := Shortest(vars, j);
    } else {
      k0 := k;
    }
  }

  /** Text too short for an active variable is kept. */
  lemma {:induction false} ShortKept(vars: Variables, t: string, n: nat)
    requires NoneShorter(vars, n) && |t| < n
    ensures Interpolate(vars, t) == t
    decreases |t|
  {
    if t != "" {
      match Head(t)
      case None =>
        ShortKept(vars, t[1..], n);
        assert t == t[..1] + t[1..];
      case Some(m) =>
        FoundByHead(vars, t, m);
        ShortKept(vars, t[|m|..], n);
    }
  }

  lemma {:induction false} LongerThanAll(keys: set<string>) returns (n: nat)
    ensures forall k :: k in keys ==> |k| < n
  {
    if keys == {} {
      n := 0;
    } else {
      var k :| k in keys;
      var m := LongerThanAll(keys - {k});
      n := if m <= |k| then |k| + 1 else m;
    }
  }

  lemma DollarBeforeDollar(vars: Variables, before: string, s: string)
    requires (before == "" || before == "$") && s != "" && s[0] == '$'
    ensures Interpolate(vars, before + s) == before + Interpolate(vars, s)
  {
    if before == "" {
      assert before + s == s;
    } else {
      assert (before + s)[..1] == before && (before + s)[1..] == s;
    }
  }

  /** In context `s` the text `t` is put out, whatever follows. */
  ghost predicate PutsOut(vars: Variables, s: string, t: string) {
    forall y: string :: Interpolate(vars, s + y) == t + Interpolate(vars, y)
  }

  /** The text reads as `p` and then `w`, whatever follows. */
  ghost predicate ReadsAs(vars: Variables, t: string, p: string, w: string) {
    t == p + w && forall y: string :: Interpolate(vars, t + y) == p + Interpolate(vars, w + y)
  }

  ghost predicate AllStable(vars: Variables) {
    forall s: string :: Stable(vars, s)
  }

  lemma ValuePutOut(vars: Variables, k: string)
    requires Found(vars, k)
    ensures PutsOut(vars, k, vars[k]) && PutsOut(vars, "$" + k, "$" + vars[k])
  {
    forall y: string
      ensures Interpolate(vars, k + y) == vars[k] + Interpolate(vars, y)
      ensures Interpolate(vars, "$" + k + y) == "$" + vars[k] + Interpolate(vars, y)
    {
      VariableThen(vars, k, y);
      DollarBeforeDollar(vars, "$", k + y);
      Associative("$", k, y);
      Associative("$", vars[k], Interpolate(vars, y));
    }
  }

  /** Where reading a text first meets trouble: an active variable, or something unfinished. */
  lemma {:induction false} FirstTrouble(vars: Variables, t: string) returns (p: string, w: string)
    requires !Quiet(vars, t)
    ensures ReadsAs(vars, t, p, w) && (Unfinished(w) || (Head(w).Some? && Active(vars, Head(w).value)))
    decreases |t|
  {
    match Head(t)
    case Some(m) =>
      if Active(vars, m) {
        p, w := "", t;
        assert forall y: string :: "" + Interpolate(vars, t + y) == Interpolate(vars, t + y);
      } else {
        FoundByHead(vars, t, m);
        var q;
        q, w := FirstTrouble(vars, t[|m|..]);
        p := m + q;
        ReadsAfterVariable(vars, m, t[|m|..], q, w);
      }
    case None =>
      if Unfinished(t) {
        p, w := "", t;
        assert forall y: string :: "" + Interpolate(vars, t + y) == Interpolate(vars, t + y);
      } else {
        var q;
        q, w := FirstTrouble(vars, t[1..]);
        p := t[..1] + q;
        ReadsAfterCharacter(vars, t, q, w);
      }
  }

  lemma ReadsAfterVariable(vars: Variables, m: string, rest: string, q: string, w: string)
    requires Head(m) == Some(m) && !Active(vars, m) && ReadsAs(vars, rest, q, w)
    ensures ReadsAs(vars, m + rest, m + q, w)
  {
    Associative(m, q, w);
    forall y: string
      ensures Interpolate(vars, (m + rest) + y) == (m + q) + Interpolate(vars, w + y)
    {
      Associative(m, rest, y);
      VariableThen(vars, m, rest + y);
      Associative(m, q, Interpolate(vars, w + y));
    }
  }

  lemma ReadsAfterCharacter(vars: Variables, t: string, q: string, w: string)
    requires t != "" && Head(t).None? && !Unfinished(t) && ReadsAs(vars, t[1..], q, w)
    ensures ReadsAs(vars, t, t[..1] + q, w)
  {
    Associative(t[..1], q, w);
    assert t[..1] + t[1..] == t;
    forall y: string
      ensures Interpolate(vars, t + y) == (t[..1] + q) + Interpolate(vars, w + y)
    {
      CharacterThen(vars, t, y);
      Associative(t[..1], q, Interpolate(vars, w + y));
    }
  }

  /** What follows a text that is put out is read a second time together with it. */
  lemma ReadTwice(vars: Variables, s: string, t: string, p: string, w: string, y: string)
    requires AllStable(vars) && PutsOut(vars, s, t) && ReadsAs(vars, t, p, w) && Interpolate(vars, y) == y
    ensures Interpolate(vars, w + y) == w + y
  {
    assert Stable(vars, s + y);
    assert Interpolate(vars, s + y) == t + y;
    Associative(p, w, y);
    Cancel(p, Interpolate(vars, w + y), w + y);
  }

  /** A lone `$` put out is completed by the rest of an active variable. */
  lemma NoDollarPutOut(vars: Variables, s: string, t: string, p: string, k0: string)
    requires AllStable(vars) && PutsOut(vars, s, t) && Found(vars, k0) && NoneShorter(vars, |k0|)
    ensures !ReadsAs(vars, t, p, "$")
  {
    if ReadsAs(vars, t, p, "$") {
      VariableAlone(vars, k0);
      ShortKept(vars, k0[1..], |k0|);
      assert "$" + k0[1..] == k0;
      ReadTwice(vars, s, t, p, "$", k0[1..]);
    }
  }

  lemma VariableAlone(vars: Variables, k: string)
    requires Head(k) == Some(k) && k in vars
    ensures Interpolate(vars, k) == vars[k]
  {
    VariableThen(vars, k, "");
    assert k + "" == k && vars[k] + "" == vars[k];
  }

  function Filler(n: nat): string {
    seq(n, i => 'a')
  }

  lemma FillerKept(vars: Variables, n: nat, rest: string)
    ensures Interpolate(vars, Filler(n) + rest) == Filler(n) + Interpolate(vars, rest)
  {
    PlainTextKept(vars, Filler(n), rest);
  }

  /** Text on one line that opens as a variable becomes one with a closing brace. */
  lemma OpenIsHead(open: string)
    requires |open| >= 3 && open[0] == '$' && open[1] == '{' && '\n' !in open[2..] && '}' !in open[3..]
    ensures Head(open + "}") == Some(open + "}")
  {
    var m := open + "}";
    assert open[2..] == [open[2]] + open[3..];
    CloseOfName(open[3..]);
    assert m[3..] == open[3..] + "}" && m[2] == open[2];
    assert m[..|m|] == m;
  }

  lemma LongIsKept(vars: Variables, n: nat, m: string, rest: string)
    requires (forall k :: k in vars ==> |k| < n) && n <= |m| && Head(m) == Some(m)
    ensures Interpolate(vars, m + rest) == m + Interpolate(vars, rest)
  {
    VariableThen(vars, m, rest);
  }

  /** What has an active variable in it that is read as part of a longer, unknown one. */
  function Sheltered(n: nat, k0: string): string {
    "${}" + (Filler(n) + k0)
  }

  lemma ShelteredKept(vars: Variables, n: nat, k0: string)
    requires (forall k :: k in vars ==> |k| < n) && Found(vars, k0) && NoneShorter(vars, |k0|)
    ensures Interpolate(vars, Sheltered(n, k0)) == Sheltered(n, k0)
  {
    VariableHasClose(k0);
    var m, rest := ShelterHead(n, k0);
    LongIsKept(vars, n, m, rest);
    ShortKept(vars, rest, |k0|);
  }

  lemma ShelterHead(n: nat, k0: string) returns (m: string, rest: string)
    requires FirstClose(k0).Some?
    ensures Sheltered(n, k0) == m + rest && Head(m) == Some(m) && |m| >= n && |rest| < |k0|
  {
    var c := FirstClose(k0).value;
    var inside := Filler(n) + k0[..c];
    var open := "${}" + inside;
    rest := k0[c + 1..];
    m := open + "}";
    assert '\n' !in inside && '}' !in inside;
    assert open[2..] == "}" + inside && open[3..] == inside;
    OpenIsHead(open);
    ShelterText(n, k0, c);
  }

  lemma ShelterText(n: nat, k0: string, c: nat)
    requires c < |k0| && k0[c] == '}'
    ensures Sheltered(n, k0) == "${}" + (Filler(n) + k0[..c]) + "}" + k0[c + 1..]
  {
    assert k0 == k0[..c] + ("}" + k0[c + 1..]);
  }

  /** An unfinished variable put out takes the shelter away, and the active variable in it is replaced. */
  lemma ShelterLost(vars: Variables, n: nat, k0: string, w: string)
    requires (forall k :: k in vars ==> |k| < n) && Found(vars, k0) && n > 0
    requires Unfinished(w) && w != "$"
    ensures Interpolate(vars, w + (Filler(n) + Sheltered(n, k0))) != w + (Filler(n) + Sheltered(n, k0))
  {
    var m := OpenCloses(w, n);
    VariableAlone(vars, k0);
    FillerKept(vars, n, k0);
    LongIsKept(vars, n, m, Filler(n) + k0);
    ShelterSplit(w, n, k0);
    if m + (Filler(n) + vars[k0]) == m + (Filler(n) + k0) {
      Cancel(m, Filler(n) + vars[k0], Filler(n) + k0);
      Cancel(Filler(n), vars[k0], k0);
    }
  }

  lemma ShelterSplit(w: string, n: nat, k0: string)
    ensures w + (Filler(n) + Sheltered(n, k0)) == (w + (Filler(n) + "${}")) + (Filler(n) + k0)
  {
    var f, r := Filler(n), Filler(n) + k0;
    Associative(f, "${}", r);
    Associative(w, f + "${}", r);
  }

  /** The unfinished variable ends at the brace of the shelter. */
  lemma OpenCloses(w: string, n: nat) returns (m: string)
    requires Unfinished(w) && w != "$" && n > 0
    ensures m == w + (Filler(n) + "${}") && Head(m) == Some(m)
  {
    var more := Filler(n) + "${";
    m := w + (Filler(n) + "${}");
    assert Filler(n) + "${}" == more + "}";
    Associative(w, more, "}");
    assert forall i :: 0 <= i < n ==> Filler(n)[i] == 'a';
    StaysOpen(w, more);
    OpenIsHead(w + more);
  }

  lemma StaysOpen(w: string, more: string)
    requires Unfinished(w) && w != "$" && |more| > 0 && '}' !in more && '\n' !in more
    ensures var open := w + more; |open| >= 3 && open[0] == '$' && open[1] == '{' && '\n' !in open[2..] && '}' !in open[3..]
  {
    var open := w + more;
    assert open[2..] == w[2..] + more;
    if |w| >= 3 {
      assert w[2..] == [w[2]] + w[3..];
      NoLineNoClose(w[3..]);
      assert open[3..] == w[3..] + more;
    } else {
      assert open[3..] == more[1..];
    }
  }

  lemma {:induction false} NoLineNoClose(t: string)
    requires FirstClose(t).None? && '\n' !in t
    ensures '}' !in t
  {
    if t != "" {
      assert t == [t[0]] + t[1..];
      NoLineNoClose(t[1..]);
    }
  }

  /** Nothing unfinished is put out. */
  lemma NothingUnfinishedPutOut(vars: Variables, s: string, t: string, p: string, w: string, k: string)
    requires AllStable(vars) && PutsOut(vars, s, t) && Found(vars, k) && ReadsAs(vars, t, p, w)
    ensures !Unfinished(w)
  {
    var k0 := Shortest(vars, k);
    if w == "$" {
      NoDollarPutOut(vars, s, t, p, k0);
    } else if Unfinished(w) {
      var n := LongerThanAll(vars.Keys);
      ShelteredKept(vars, n, k0);
      FillerKept(vars, n, Sheltered(n, k0));
      ReadTwice(vars, s, t, p, w, Filler(n) + Sheltered(n, k0));
      ShelterLost(vars, n, k0, w);
    }
  }

  lemma HeadOfBeginning(b: string, k: string)
    requires Head(b).Some? && b <= k
    ensures Head(k) == Head(b)
  {
    var m := Head(b).value;
    assert k == m + k[|m|..];
    HeadOfVariable(b, m, k[|m|..]);
  }

  /** A proper beginning of a variable is empty or unfinished. */
  lemma BeginningUnfinished(k: string, b: string)
    requires Head(k) == Some(k) && b <= k && b != k && b != ""
    ensures Unfinished(b)
  {
    if Head(b).Some? {
      HeadOfBeginning(b, k);
    } else {
      var n := FirstClose(k[3..]).value;
      assert b == k[..|b|] && |k| == n + 4;
      assert forall i :: 3 <= i < |b| ==> k[i] == k[3..][i - 3];
      assert forall i :: 2 <= i < |b| ==> k[i] != '\n';
    }
  }

  lemma WholeReads(vars: Variables, t: string)
    ensures ReadsAs(vars, t, "", t)
  {
    assert "" + t == t && forall y: string :: "" + Interpolate(vars, t + y) == Interpolate(vars, t + y);
  }

  /** The value of an active variable is not a beginning of the variable itself. */
  lemma ValueIsNoBeginning(vars: Variables, k: string)
    requires AllStable(vars) && Found(vars, k)
    ensures !(vars[k] <= k)
  {
    ValuePutOut(vars, k);
    var v := vars[k];
    if v == "" {
      WholeReads(vars, "$" + v);
      NothingUnfinishedPutOut(vars, "$" + k, "$" + v, "", "$" + v, k);
    } else if v <= k {
      BeginningUnfinished(k, v);
      WholeReads(vars, v);
      NothingUnfinishedPutOut(vars, k, v, "", v, k);
    }
  }

  lemma {:induction false} SomethingStays(vars: Variables, t: string)
    requires t != "" && forall k :: k in vars && Found(vars, k) ==> vars[k] != ""
    ensures Interpolate(vars, t) != ""
  {
    if Head(t).Some? {
      FoundByHead(vars, t, Head(t).value);
    }
  }

  /** No active variable is put out. */
  lemma NoActivePutOut(vars: Variables, s: string, t: string, p: string, w: string)
    requires AllStable(vars) && PutsOut(vars, s, t) && ReadsAs(vars, t, p, w) && Head(w).Some?
    ensures !Active(vars, Head(w).value)
  {
    var k := Head(w).value;
    if Active(vars, k) {
      FoundByHead(vars, w, k);
      var v, rest := vars[k], w[|k|..];
      ReadTwice(vars, s, t, p, w, "");
      assert w + "" == w;
      VariableThen(vars, k, rest);
      assert v + Interpolate(vars, rest) == k + rest;
      ValueIsNoBeginning(vars, k);
      OneBeginsTheOther(v, Interpolate(vars, rest), k, rest);
      GrowsForEver(vars, k);
    }
  }

  lemma OneBeginsTheOther(a: string, x: string, b: string, y: string)
    requires a + x == b + y
    ensures a <= b || b <= a
  {
    var n := if |a| <= |b| then |a| else |b|;
    assert (a + x)[..n] == a[..n] && (b + y)[..n] == b[..n];
  }

  /** The value of an active variable does not go on from the variable itself. */
  lemma GrowsForEver(vars: Variables, k: string)
    requires AllStable(vars) && Found(vars, k)
    ensures !(k <= vars[k])
  {
    var v := vars[k];
    if k <= v {
      var more := v[|k|..];
      assert v == k + more;
      VariableThen(vars, k, more);
      VariableThen(vars, k, "");
      assert k + "" == k && v + "" == v && Stable(vars, k);
      assert v + Interpolate(vars, more) == v;
      assert |Interpolate(vars, more)| == 0;
      forall j | j in vars && Found(vars, j)
        ensures vars[j] != ""
      {
        ValueIsNoBeginning(vars, j);
      }
      SomethingStays(vars, more);
    }
  }

  lemma PutOutIsQuiet(vars: Variables, s: string, t: string, k: string)
    requires AllStable(vars) && PutsOut(vars, s, t) && Found(vars, k)
    ensures Quiet(vars, t)
  {
    if !Quiet(vars, t) {
      var p, w := FirstTrouble(vars, t);
      NothingUnfinishedPutOut(vars, s, t, p, w, k);
      NoActivePutOut(vars, s, t, p, w);
    }
  }

  /** Interpolating a second time changes no text exactly if every value that can be put in is quiet, also after a `$`. */
  lemma StableIffHarmless(vars: Variables)
    ensures AllStable(vars) <==> Harmless(vars)
  {
    if Harmless(vars) {
      forall s: string
        ensures Stable(vars, s)
      {
        HarmlessIsStable(vars, s);
      }
    }
    if AllStable(vars) {
      forall k | k in vars && Found(vars, k)
        ensures Quiet(vars, vars[k]) && Quiet(vars, "$" + vars[k])
      {
        ValuePutOut(vars, k);
        PutOutIsQuiet(vars, k, vars[k], k);
        PutOutIsQuiet(vars, "$" + k, "$" + vars[k], k);
      }
    }
  }

  // ---------------------------------------------------------------- inert values

  lemma {:induction false} NoDollarIsQuiet(vars: Variables, t: string)
    requires '$' !in t
    ensures Quiet(vars, t)
  {
    if t != "" {
      assert t[0] in t;
      NoDollarIsQuiet(vars, t[1..]);
    }
  }

  /** Values that are not empty, do not start with a brace and contain no `$` are harmless. */
  lemma InertIsHarmless(vars: Variables)
    requires AllInert(vars)
    ensures Harmless(vars)
  {
    forall k | k in vars && Found(vars, k)
      ensures Quiet(vars, vars[k]) && Quiet(vars, "$" + vars[k])
    {
      NoDollarIsQuiet(vars, vars[k]);
      assert ("$" + vars[k])[1..] == vars[k];
    }
  }

  /** With inert values, interpolating a second time changes nothing. */
  lemma InterpolateTwice(vars: Variables, s: string)
    requires AllInert(vars)
    ensures Interpolate(vars, Interpolate(vars, s)) == Interpolate(vars, s)
  {
    InertIsHarmless(vars);
    HarmlessIsStable(vars, s);
  }

  lemma NoDollarKept(vars: Variables, s: string)
    requires '$' !in s
    ensures Interpolate(vars, s) == s
  {
    PlainTextKept(vars, s, "");
    assert s + "" == s;
  }

  function Ref(name: string): string {
    "${" + name + "}"
  }

  ghost predicate PlainName(name: string) {
    name != "" && '\n' !in name && '}' !in name
  }

  lemma RefThenText(vars: Variables, name: string, after: string)
    requires PlainName(name) && Ref(name) in vars && '$' !in after
    ensures Interpolate(vars, Ref(name) + after) == vars[Ref(name)] + after
  {
    ReferenceReplaced(vars, name, after);
    NoDollarKept(vars, after);
  }

  lemma RefAlone(vars: Variables, name: string)
    requires PlainName(name) && Ref(name) in vars
    ensures Interpolate(vars, Ref(name)) == vars[Ref(name)]
  {
    RefThenText(vars, name, "");
    assert Ref(name) + "" == Ref(name) && vars[Ref(name)] + "" == vars[Ref(name)];
  }

  /** The whole of it on one declared input and one field: the field has the value of the input. */
  lemma OneInput(name: string, kind: string, value: string, key: string)
    requires PlainName(name) && key != "__inputs"
    ensures var declaration := JObject(map["name" := JString(name), "type" := JString(kind)]);
            var template := JObject(map["__inputs" := JArray([declaration]), key := JString("${" + name + "}")]);
            EvalOutcome(template, [Input(kind, name, value)]) == Ok(JObject(map[key := JString(value)]))
  {
    var declaration := JObject(map["name" := JString(name), "type" := JString(kind)]);
    var template := JObject(map["__inputs" := JArray([declaration]), key := JString("${" + name + "}")]);
    var inputs := [Input(kind, name, value)];
    assert DeclaredInputs(template) == [declaration];
    assert StringOf(declaration, "name") == name && StringOf(declaration, "type") == kind;
    assert InputFor(inputs, name, kind) == Some(inputs[0]);
    assert Supplied(inputs, declaration);
    assert [declaration][..0] == [];
    assert Bindings(inputs, []) == map[];
    var vars := Bindings(inputs, [declaration]);
    assert vars == map[]["${" + name + "}" := value];
    assert vars == map["${" + name + "}" := value];
    RefAlone(vars, name);
    assert Evaluated(vars, template).fields == map[key := JString(value)];
  }

  /**
   * Values that are empty, start with `{` or contain a `$` can do otherwise: where the value of x and the text around
   * it spell a reference to y, as in `$${x}{y}` with an empty value, the second pass replaces that too.
   */
  lemma SecondPassReplacesMore(vars: Variables, before: string, x: string, after: string, y: string)
    requires (before == "" || before == "$") && '$' !in after
    requires PlainName(x) && Ref(x) in vars && PlainName(y) && Ref(y) in vars
    requires before + vars[Ref(x)] + after == Ref(y)
    ensures Interpolate(vars, before + (Ref(x) + after)) == Ref(y)
    ensures Interpolate(vars, Ref(y)) == vars[Ref(y)]
  {
    RefThenText(vars, x, after);
    DollarBeforeDollar(vars, before, Ref(x) + after);
    Associative(before, vars[Ref(x)], after);
    RefAlone(vars, y);
  }

  lemma {:induction false} HarmlessIsStableTree(vars: Variables, j: Json)
    requires Harmless(vars)
    ensures Evaluated(vars, Evaluated(vars, j)) == Evaluated(vars, j)
  {
    match j
    case JString(s) =>
      HarmlessIsStable(vars, s);
    case JArray(items) =>
      forall i | 0 <= i < |items|
        ensures Evaluated(vars, Evaluated(vars, items[i])) == Evaluated(vars, items[i])
      {
        HarmlessIsStableTree(vars, items[i]);
      }
      assert Evaluated(vars, Evaluated(vars, j)).items == Evaluated(vars, j).items;
    case JObject(fields) =>
      forall k | k in fields
        ensures Evaluated(vars, Evaluated(vars, fields[k])) == Evaluated(vars, fields[k])
      {
        HarmlessIsStableTree(vars, fields[k]);
      }
      assert Evaluated(vars, Evaluated(vars, j)).fields == Evaluated(vars, j).fields;
    case _ =>
  }

  ghost predicate StableTree(vars: Variables, j: Json) {
    Evaluated(vars, Evaluated(vars, j)) == Evaluated(vars, j)
  }

  /** Evaluating an evaluated template changes nothing, for every template, exactly if the bindings are harmless. */
  lemma EvaluateTwiceIff(vars: Variables)
    ensures (forall j: Json :: StableTree(vars, j)) <==> Harmless(vars)
  {
    if Harmless(vars) {
      forall j: Json
        ensures StableTree(vars, j)
      {
        HarmlessIsStableTree(vars, j);
      }
    }
    if forall j: Json :: StableTree(vars, j) {
      forall s: string
        ensures Stable(vars, s)
      {
        assert StableTree(vars, JString(s));
      }
      StableIffHarmless(vars);
    }
  }

  lemma EvaluateTwice(vars: Variables, j: Json)
    requires AllInert(vars)
    ensures Evaluated(vars, Evaluated(vars, j)) == Evaluated(vars, j)
  {
    InertIsHarmless(vars);
    HarmlessIsStableTree(vars, j);
  }
}
