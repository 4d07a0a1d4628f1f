/**
 * Variable expansion in configuration values (pkg/setting/expanders.go). All variables are found once;
 * then, for each one that belongs to the expander, the first copy of its text is replaced. The reference
 * is simultaneous substitution: every variable of the expander is replaced where it stands.
 */
module Expanders {
  import opened Prelude

  /** A variable found in a text: all of it, the part between `$` and `{`, and the part inside the braces. */
  datatype Match = Match(text: string, kind: string, arg: string)

  datatype Expander = Expander(name: string, isEnv: bool, expand: string -> Result<string, string>)

  // ---------------------------------------------------------------- the pattern \$(|__\w+){([^}]+)}

  predicate IsWord(c: char) {
    'a' <= c <= 'z' || 'A' <= c <= 'Z' || '0' <= c <= '9' || c == '_'
  }

  function WordRun(s: string): (n: nat)
    ensures n <= |s|
  {
    if s != "" && IsWord(s[0]) then 1 + WordRun(s[1..]) else 0
  }

  /** The place of the first closing brace, or the length if there is none. */
  function CloseAt(s: string): (n: nat)
    ensures n <= |s| && (n < |s| ==> s[n] == '}') && forall i :: 0 <= i < n ==> s[i] != '}'
  {
    if s == "" || s[0] == '}' then 0 else 1 + CloseAt(s[1..])
  }

  /** The length of the kind at the head of what follows a `$`: nothing, or two underscores and a word. */
  function KindLength(s: string): (k: Option<nat>)
    ensures k.Some? ==> k.value < |s| && s[k.value] == '{'
  {
    if s != "" && s[0] == '{' then Some(0)
    else if |s| >= 2 && s[0] == '_' && s[1] == '_' then
      var run := WordRun(s[2..]);
      if run >= 1 && 2 + run < |s| && s[2 + run] == '{' then Some(2 + run) else None
    else None
  }

  /** The variable that starts at the head of the text, if any. */
  function MatchAt(s: string): (m: Option<Match>)
    ensures m.Some? ==> 0 < |m.value.text| <= |s| && m.value.text == s[..|m.value.text|]
  {
    if s == "" || s[0] != '$' then None
    else
      match KindLength(s[1..])
      case None => None
      case Some(k) =>
        var body := s[k + 2..];
        var n := CloseAt(body);
        if n == 0 || n == |body| then None
        else Some(Match(s[..k + n + 3], s[1..k + 1], body[..n]))
  }

  /** All variables, leftmost first, without overlaps. */
  function FindAll(s: string): seq<Match> {
    if s == "" then []
    else match MatchAt(s)
         case Some(m) => [m] + FindAll(s[|m.text|..])
         case None => FindAll(s[1..])
  }

  // ---------------------------------------------------------------- the pattern, declaratively

  predicate ValidKind(k: string) {
    k == "" || (|k| >= 3 && k[0] == '_' && k[1] == '_' && forall i :: 2 <= i < |k| ==> IsWord(k[i]))
  }

  predicate ValidArg(a: string) {
    a != "" && forall i :: 0 <= i < |a| ==> a[i] != '}'
  }

  function Variable(kind: string, arg: string): string {
    "$" + kind + "{" + arg + "}"
  }

  lemma {:induction false} WordRunExact(w: string, rest: string)
    requires forall i :: 0 <= i < |w| ==> IsWord(w[i])
    requires rest == "" || !IsWord(rest[0])
    ensures WordRun(w + rest) == |w|
  {
    if w == "" {
      assert w + rest == rest;
    } else {
      assert (w + rest)[1..] == w[1..] + rest;
      WordRunExact(w[1..], rest);
    }
  }

  lemma {:induction false} WordRunWords(s: string)
    ensures forall i :: 0 <= i < WordRun(s) ==> IsWord(s[i])
  {
    if s != "" && IsWord(s[0]) {
      WordRunWords(s[1..]);
      assert forall i :: 1 <= i < WordRun(s) ==> s[i] == s[1..][i - 1];
    }
  }

  /** What is found at the head of a text is a variable of the pattern. */
  lemma MatchSound(s: string)
    requires MatchAt(s).Some?
    ensures var m := MatchAt(s).value; ValidKind(m.kind) && ValidArg(m.arg) && m.text == Variable(m.kind, m.arg)
  {
    var m := MatchAt(s).value;
    var k := KindLength(s[1..]).value;
    if k > 0 {
      WordRunWords(s[1..][2..]);
      assert forall i :: 2 <= i < |m.kind| ==> m.kind[i] == s[1..][2..][i - 2];
    }
    assert s[1..][k] == s[k + 1];
    assert s[k + 2 + |m.arg|] == s[k + 2..][|m.arg|];
    assert m.text == "$" + m.kind + "{" + m.arg + "}";
  }

  lemma KindLengthExact(kind: string, rest: string)
    requires ValidKind(kind) && rest != "" && rest[0] == '{'
    ensures KindLength(kind + rest) == Some(|kind|)
  {
    var s := kind + rest;
    if kind != "" {
      assert s[2..] == kind[2..] + rest;
      WordRunExact(kind[2..], rest);
    } else {
      assert s == rest;
    }
  }

  lemma CloseAtExact(arg: string, rest: string)
    requires ValidArg(arg)
    ensures CloseAt(arg + "}" + rest) == |arg|
  {
    var body := arg + "}" + rest;
    assert body[|arg|] == '}' && forall i :: 0 <= i < |arg| ==> body[i] == arg[i];
  }

  lemma VariablePieces(kind: string, arg: string, rest: string)
    ensures var s := Variable(kind, arg) + rest;
            && |s| >= |kind| + |arg| + 3
            && s[0] == '$' && s[1..] == kind + ("{" + arg + "}" + rest) && s[|kind| + 2..] == arg + "}" + rest
            && s[1..|kind| + 1] == kind && s[..|kind| + |arg| + 3] == Variable(kind, arg)
  {
  }

  lemma MatchParts(s: string, tail: string, k: nat, body: string, n: nat)
    requires s != "" && s[0] == '$' && tail == s[1..] && KindLength(tail) == Some(k)
    requires body == s[k + 2..] && CloseAt(body) == n && 0 < n < |body|
    ensures MatchAt(s) == Some(Match(s[..k + n + 3], s[1..k + 1], body[..n]))
  {
  }

  /** Every variable of the pattern at the head of a text is found, whatever follows it. */
  lemma MatchComplete(kind: string, arg: string, rest: string)
    requires ValidKind(kind) && ValidArg(arg)
    ensures MatchAt(Variable(kind, arg) + rest) == Some(Match(Variable(kind, arg), kind, arg))
  {
    var s, tail, body := Variable(kind, arg) + rest, "{" + arg + "}" + rest, arg + "}" + rest;
    VariablePieces(kind, arg, rest);
    KindLengthExact(kind, tail);
    CloseAtExact(arg, rest);
    assert body[..|arg|] == arg;
    MatchParts(s, kind + tail, |kind|, body, |arg|);
  }

  /** A variable stays one when more text follows it. */
  lemma MatchExtends(s: string, more: string)
    requires MatchAt(s).Some?
    ensures MatchAt(s + more) == MatchAt(s)
  {
    MatchSound(s);
    var m := MatchAt(s).value;
    assert s + more == m.text + (s[|m.text|..] + more);
    MatchComplete(m.kind, m.arg, s[|m.text|..] + more);
  }

  // ---------------------------------------------------------------- replacing the first copy

  predicate OccursAt(s: string, what: string, i: nat) {
    i + |what| <= |s| && s[i..i + |what|] == what
  }

  /** The first place at or after `from` where `what` occurs. */
  function FirstOccurrence(s: string, what: string, from: nat): (r: Option<nat>)
    ensures r.Some? ==> from <= r.value && OccursAt(s, what, r.value) && forall j: nat :: from <= j < r.value ==> !OccursAt(s, what, j)
    ensures r.None? ==> forall j: nat :: from <= j ==> !OccursAt(s, what, j)
    decreases |s| - from
  {
    if from + |what| > |s| then None
    else if OccursAt(s, what, from) then Some(from)
    else FirstOccurrence(s, what, from + 1)
  }

  /** Replaces the first copy, if there is one. */
  function ReplaceFirst(s: string, what: string, updated: string): string {
    match FirstOccurrence(s, what, 0)
    case None => s
    case Some(i) => s[..i] + updated + s[i + |what|..]
  }

  predicate Owns(e: Expander, kind: string) {
    kind == "__" + e.name || (kind == "" && e.isEnv)
  }

  // ---------------------------------------------------------------- the reference

  function Then(head: string, r: Result<string, string>): Result<string, string> {
    if r.Ok? then Ok(head + r.value) else r
  }

  /** Every variable of the expander replaced where it stands, everything else kept. */
  function Substitute(e: Expander, s: string): Result<string, string> {
    if s == "" then Ok("")
    else match MatchAt(s)
         case None => Then(s[..1], Substitute(e, s[1..]))
         case Some(m) =>
           if !Owns(e, m.kind) then Then(m.text, Substitute(e, s[|m.text|..]))
           else match e.expand(m.arg)
                case Err(err) => Err(err)
                case Ok(v) => Then(v, Substitute(e, s[|m.text|..]))
  }

  /**
   * Already expanded text `done` followed by text `s` still to do: no variable the expander is going to replace
   * has a copy of its text starting inside what comes before it.
   */
  ghost predicate NoEarlierCopies(e: Expander, done: string, s: string)
    decreases |s|
  {
    if s == "" then true
    else match MatchAt(s)
         case None => NoEarlierCopies(e, done + s[..1], s[1..])
         case Some(m) =>
           if !Owns(e, m.kind) then NoEarlierCopies(e, done + m.text, s[|m.text|..])
           else match e.expand(m.arg)
                case Err(_) => true
                case Ok(v) =>
                  && (forall j: nat :: j < |done| ==> !OccursAt(done + s, m.text, j))
                  && NoEarlierCopies(e, done + v, s[|m.text|..])
  }

  // ---------------------------------------------------------------- what to know about a text

  /** Text behind a `$` with which that can start no variable, nor with what takes its place. */
  predicate Blunt(s: string) {
    s == "" || (s[0] != '{' && s[0] != '_' && MatchAt(s).None?)
  }

  /** Every `$` lies in some variable, or stands where it can start none. */
  predicate NoOpenDollar(s: string) {
    if s == "" then true
    else match MatchAt(s)
         case None => (s[0] == '$' ==> Blunt(s[1..])) && NoOpenDollar(s[1..])
         case Some(m) => NoOpenDollar(s[|m.text|..])
  }

  predicate NoInnerDollar(x: string) {
    forall i :: 1 <= i < |x| ==> x[i] != '$'
  }

  /** Every `$` starts a variable or can start none. */
  predicate DollarsStartVariables(s: string) {
    NoOpenDollar(s) && forall m :: m in FindAll(s) ==> NoInnerDollar(m.text)
  }

  /** No expansion made for one of these variables contains a `$`. */
  predicate Clean(e: Expander, ms: seq<Match>) {
    forall m :: m in ms && Owns(e, m.kind) && e.expand(m.arg).Ok? ==> '$' !in e.expand(m.arg).value
  }

  /** No expansion made for one of these variables is empty or starts with a `$`. */
  predicate Telling(e: Expander, ms: seq<Match>) {
    forall m :: m in ms && Owns(e, m.kind) && e.expand(m.arg).Ok? ==> e.expand(m.arg).value != "" && e.expand(m.arg).value[0] != '$'
  }

  /** One of the expander's own variables does not expand. */
  predicate Fails(e: Expander, ms: seq<Match>) {
    exists m :: m in ms && Owns(e, m.kind) && e.expand(m.arg).Err?
  }

  predicate EndsWith(s: string, ending: string) {
    |ending| <= |s| && s[|s| - |ending|..] == ending
  }

  /** No own variable is the ending of a foreign one before it. */
  predicate NoEndings(e: Expander, ms: seq<Match>) {
    forall i, j :: 0 <= i < j < |ms| && !Owns(e, ms[i].kind) && Owns(e, ms[j].kind) ==> !EndsWith(ms[i].text, ms[j].text)
  }

  /** No `$` is open, the values for it are clean, and no own variable is an ending. */
  predicate Fits(e: Expander, s: string) {
    NoOpenDollar(s) && Clean(e, FindAll(s)) && NoEndings(e, FindAll(s))
  }

  // ---------------------------------------------------------------- applyExpander

  lemma ThenEmpty(r: Result<string, string>)
    ensures Then("", r) == r
  {
    assert r.Ok? ==> "" + r.value == r.value;
  }

  lemma ThenThen(a: string, b: string, r: Result<string, string>)
    ensures Then(a, Then(b, r)) == Then(a + b, r)
  {
    assert r.Ok? ==> a + (b + r.value) == (a + b) + r.value;
  }

  /** The replacements the loop makes for a list of variables, on the text as it is by then. */
  function ReplaceEach(e: Expander, matches: seq<Match>, s: string): Result<string, string> {
    if matches == [] then Ok(s)
    else if !Owns(e, matches[0].kind) then ReplaceEach(e, matches[1..], s)
    else match e.expand(matches[0].arg)
         case Err(err) => Err(err)
         case Ok(v) => ReplaceEach(e, matches[1..], ReplaceFirst(s, matches[0].text, v))
  }

  /** The claim below for one split of a text. */
  ghost predicate Agrees(e: Expander, done: string, s: string) {
    ReplaceEach(e, FindAll(s), done + s) == Then(done, Substitute(e, s))
  }

  lemma AgreesPlain(e: Expander, done: string, s: string)
    requires s != "" && MatchAt(s).None?
    ensures Agrees(e, done, s) <==> Agrees(e, done + s[..1], s[1..])
  {
    assert done + s == (done + s[..1]) + s[1..];
    ThenThen(done, s[..1], Substitute(e, s[1..]));
  }

  lemma AgreesForeign(e: Expander, done: string, s: string, m: Match)
    requires MatchAt(s) == Some(m) && !Owns(e, m.kind)
    ensures Agrees(e, done, s) <==> Agrees(e, done + m.text, s[|m.text|..])
  {
    var rest := s[|m.text|..];
    assert done + s == (done + m.text) + rest by {
      assert s == m.text + rest;
    }
    OneReplacement(e, m, FindAll(rest), done + s);
    ThenThen(done, m.text, Substitute(e, rest));
  }

  lemma AgreesOwn(e: Expander, done: string, s: string, m: Match)
    requires MatchAt(s) == Some(m) && Owns(e, m.kind)
    requires e.expand(m.arg).Ok? ==> forall j: nat :: j < |done| ==> !OccursAt(done + s, m.text, j)
    ensures Agrees(e, done, s) <==> (e.expand(m.arg).Ok? ==> Agrees(e, done + e.expand(m.arg).value, s[|m.text|..]))
  {
    var rest := s[|m.text|..];
    assert s == m.text + rest;
    if e.expand(m.arg).Ok? {
      var v := e.expand(m.arg).value;
      OneReplacement(e, m, FindAll(rest), done + s);
      OwnCopyIsReplaced(done, m.text, rest, v);
      ThenThen(done, v, Substitute(e, rest));
    }
  }

  /** Where no earlier copy is in the way, replacing first copies one by one is simultaneous substitution. */
  lemma {:induction false} ReplaceEachIsSubstitution(e: Expander, done: string, s: string)
    requires NoEarlierCopies(e, done, s)
    ensures Agrees(e, done, s)
    decreases |s|
  {
    if s == "" {
      assert done + s == done && done + "" == done;
    } else {
      match MatchAt(s)
      case None =>
        ReplaceEachIsSubstitution(e, done + s[..1], s[1..]);
        AgreesPlain(e, done, s);
      case Some(m) =>
        if !Owns(e, m.kind) {
          ReplaceEachIsSubstitution(e, done + m.text, s[|m.text|..]);
          AgreesForeign(e, done, s, m);
        } else {
          if e.expand(m.arg).Ok? {
            ReplaceEachIsSubstitution(e, done + e.expand(m.arg).value, s[|m.text|..]);
          }
          AgreesOwn(e, done, s, m);
        }
    }
  }

  lemma OwnCopyIsReplaced(done: string, what: string, rest: string, updated: string)
    requires forall j: nat :: j < |done| ==> !OccursAt(done + (what + rest), what, j)
    ensures ReplaceFirst(done + (what + rest), what, updated) == (done + updated) + rest
  {
    var s := done + (what + rest);
    assert OccursAt(s, what, |done|);
    assert s[..|done|] == done && s[|done| + |what|..] == rest;
  }

  /**
   * Find once, then replace first copies one variable after another. Whether this is simultaneous substitution can be
   * read off the text: it is, exactly if one of its own variables does not expand, so that both end in the same error,
   * or no copy of a variable to be replaced stands before it.
   */
  method ApplyExpander(s: string, e: Expander) returns (r: Result<string, string>)
    ensures r == ReplaceEach(e, FindAll(s), s)
    ensures NoEarlierCopies(e, "", s) ==> r == Substitute(e, s)
    ensures Telling(e, FindAll(s)) ==> (r == Substitute(e, s) <==> Fails(e, FindAll(s)) || NoEarlierCopies(e, "", s))
    ensures Fits(e, s) ==> r == Substitute(e, s)
    ensures NoOpenDollar(s) && Clean(e, FindAll(s)) && Telling(e, FindAll(s))
            ==> (r == Substitute(e, s) <==> Fails(e, FindAll(s)) || NoEndings(e, FindAll(s)))
    ensures DollarsStartVariables(s) && Clean(e, FindAll(s)) ==> r == Substitute(e, s)
  {
    SubstitutesWhenUncopied(e, s);
    if NoOpenDollar(s) && Clean(e, FindAll(s)) {
      SubstitutesWhenNoEndings(e, s);
      if DollarsStartVariables(s) {
        NoInnerDollarNoEnding(e, s);
      }
    }
    var matches := FindAll(s);
    var text := s;
    assert matches[0..] == matches;
    for k := 0 to |matches|
      invariant ReplaceEach(e, matches, s) == ReplaceEach(e, matches[k..], text)
    {
      var m := matches[k];
      assert matches[k..][1..] == matches[k + 1..];
      if Owns(e, m.kind) {
        var updated := e.expand(m.arg);
        if updated.Err? {
          return Err(updated.error);
        }
        text := ReplaceFirst(text, m.text, updated.value);
      }
    }
    return Ok(text);
  }

  // ---------------------------------------------------------------- exactly when it substitutes

  /** What is found are variables of the pattern. */
  lemma {:induction false} AllFoundSound(s: string)
    ensures forall m :: m in FindAll(s) ==> IsVariable(m.text, m) && ValidKind(m.kind) && ValidArg(m.arg) && m.text == Variable(m.kind, m.arg)
    decreases |s|
  {
    if s != "" {
      match MatchAt(s)
      case None => AllFoundSound(s[1..]);
      case Some(m) =>
        AllFoundSound(s[|m.text|..]);
        MatchSound(s);
        MatchComplete(m.kind, m.arg, "");
        assert m.text + "" == m.text;
    }
  }

  lemma FoundFirst(s: string, m: Match)
    requires MatchAt(s) == Some(m)
    ensures FindAll(s) == [m] + FindAll(s[|m.text|..]) && s == m.text + s[|m.text|..]
  {
    var n := |m.text|;
    assert s != "" && m.text == s[..n];
    assert s == s[..n] + s[n..];
  }

  /** A variable that does not expand ends the loop and the substitution in the same error, whatever the text is by then. */
  lemma {:induction false} FailsAlike(e: Expander, s: string, text: string)
    ensures Substitute(e, s).Err? <==> Fails(e, FindAll(s))
    ensures Fails(e, FindAll(s)) ==> ReplaceEach(e, FindAll(s), text) == Substitute(e, s)
    decreases |s|
  {
    if s != "" {
      match MatchAt(s)
      case None =>
        FailsAlike(e, s[1..], text);
      case Some(m) =>
        var rest := s[|m.text|..];
        FoundFirst(s, m);
        OneReplacement(e, m, FindAll(rest), text);
        if !Owns(e, m.kind) {
          FailsAlike(e, rest, text);
        } else if e.expand(m.arg).Ok? {
          FailsAlike(e, rest, ReplaceFirst(text, m.text, e.expand(m.arg).value));
        } else {
          assert m in FindAll(s);
        }
    }
  }

  ghost predicate LostAt(expected: string, text: string, p: nat) {
    p < |expected| && p < |text| && text[..p] == expected[..p] && expected[p] == '$' && text[p] != '$'
  }

  /** A replacement after or before the place where a `$` is lost leaves the text with a lost `$`. */
  lemma ReplaceKeepsLoss(expected: string, text: string, p: nat, what: string, v: string) returns (q: nat)
    requires LostAt(expected, text, p) && what != "" && what[0] == '$' && v != "" && v[0] != '$'
    ensures LostAt(expected, ReplaceFirst(text, what, v), q)
  {
    q := p;
    var at := FirstOccurrence(text, what, 0);
    if at.Some? {
      var i := at.value;
      assert text[i..i + |what|][0] == text[i];
      if i < p {
        q := i;
        assert text[i] == text[..p][i] == expected[i];
        assert text[..i] == text[..p][..i] == expected[..i];
      }
    }
  }

  lemma {:induction false} LossIsForGood(e: Expander, ms: seq<Match>, expected: string, text: string, p: nat)
    requires LostAt(expected, text, p) && Telling(e, ms) && forall m :: m in ms ==> m.text != "" && m.text[0] == '$'
    ensures ReplaceEach(e, ms, text) != Ok(expected)
  {
    if ms != [] {
      assert ms[0] in ms && forall m :: m in ms[1..] ==> m in ms;
      if !Owns(e, ms[0].kind) {
        LossIsForGood(e, ms[1..], expected, text, p);
      } else if e.expand(ms[0].arg).Ok? {
        var v := e.expand(ms[0].arg).value;
        var q := ReplaceKeepsLoss(expected, text, p, ms[0].text, v);
        LossIsForGood(e, ms[1..], expected, ReplaceFirst(text, ms[0].text, v), q);
      }
    }
  }

  /** A copy before the variable is replaced in its stead: a `$` is lost that simultaneous substitution keeps. */
  lemma EarlierCopySpoils(e: Expander, done: string, s: string, m: Match, j: nat)
    requires MatchAt(s) == Some(m) && Owns(e, m.kind) && e.expand(m.arg).Ok? && Telling(e, FindAll(s))
    requires j < |done| && OccursAt(done + s, m.text, j) && Substitute(e, s).Ok?
    ensures !Agrees(e, done, s)
  {
    var v, ms := e.expand(m.arg).value, FindAll(s[|m.text|..]);
    var expected := Substitute(e, s).value;
    FoundFirst(s, m);
    AllFoundSound(s);
    StillTelling(e, s, m);
    assert m in FindAll(s) && forall x :: x in ms ==> x in FindAll(s);
    var i := EarlierCopyLoses(done, s, m.text, v, expected, j);
    OneReplacement(e, m, ms, done + s);
    LossIsForGood(e, ms, done + expected, ReplaceFirst(done + s, m.text, v), i);
  }

  lemma EarlierCopyLoses(done: string, s: string, what: string, v: string, expected: string, j: nat) returns (i: nat)
    requires what != "" && what[0] == '$' && v != "" && v[0] != '$' && j < |done| && OccursAt(done + s, what, j)
    ensures LostAt(done + expected, ReplaceFirst(done + s, what, v), i)
  {
    var all := done + s;
    i := FirstOccurrence(all, what, 0).value;
    assert i <= j;
    assert all[i..i + |what|][0] == all[i] == done[i];
    assert all[..i] == done[..i] == (done + expected)[..i];
  }

  lemma StillTelling(e: Expander, s: string, m: Match)
    requires MatchAt(s) == Some(m)
    ensures Telling(e, FindAll(s)) ==> Telling(e, FindAll(s[|m.text|..]))
    ensures Clean(e, FindAll(s)) ==> Clean(e, FindAll(s[|m.text|..]))
    ensures Fails(e, FindAll(s[|m.text|..])) ==> Fails(e, FindAll(s))
  {
    FoundFirst(s, m);
    assert forall x :: x in FindAll(s[|m.text|..]) ==> x in FindAll(s);
  }

  /** If a copy does stand before a variable to be replaced, and all own variables expand, the result is another. */
  lemma {:induction false} CopiesSpoil(e: Expander, done: string, s: string)
    requires Telling(e, FindAll(s)) && !Fails(e, FindAll(s)) && !NoEarlierCopies(e, done, s)
    ensures !Agrees(e, done, s)
    decreases |s|
  {
    match MatchAt(s)
    case None =>
      CopiesSpoil(e, done + s[..1], s[1..]);
      AgreesPlain(e, done, s);
    case Some(m) =>
      StillTelling(e, s, m);
      if !Owns(e, m.kind) {
        CopiesSpoil(e, done + m.text, s[|m.text|..]);
        AgreesForeign(e, done, s, m);
      } else {
        FoundFirst(s, m);
        assert m in FindAll(s);
        if j: nat :| j < |done| && OccursAt(done + s, m.text, j) {
          FailsAlike(e, s, s);
          EarlierCopySpoils(e, done, s, m, j);
        } else {
          CopiesSpoil(e, done + e.expand(m.arg).value, s[|m.text|..]);
          AgreesOwn(e, done, s, m);
        }
      }
  }

  /** With telling values, the loop substitutes exactly if it fails or no copy stands before a variable to be replaced. */
  lemma SubstitutesWhenUncopied(e: Expander, s: string)
    ensures NoEarlierCopies(e, "", s) ==> ReplaceEach(e, FindAll(s), s) == Substitute(e, s)
    ensures Telling(e, FindAll(s))
            ==> (ReplaceEach(e, FindAll(s), s) == Substitute(e, s) <==> Fails(e, FindAll(s)) || NoEarlierCopies(e, "", s))
  {
    assert "" + s == s;
    ThenEmpty(Substitute(e, s));
    FailsAlike(e, s, s);
    if NoEarlierCopies(e, "", s) {
      ReplaceEachIsSubstitution(e, "", s);
    } else if Telling(e, FindAll(s)) && !Fails(e, FindAll(s)) {
      CopiesSpoil(e, "", s);
    }
  }

  // ---------------------------------------------------------------- copies are endings

  /** From place `j` on the text goes on like the variable from its place `o` on. */
  ghost predicate GoesOn(done: string, j: int, f: Match, o: int) {
    0 <= j <= |done| && 0 <= o < |f.text| && f.text[o..] <= done[j..]
  }

  ghost predicate Covered(done: string, j: int, seen: seq<Match>) {
    exists k, o :: 0 <= k < |seen| && GoesOn(done, j, seen[k], o)
  }

  ghost predicate Present(done: string, f: Match) {
    exists i: nat :: OccursAt(done, f.text, i)
  }

  /** The `$` at place `j` starts no variable, and if it is the last character the text `s` behind it is blunt. */
  ghost predicate Harmless(done: string, j: int, s: string)
    requires 0 <= j < |done|
  {
    if j + 1 < |done| then done[j + 1] != '{' && done[j + 1] != '_' else Blunt(s)
  }

  /**
   * Finished text with the text `s` behind it: a `$` is harmless or one of the foreign variables seen so far, and these
   * are all there.
   */
  ghost predicate Accounted(e: Expander, done: string, seen: seq<Match>, s: string) {
    && (forall j :: 0 <= j < |done| && done[j] == '$' ==> Covered(done, j, seen) || Harmless(done, j, s))
    && (forall k :: 0 <= k < |seen| ==> Present(done, seen[k]) && BraceLast(seen[k].text) && !Owns(e, seen[k].kind))
  }

  /** The only closing brace is the last character. */
  ghost predicate BraceLast(x: string) {
    x != "" && x[|x| - 1] == '}' && forall i :: 0 <= i < |x| - 1 ==> x[i] != '}'
  }

  lemma VariableBraceLast(kind: string, arg: string)
    requires ValidKind(kind) && ValidArg(arg)
    ensures BraceLast(Variable(kind, arg))
  {
    var x := Variable(kind, arg);
    assert forall i :: 0 <= i < |kind| ==> x[1 + i] == kind[i] && kind[i] != '}';
    assert forall i :: 0 <= i < |arg| ==> x[2 + |kind| + i] == arg[i];
  }

  /** Two beginnings of one text that both have their only closing brace at the end are the same. */
  lemma SameBrace(a: string, b: string, s: string)
    requires BraceLast(a) && BraceLast(b) && a <= s && b <= s
    ensures a == b
  {
    var n := if |a| <= |b| then |a| else |b|;
    assert a[n - 1] == s[n - 1] == b[n - 1];
  }

  lemma CoveredGrows(done: string, j: int, seen: seq<Match>, text: string, more: seq<Match>)
    requires Covered(done, j, seen)
    ensures Covered(done + text, j, seen + more)
  {
    var k, o :| 0 <= k < |seen| && GoesOn(done, j, seen[k], o);
    assert (done + text)[j..] == done[j..] + text;
    assert GoesOn(done + text, j, (seen + more)[k], o);
  }

  lemma PresentGrows(done: string, f: Match, text: string)
    requires Present(done, f)
    ensures Present(done + text, f)
  {
    var i: nat :| OccursAt(done, f.text, i);
    assert (done + text)[i..i + |f.text|] == done[i..i + |f.text|];
    assert OccursAt(done + text, f.text, i);
  }

  lemma AllPresentGrows(e: Expander, done: string, seen: seq<Match>, text: string)
    requires forall k :: 0 <= k < |seen| ==> Present(done, seen[k])
    ensures forall k :: 0 <= k < |seen| ==> Present(done + text, seen[k])
  {
    forall k | 0 <= k < |seen|
      ensures Present(done + text, seen[k])
    {
      PresentGrows(done, seen[k], text);
    }
  }

  /** One character that starts no variable. */
  lemma AccountedCharacter(e: Expander, done: string, seen: seq<Match>, s: string)
    requires s != "" && MatchAt(s).None? && (s[0] == '$' ==> Blunt(s[1..])) && Accounted(e, done, seen, s)
    ensures Accounted(e, done + s[..1], seen, s[1..])
  {
    assert seen + [] == seen;
    AllPresentGrows(e, done, seen, s[..1]);
    forall j | 0 <= j < |done + s[..1]| && (done + s[..1])[j] == '$'
      ensures Covered(done + s[..1], j, seen) || Harmless(done + s[..1], j, s[1..])
    {
      if j < |done| && Covered(done, j, seen) {
        CoveredGrows(done, j, seen, s[..1], []);
      }
    }
  }

  /** A value without a `$` in place of a variable. */
  lemma AccountedValue(e: Expander, done: string, seen: seq<Match>, s: string, v: string, rest: string)
    requires s != "" && MatchAt(s).Some? && '$' !in v && Accounted(e, done, seen, s)
    ensures Accounted(e, done + v, seen, rest)
  {
    assert seen + [] == seen;
    AllPresentGrows(e, done, seen, v);
    assert forall j :: |done| <= j < |done + v| ==> (done + v)[j] in v;
    forall j | 0 <= j < |done + v| && (done + v)[j] == '$'
      ensures Covered(done + v, j, seen) || Harmless(done + v, j, rest)
    {
      if Covered(done, j, seen) {
        CoveredGrows(done, j, seen, v, []);
      }
    }
  }

  lemma AccountedForeign(e: Expander, done: string, seen: seq<Match>, s: string, f: Match, rest: string)
    requires s != "" && MatchAt(s) == Some(f) && Accounted(e, done, seen, s) && BraceLast(f.text) && !Owns(e, f.kind)
    ensures Accounted(e, done + f.text, seen + [f], rest)
  {
    var longer, more := done + f.text, seen + [f];
    forall j | 0 <= j < |longer| && longer[j] == '$'
      ensures Covered(longer, j, more) || Harmless(longer, j, rest)
    {
      if j >= |done| {
        assert longer[j..] == f.text[j - |done|..];
        assert GoesOn(longer, j, more[|seen|], j - |done|);
      } else if Covered(done, j, seen) {
        CoveredGrows(done, j, seen, f.text, [f]);
      }
    }
    AllPresentGrows(e, done, seen, f.text);
    assert longer[|done|..|done| + |f.text|] == f.text;
    assert OccursAt(longer, f.text, |done|);
  }

  ghost predicate EndsSome(seen: seq<Match>, m: Match) {
    exists k :: 0 <= k < |seen| && EndsWith(seen[k].text, m.text)
  }

  lemma CopyIsEnding(e: Expander, done: string, seen: seq<Match>, s: string, m: Match, j: nat)
    requires Accounted(e, done, seen, s) && MatchAt(s) == Some(m) && Sharp(m.text) && m.text <= s
    requires j < |done| && OccursAt(done + s, m.text, j)
    ensures EndsSome(seen, m)
  {
    var all := done + s;
    assert all[j..j + |m.text|][0] == all[j] == done[j] && all[j..j + |m.text|][1] == all[j + 1];
    assert !Harmless(done, j, s);
    CoveredCopyIsEnding(done, seen, s, m, j);
  }

  lemma CoveredCopyIsEnding(done: string, seen: seq<Match>, s: string, m: Match, j: nat)
    requires j < |done| && OccursAt(done + s, m.text, j) && Covered(done, j, seen) && BraceLast(m.text)
    requires forall k :: 0 <= k < |seen| ==> BraceLast(seen[k].text)
    ensures EndsSome(seen, m)
  {
    var all := done + s;
    var k, o :| 0 <= k < |seen| && GoesOn(done, j, seen[k], o);
    var f := seen[k].text[o..];
    assert all[j..] == done[j..] + s && all[j..][..|m.text|] == m.text;
    assert BraceLast(f) by {
      assert forall i :: 0 <= i < |f| ==> f[i] == seen[k].text[o + i];
    }
    SameBrace(f, m.text, all[j..]);
    assert EndsWith(seen[k].text, m.text);
  }

  /** A variable from end to end: a `$`, a brace or an underscore, and the only closing brace at the end. */
  ghost predicate Sharp(x: string) {
    BraceLast(x) && |x| >= 2 && x[0] == '$' && (x[1] == '{' || x[1] == '_')
  }

  lemma EndingIsCopy(e: Expander, done: string, seen: seq<Match>, s: string, m: Match) returns (j: nat)
    requires Accounted(e, done, seen, s) && EndsSome(seen, m) && m.text != ""
    ensures j < |done| && OccursAt(done + s, m.text, j)
  {
    var k :| 0 <= k < |seen| && EndsWith(seen[k].text, m.text);
    var f := seen[k].text;
    assert Present(done, seen[k]);
    var i: nat :| OccursAt(done, f, i);
    j := i + |f| - |m.text|;
    EndingOccurs(done, f, m.text, s, i);
  }

  lemma EndingOccurs(done: string, x: string, ending: string, s: string, i: nat)
    requires OccursAt(done, x, i) && EndsWith(x, ending)
    ensures OccursAt(done + s, ending, i + |x| - |ending|)
  {
    var j := i + |x| - |ending|;
    assert done[i..i + |x|][|x| - |ending|..] == done[j..j + |ending|];
    assert (done + s)[j..j + |ending|] == done[j..j + |ending|];
  }

  lemma NoEndingsOwn(e: Expander, seen: seq<Match>, m: Match, ms: seq<Match>)
    requires Owns(e, m.kind) && forall k :: 0 <= k < |seen| ==> !Owns(e, seen[k].kind)
    ensures NoEndings(e, seen + ([m] + ms)) <==> !EndsSome(seen, m) && NoEndings(e, seen + ms)
  {
    var long, short := seen + ([m] + ms), seen + ms;
    var n := |seen|;
    assert forall i :: 0 <= i < n ==> long[i] == short[i] == seen[i];
    assert forall i :: n <= i < |short| ==> long[i + 1] == short[i];
    assert long[n] == m;
    if NoEndings(e, long) {
      forall i, j | 0 <= i < j < |short| && !Owns(e, short[i].kind) && Owns(e, short[j].kind)
        ensures !EndsWith(short[i].text, short[j].text)
      {
        var i', j' := if i < n then i else i + 1, if j < n then j else j + 1;
        assert long[i'] == short[i] && long[j'] == short[j];
      }
    }
    if !EndsSome(seen, m) && NoEndings(e, short) {
      forall i, j | 0 <= i < j < |long| && !Owns(e, long[i].kind) && Owns(e, long[j].kind)
        ensures !EndsWith(long[i].text, long[j].text)
      {
        if j != n {
          var i', j' := if i < n then i else i - 1, if j < n then j else j - 1;
          assert long[i] == short[i'] && long[j] == short[j'];
        }
      }
    }
  }

  ghost predicate Corresponds(e: Expander, done: string, seen: seq<Match>, s: string) {
    NoEarlierCopies(e, done, s) <==> NoEndings(e, seen + FindAll(s))
  }

  /** In a text without open `$`, copies before a variable are endings of foreign variables before it. */
  lemma {:induction false} CopiesAreEndings(e: Expander, done: string, seen: seq<Match>, s: string)
    requires NoOpenDollar(s) && Clean(e, FindAll(s)) && !Fails(e, FindAll(s)) && Accounted(e, done, seen, s)
    ensures Corresponds(e, done, seen, s)
    decreases |s|
  {
    if s == "" {
      assert seen + FindAll(s) == seen;
    } else {
      match MatchAt(s)
      case None =>
        AccountedCharacter(e, done, seen, s);
        CopiesAreEndings(e, done + s[..1], seen, s[1..]);
      case Some(m) =>
        FirstSound(s, m);
        StillTelling(e, s, m);
        if Owns(e, m.kind) {
          FirstExpands(e, s, m);
          AccountedValue(e, done, seen, s, e.expand(m.arg).value, s[|m.text|..]);
          CopiesAreEndings(e, done + e.expand(m.arg).value, seen, s[|m.text|..]);
          CorrespondsOwn(e, done, seen, s, m);
        } else {
          AccountedForeign(e, done, seen, s, m, s[|m.text|..]);
          CopiesAreEndings(e, done + m.text, seen + [m], s[|m.text|..]);
          CorrespondsForeign(e, done, seen, s, m);
        }
    }
  }

  lemma CorrespondsForeign(e: Expander, done: string, seen: seq<Match>, s: string, m: Match)
    requires MatchAt(s) == Some(m) && !Owns(e, m.kind) && Corresponds(e, done + m.text, seen + [m], s[|m.text|..])
    ensures Corresponds(e, done, seen, s)
  {
    var ms := FindAll(s[|m.text|..]);
    assert (seen + [m]) + ms == seen + ([m] + ms);
  }

  lemma CorrespondsOwn(e: Expander, done: string, seen: seq<Match>, s: string, m: Match)
    requires MatchAt(s) == Some(m) && Owns(e, m.kind) && e.expand(m.arg).Ok? && Accounted(e, done, seen, s)
    requires Corresponds(e, done + e.expand(m.arg).value, seen, s[|m.text|..])
    ensures Corresponds(e, done, seen, s)
  {
    FirstSound(s, m);
    OwnCopiesAreEndings(e, done, seen, s, m, FindAll(s[|m.text|..]));
  }

  lemma FirstSound(s: string, m: Match)
    requires MatchAt(s) == Some(m)
    ensures Sharp(m.text) && m.text <= s && FindAll(s) == [m] + FindAll(s[|m.text|..])
  {
    MatchSound(s);
    VariableBraceLast(m.kind, m.arg);
    FoundFirst(s, m);
  }

  lemma FirstExpands(e: Expander, s: string, m: Match)
    requires MatchAt(s) == Some(m) && Clean(e, FindAll(s)) && !Fails(e, FindAll(s)) && Owns(e, m.kind)
    ensures e.expand(m.arg).Ok? && '$' !in e.expand(m.arg).value
  {
    FoundFirst(s, m);
    assert m in FindAll(s);
  }

  /** At an own variable: a copy before it is an ending of one seen, and the rest is settled. */
  lemma OwnCopiesAreEndings(e: Expander, done: string, seen: seq<Match>, s: string, m: Match, ms: seq<Match>)
    requires Accounted(e, done, seen, s) && MatchAt(s) == Some(m) && Owns(e, m.kind) && Sharp(m.text) && m.text <= s
    ensures (forall j: nat :: j < |done| ==> !OccursAt(done + s, m.text, j)) && NoEndings(e, seen + ms)
       <==> NoEndings(e, seen + ([m] + ms))
  {
    NoEndingsOwn(e, seen, m, ms);
    if EndsSome(seen, m) {
      var _ := EndingIsCopy(e, done, seen, s, m);
    }
    forall j: nat | j < |done| && OccursAt(done + s, m.text, j)
      ensures EndsSome(seen, m)
    {
      CopyIsEnding(e, done, seen, s, m, j);
    }
  }

  /**
   * The exact condition on a text without open `$`, when no value contains a `$`: no own variable is the
   * ending of a foreign one before it. Values that are not empty make it necessary.
   */
  lemma SubstitutesWhenNoEndings(e: Expander, s: string)
    requires NoOpenDollar(s) && Clean(e, FindAll(s))
    ensures NoEndings(e, FindAll(s)) ==> ReplaceEach(e, FindAll(s), s) == Substitute(e, s)
    ensures Telling(e, FindAll(s))
            ==> (ReplaceEach(e, FindAll(s), s) == Substitute(e, s) <==> Fails(e, FindAll(s)) || NoEndings(e, FindAll(s)))
  {
    SubstitutesWhenUncopied(e, s);
    if Fails(e, FindAll(s)) {
      FailsAlike(e, s, s);
    } else {
      CopiesAreEndings(e, "", [], s);
      assert [] + FindAll(s) == FindAll(s);
    }
  }

  /** A variable without a `$` inside ends in no other variable. */
  lemma NoInnerDollarNoEnding(e: Expander, s: string)
    requires DollarsStartVariables(s)
    ensures NoEndings(e, FindAll(s))
  {
    var ms := FindAll(s);
    AllFoundSound(s);
    forall i, j | 0 <= i < j < |ms| && !Owns(e, ms[i].kind) && Owns(e, ms[j].kind)
      ensures !EndsWith(ms[i].text, ms[j].text)
    {
      var f, m := ms[i], ms[j];
      assert f in ms && m in ms;
      if EndsWith(f.text, m.text) {
        EndingIsWhole(f.text, m.text);
      }
    }
  }

  lemma EndingIsWhole(x: string, ending: string)
    requires EndsWith(x, ending) && NoInnerDollar(x) && ending != "" && ending[0] == '$'
    ensures x == ending
  {
    assert x[|x| - |ending|..][0] == x[|x| - |ending|];
  }

  // ---------------------------------------------------------------- both conditions are needed

  /** `x` is a variable from end to end. */
  predicate IsVariable(x: string, m: Match) {
    MatchAt(x) == Some(m) && m.text == x
  }

  lemma VariableFirst(e: Expander, x: string, m: Match, rest: string)
    requires IsVariable(x, m)
    ensures FindAll(x + rest) == [m] + FindAll(rest)
    ensures Owns(e, m.kind) && e.expand(m.arg).Ok? ==> Substitute(e, x + rest) == Then(e.expand(m.arg).value, Substitute(e, rest))
    ensures !Owns(e, m.kind) ==> Substitute(e, x + rest) == Then(x, Substitute(e, rest))
  {
    MatchExtends(x, rest);
    assert (x + rest)[|x|..] == rest;
  }

  lemma VariableAlone(e: Expander, y: string, m: Match)
    requires IsVariable(y, m) && Owns(e, m.kind) && e.expand(m.arg).Ok?
    ensures FindAll(y) == [m] && Substitute(e, y) == e.expand(m.arg)
  {
    VariableFirst(e, y, m, "");
    assert y + "" == y;
    assert e.expand(m.arg).value + "" == e.expand(m.arg).value;
  }

  lemma OneReplacement(e: Expander, m: Match, rest: seq<Match>, s: string)
    ensures Owns(e, m.kind) && e.expand(m.arg).Ok?
            ==> ReplaceEach(e, [m] + rest, s) == ReplaceEach(e, rest, ReplaceFirst(s, m.text, e.expand(m.arg).value))
    ensures !Owns(e, m.kind) ==> ReplaceEach(e, [m] + rest, s) == ReplaceEach(e, rest, s)
  {
    assert ([m] + rest)[1..] == rest;
  }

  lemma LastReplacement(e: Expander, m: Match, s: string)
    requires Owns(e, m.kind) && e.expand(m.arg).Ok?
    ensures ReplaceEach(e, [m], s) == Ok(ReplaceFirst(s, m.text, e.expand(m.arg).value))
  {
    assert [m] + [] == [m];
    OneReplacement(e, m, [], s);
  }

  lemma FirstIsReplaced(x: string, y: string, updated: string)
    ensures ReplaceFirst(x + y, x, updated) == updated + y
  {
    OwnCopyIsReplaced("", x, y, updated);
    assert "" + (x + y) == x + y && ("" + updated) + y == updated + y;
  }

  /** A variable `x` that expands to the variable `y`, followed by `y`: the new copy is expanded, the old one stays. */
  lemma ExpansionIsExpandedAgain(e: Expander, x: string, mx: Match, y: string, my: Match, v: string)
    requires IsVariable(x, mx) && IsVariable(y, my) && Owns(e, mx.kind) && Owns(e, my.kind)
    requires e.expand(mx.arg) == Ok(y) && e.expand(my.arg) == Ok(v)
    ensures ReplaceEach(e, FindAll(x + y), x + y) == Ok(v + y) && Substitute(e, x + y) == Ok(y + v)
  {
    VariableAlone(e, y, my);
    assert Substitute(e, x + y) == Ok(y + v) && FindAll(x + y) == [mx] + [my] by {
      VariableFirst(e, x, mx, y);
    }
    assert ReplaceEach(e, [mx] + [my], x + y) == ReplaceEach(e, [my], y + y) by {
      OneReplacement(e, mx, [my], x + y);
      FirstIsReplaced(x, y, y);
    }
    assert ReplaceEach(e, [my], y + y) == Ok(v + y) by {
      LastReplacement(e, my, y + y);
      FirstIsReplaced(y, y, v);
    }
  }

  /** A foreign variable `x` that ends in the text of `y`, followed by `y`: the inner copy is replaced. */
  lemma InnerCopyIsReplaced(e: Expander, head: string, x: string, mx: Match, y: string, my: Match, v: string)
    requires IsVariable(x, mx) && IsVariable(y, my) && !Owns(e, mx.kind) && Owns(e, my.kind)
    requires e.expand(my.arg) == Ok(v) && x + y == head + (y + y)
    requires forall j: nat :: j < |head| ==> !OccursAt(head + (y + y), y, j)
    ensures ReplaceEach(e, FindAll(x + y), x + y) == Ok((head + v) + y) && Substitute(e, x + y) == Ok(x + v)
  {
    VariableAlone(e, y, my);
    assert Substitute(e, x + y) == Ok(x + v) && FindAll(x + y) == [mx] + [my] by {
      VariableFirst(e, x, mx, y);
    }
    assert ReplaceEach(e, [mx] + [my], x + y) == Ok((head + v) + y) by {
      OneReplacement(e, mx, [my], x + y);
      LastReplacement(e, my, x + y);
      OwnCopyIsReplaced(head, y, y, v);
    }
  }

  lemma WholeVariable(kind: string, arg: string) returns (x: string, m: Match)
    requires ValidKind(kind) && ValidArg(arg)
    ensures x == Variable(kind, arg) && m == Match(x, kind, arg) && IsVariable(x, m)
  {
    x := Variable(kind, arg);
    m := Match(x, kind, arg);
    MatchComplete(kind, arg, "");
    assert x + "" == x;
  }

  /** Every `$` starting a variable is not enough: `${a}${b}`, with `${b}` the value of a. */
  lemma ExpansionWithVariable() returns (e: Expander, x: string, y: string)
    ensures x == Variable("", "a") && y == Variable("", "b") && e.expand("a") == Ok(y)
    ensures ReplaceEach(e, FindAll(x + y), x + y) == Ok("B" + y) && Substitute(e, x + y) == Ok(y + "B")
  {
    var mx, my;
    x, mx := WholeVariable("", "a");
    y, my := WholeVariable("", "b");
    e := Expander("env", true, a => if a == "a" then Ok(y) else Ok("B"));
    assert e.expand("b") == Ok("B") by {
      assert "a"[0] != "b"[0];
    }
    assert y[0] == '$' && e.expand("a") == Ok(y);
    ExpansionIsExpandedAgain(e, x, mx, y, my, "B");
  }

  lemma OccurrenceBegins(s: string, what: string, i: nat)
    requires OccursAt(s, what, i) && |what| >= 2
    ensures s[i] == what[0] && s[i + 1] == what[1]
  {
    assert s[i..i + |what|][0] == s[i] && s[i..i + |what|][1] == s[i + 1];
  }

  lemma NoCopyInHead(kind: string, y: string, rest: string)
    requires ValidKind(kind) && kind != "" && |y| >= 2 && y[0] == '$' && y[1] == '{'
    ensures forall j: nat :: j < |kind| + 2 ==> !OccursAt("$" + kind + "{" + rest, y, j)
  {
    var all := "$" + kind + "{" + rest;
    forall j: nat | j < |kind| + 2
      ensures !OccursAt(all, y, j)
    {
      assert all[j] == if j == 0 then '$' else if j <= |kind| then kind[j - 1] else '{';
      assert all[1] == kind[0];
      if OccursAt(all, y, j) {
        OccurrenceBegins(all, y, j);
      }
    }
  }

  lemma NestedText(kind: string, arg: string)
    ensures Variable(kind, Variable("", arg)[..|arg| + 2]) == "$" + kind + "{" + Variable("", arg)
    ensures Variable("", arg)[..|arg| + 2] == "${" + arg && Variable("", arg)[0] == '$' && Variable("", arg)[1] == '{'
  {
  }

  lemma Associative(a: string, b: string, c: string)
    ensures (a + b) + c == a + (b + c)
  {
  }

  /**
   * Values without `$` are not enough: in `$__f{${b}${b}` the environment does not own the first variable, yet the
   * copy of its own variable in there is what it replaces.
   */
  lemma VariableInsideVariable(e: Expander, kind: string, arg: string, v: string) returns (s: string)
    requires ValidKind(kind) && kind != "" && !Owns(e, kind) && ValidArg(arg) && e.isEnv && e.expand(arg) == Ok(v)
    ensures s == Variable(kind, "${" + arg) + Variable("", arg)
    ensures ReplaceEach(e, FindAll(s), s) == Ok("$" + kind + "{" + v + Variable("", arg))
    ensures Substitute(e, s) == Ok("$" + kind + "{" + Variable("", arg) + v)
  {
    var own := "";
    var x, mx := WholeVariable(kind, "${" + arg);
    var y, my := WholeVariable(own, arg);
    var head := "$" + kind + "{";
    NestedText(kind, arg);
    s := x + y;
    Associative(head, y, y);
    NoCopyInHead(kind, y, y + y);
    InnerCopyIsReplaced(e, head, x, mx, y, my, v);
  }

  // ---------------------------------------------------------------- several expanders

  /** The first expander in line for a kind of variable. */
  function Owner(es: seq<Expander>, kind: string): Option<Expander> {
    if es == [] then None else if Owns(es[0], kind) then Some(es[0]) else Owner(es[1..], kind)
  }

  /** One simultaneous pass in which every variable goes to the first expander that owns it. */
  function SubstituteAll(es: seq<Expander>, s: string): Result<string, string> {
    if s == "" then Ok("")
    else match MatchAt(s)
         case None => Then(s[..1], SubstituteAll(es, s[1..]))
         case Some(m) =>
           match Owner(es, m.kind)
           case None => Then(m.text, SubstituteAll(es, s[|m.text|..]))
           case Some(e) =>
             match e.expand(m.arg)
             case Err(err) => Err(err)
             case Ok(v) => Then(v, SubstituteAll(es, s[|m.text|..]))
  }

  lemma {:induction false} OwnerIs(es: seq<Expander>, kind: string, i: nat)
    requires i <= |es| && (forall j :: 0 <= j < i ==> !Owns(es[j], kind)) && (i < |es| ==> Owns(es[i], kind))
    ensures Owner(es, kind) == if i < |es| then Some(es[i]) else None
  {
    if i > 0 {
      OwnerIs(es[1..], kind, i - 1);
    }
  }

  lemma OwnsByName(e: Expander, name: string)
    ensures Owns(e, "__" + name) <==> e.name == name
  {
    assert ("__" + name)[2..] == name && ("__" + e.name)[2..] == e.name;
  }

  /** A variable at the head of a text goes to its owner; without one it is kept. */
  lemma FirstGoes(es: seq<Expander>, kind: string, arg: string, rest: string)
    requires ValidKind(kind) && ValidArg(arg)
    ensures var v, e, after := Variable(kind, arg), Owner(es, kind), SubstituteAll(es, rest);
            SubstituteAll(es, v + rest) == if e.Some? then ThenRest(e.value.expand(arg), after) else Then(v, after)
  {
    var v := Variable(kind, arg);
    MatchComplete(kind, arg, rest);
    assert (v + rest)[|v|..] == rest;
  }

  function ThenRest(expanded: Result<string, string>, rest: Result<string, string>): Result<string, string> {
    if expanded.Ok? then Then(expanded.value, rest) else expanded
  }

  /**
   * In any text: `$__name{arg}` becomes what the first expander of that name makes of `arg`, and stays if there is none;
   * `${arg}` goes to the first environment expander. Place `i` is the first such expander, or the end of the list.
   */
  lemma VariableGoesByName(es: seq<Expander>, plain: string, name: string, arg: string, rest: string, i: nat)
    requires '$' !in plain && ValidKind("__" + name) && ValidArg(arg) && i <= |es|
    requires (forall j :: 0 <= j < i ==> es[j].name != name) && (i < |es| ==> es[i].name == name)
    ensures var v := "$__" + name + "{" + arg + "}";
            var after := SubstituteAll(es, rest);
            SubstituteAll(es, plain + (v + rest)) == Then(plain, if i < |es| then ThenRest(es[i].expand(arg), after) else Then(v, after))
  {
    var kind := "__" + name;
    assert "$__" + name + "{" + arg + "}" == Variable(kind, arg);
    forall j | 0 <= j < |es|
      ensures Owns(es[j], kind) <==> es[j].name == name
    {
      OwnsByName(es[j], name);
    }
    OwnerIs(es, kind, i);
    FirstGoes(es, kind, arg, rest);
    PlainPrefixKept(es, plain, Variable(kind, arg) + rest);
  }

  lemma BareVariableGoes(es: seq<Expander>, plain: string, arg: string, rest: string, i: nat)
    requires '$' !in plain && ValidArg(arg) && i <= |es|
    requires (forall j :: 0 <= j < i ==> !es[j].isEnv) && (i < |es| ==> es[i].isEnv)
    ensures var v := "${" + arg + "}";
            var after := SubstituteAll(es, rest);
            SubstituteAll(es, plain + (v + rest)) == Then(plain, if i < |es| then ThenRest(es[i].expand(arg), after) else Then(v, after))
  {
    assert "${" + arg + "}" == Variable("", arg);
    forall j | 0 <= j < |es|
      ensures Owns(es[j], "") <==> es[j].isEnv
    {
      assert |"__" + es[j].name| > 0;
    }
    OwnerIs(es, "", i);
    FirstGoes(es, "", arg, rest);
    PlainPrefixKept(es, plain, Variable("", arg) + rest);
  }

  /** The same text, or an error on both sides; which of several errors is met first is left open. */
  ghost predicate SameOutcome(a: Result<string, string>, b: Result<string, string>) {
    a == b || (a.Err? && b.Err?)
  }

  lemma {:induction false} PlainPrefixKept(es: seq<Expander>, plain: string, s: string)
    requires '$' !in plain
    ensures SubstituteAll(es, plain + s) == Then(plain, SubstituteAll(es, s))
    ensures NoOpenDollar(plain + s) == NoOpenDollar(s) && FindAll(plain + s) == FindAll(s)
  {
    if plain == "" {
      assert plain + s == s;
      ThenEmpty(SubstituteAll(es, s));
    } else {
      assert (plain + s)[1..] == plain[1..] + s && (plain + s)[..1] == plain[..1];
      assert plain[0] in plain;
      PlainPrefixKept(es, plain[1..], s);
      ThenThen(plain[..1], plain[1..], SubstituteAll(es, s));
      assert plain[..1] + plain[1..] == plain;
    }
  }

  /** The variables an expander leaves alone. */
  function Foreign(e: Expander, ms: seq<Match>): seq<Match> {
    if ms == [] then []
    else if Owns(e, ms[0].kind) then Foreign(e, ms[1..])
    else [ms[0]] + Foreign(e, ms[1..])
  }

  /** Each expander in turn finds clean values and no endings among the variables the ones before have left. */
  predicate Ready(es: seq<Expander>, ms: seq<Match>) {
    es == [] || (Clean(es[0], ms) && NoEndings(es[0], ms) && Ready(es[1..], Foreign(es[0], ms)))
  }

  /** A text that starts with no variable still starts as it did. */
  ghost predicate SameHead(s: string, t: string) {
    if s == "" then t == "" else MatchAt(s).None? ==> t != "" && t[0] == s[0] && MatchAt(t).None?
  }

  /** What a pass of one expander leaves: the text for the others, with the foreign variables in place. */
  ghost predicate PassedOn(e: Expander, es: seq<Expander>, s: string) {
    match Substitute(e, s)
    case Err(_) => SubstituteAll([e] + es, s).Err?
    case Ok(t) =>
      && NoOpenDollar(t) && FindAll(t) == Foreign(e, FindAll(s)) && SameHead(s, t)
      && SameOutcome(SubstituteAll([e] + es, s), SubstituteAll(es, t))
  }

  lemma OwnerOfMore(e: Expander, es: seq<Expander>, kind: string)
    ensures Owner([e] + es, kind) == if Owns(e, kind) then Some(e) else Owner(es, kind)
  {
    assert ([e] + es)[1..] == es;
  }

  lemma PassedOnPlain(e: Expander, es: seq<Expander>, s: string)
    requires s != "" && MatchAt(s).None? && s[0] != '$' && PassedOn(e, es, s[1..])
    ensures PassedOn(e, es, s)
  {
    var rest := Substitute(e, s[1..]);
    if rest.Ok? {
      PlainPrefixKept(es, s[..1], rest.value);
    }
  }

  /** A `$` that can start no variable still can start none. */
  lemma PassedOnDollar(e: Expander, es: seq<Expander>, s: string)
    requires s != "" && MatchAt(s).None? && s[0] == '$' && Blunt(s[1..]) && PassedOn(e, es, s[1..])
    ensures PassedOn(e, es, s)
  {
    var rest := Substitute(e, s[1..]);
    if rest.Ok? {
      var t := s[..1] + rest.value;
      assert Blunt(rest.value);
      assert t[1..] == rest.value && t[..1] == s[..1];
    }
  }

  lemma PassedOnOwn(e: Expander, es: seq<Expander>, s: string, m: Match)
    requires MatchAt(s) == Some(m) && Owns(e, m.kind) && Clean(e, FindAll(s)) && PassedOn(e, es, s[|m.text|..])
    ensures PassedOn(e, es, s)
  {
    var rest := Substitute(e, s[|m.text|..]);
    FoundFirst(s, m);
    assert m in FindAll(s) && FindAll(s)[1..] == FindAll(s[|m.text|..]);
    OwnerOfMore(e, es, m.kind);
    if rest.Ok? && e.expand(m.arg).Ok? {
      PlainPrefixKept(es, e.expand(m.arg).value, rest.value);
    }
  }

  lemma PassedOnForeign(e: Expander, es: seq<Expander>, s: string, m: Match)
    requires MatchAt(s) == Some(m) && !Owns(e, m.kind) && PassedOn(e, es, s[|m.text|..])
    ensures PassedOn(e, es, s)
  {
    var rest := Substitute(e, s[|m.text|..]);
    FoundFirst(s, m);
    assert FindAll(s)[1..] == FindAll(s[|m.text|..]);
    OwnerOfMore(e, es, m.kind);
    if rest.Ok? {
      VariableKept(s, m, rest.value);
    }
  }

  /** A variable found is found again with other text behind it. */
  lemma VariableKept(s: string, m: Match, rest: string)
    requires MatchAt(s) == Some(m)
    ensures MatchAt(m.text + rest) == Some(m) && (m.text + rest)[|m.text|..] == rest
  {
    MatchSound(s);
    MatchComplete(m.kind, m.arg, rest);
  }

  /** A pass of one expander leaves to the others exactly what a joint pass would give them. */
  lemma {:induction false} OnePassOfAll(e: Expander, es: seq<Expander>, s: string)
    requires NoOpenDollar(s) && Clean(e, FindAll(s))
    ensures PassedOn(e, es, s)
    decreases |s|
  {
    if s != "" {
      match MatchAt(s)
      case None =>
        OnePassOfAll(e, es, s[1..]);
        if s[0] == '$' {
          PassedOnDollar(e, es, s);
        } else {
          PassedOnPlain(e, es, s);
        }
      case Some(m) =>
        StillTelling(e, s, m);
        OnePassOfAll(e, es, s[|m.text|..]);
        if Owns(e, m.kind) {
          PassedOnOwn(e, es, s, m);
        } else {
          PassedOnForeign(e, es, s, m);
        }
    }
  }

  /** What the expanders make of a text one after the other, each replacing first copies. */
  function Passes(es: seq<Expander>, s: string): Result<string, string> {
    if es == [] then Ok(s)
    else match ReplaceEach(es[0], FindAll(s), s)
         case Err(err) => Err(err)
         case Ok(t) => Passes(es[1..], t)
  }

  /** No `$` is open, and each expander finds clean values and no endings when its turn comes. */
  predicate Fine(es: seq<Expander>, s: string) {
    NoOpenDollar(s) && Ready(es, FindAll(s))
  }

  /**
   * One expander after another is one simultaneous pass of all of them, for every text in which every `$` lies in a
   * variable or can start none, and each expander finds clean values and no endings.
   */
  lemma {:induction false} PassesAreOne(es: seq<Expander>, s: string)
    requires Fine(es, s)
    ensures SameOutcome(Passes(es, s), SubstituteAll(es, s))
  {
    if es == [] {
      NoExpanderKeepsText(es, s);
    } else {
      var e, later := es[0], es[1..];
      assert es == [e] + later;
      SubstitutesWhenNoEndings(e, s);
      OnePassOfAll(e, later, s);
      if Substitute(e, s).Ok? {
        PassesAreOne(later, Substitute(e, s).value);
      }
    }
  }

  lemma {:induction false} PlainIsFine(es: seq<Expander>, s: string)
    requires '$' !in s
    ensures NoOpenDollar(s) && FindAll(s) == [] && SubstituteAll(es, s) == Ok(s)
  {
    if s != "" {
      assert s[0] in s && s[..1] + s[1..] == s;
      PlainIsFine(es, s[1..]);
    }
  }

  lemma {:induction false} NothingToDo(es: seq<Expander>)
    ensures Ready(es, [])
  {
    if es != [] {
      NothingToDo(es[1..]);
    }
  }

  /** A text with a `$` before other text, as in `nonce-$NONCE`, is left as it is. */
  lemma StrayDollarStays(es: seq<Expander>, a: string, b: string)
    requires '$' !in a && '$' !in b && (b == "" || (b[0] != '{' && b[0] != '_'))
    ensures Fine(es, a + ("$" + b)) && SubstituteAll(es, a + ("$" + b)) == Ok(a + ("$" + b))
    ensures Passes(es, a + ("$" + b)) == Ok(a + ("$" + b))
  {
    var s := "$" + b;
    assert s[1..] == b && s[..1] == "$";
    PlainIsFine(es, b);
    assert MatchAt(s).None?;
    PlainPrefixKept(es, a, s);
    NothingToDo(es);
    PassesAreOne(es, a + s);
  }

  /** One expander after another, whatever the text. */
  method ExpandVar(es: seq<Expander>, s: string) returns (r: Result<string, string>)
    ensures r == Passes(es, s)
    ensures Fine(es, s) ==> SameOutcome(r, SubstituteAll(es, s))
  {
    if Fine(es, s) {
      PassesAreOne(es, s);
    }
    var text := s;
    assert es[0..] == es;
    for k := 0 to |es|
      invariant Passes(es, s) == Passes(es[k..], text)
    {
      assert es[k..][0] == es[k] && es[k..][1..] == es[k + 1..];
      var updated := ApplyExpander(text, es[k]);
      if updated.Err? {
        return Err(updated.error);
      }
      text := updated.value;
    }
    return Ok(text);
  }

  lemma {:induction false} NoExpanderKeepsText(es: seq<Expander>, s: string)
    requires es == []
    ensures SubstituteAll(es, s) == Ok(s)
    decreases |s|
  {
    if s != "" {
      match MatchAt(s)
      case None =>
        NoExpanderKeepsText(es, s[1..]);
        assert s[..1] + s[1..] == s;
      case Some(m) =>
        NoExpanderKeepsText(es, s[|m.text|..]);
        assert m.text + s[|m.text|..] == s;
    }
  }
}
