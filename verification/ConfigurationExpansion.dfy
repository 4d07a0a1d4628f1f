/**
 * The end of loading the configuration (pkg/setting/setting.go, pkg/setting/expanders.go): variables in the layered
 * values are expanded in place, and the whole of it, layers and expansion.
 */
module ConfigurationExpansion {
  import opened Prelude
  import opened Configuration
  import Expanders

  // ---------------------------------------------------------------- expansion of the values

  /** One value after `k` expanders: the others make of it what all make of the value from before. */
  ghost predicate Pending(before: string, now: string, es: seq<Expanders.Expander>, k: nat)
    requires k <= |es|
  {
    Expanders.Passes(es, before) == Expanders.Passes(es[k..], now)
  }

  /** All values after `k` expanders, and after one more where the key is not in `left`. */
  ghost predicate AllPending(start: Values, now: Values, es: seq<Expanders.Expander>, k: nat, left: set<Key>)
    requires k < |es| && now.Keys == start.Keys
  {
    forall x :: x in start ==> Pending(start[x], now[x], es, if x in left then k else k + 1)
  }

  lemma OnePass(es: seq<Expanders.Expander>, k: nat, s: string)
    requires k < |es|
    ensures var r := Expanders.ReplaceEach(es[k], Expanders.FindAll(s), s);
            Expanders.Passes(es[k..], s) == if r.Ok? then Expanders.Passes(es[k + 1..], r.value) else r
  {
    assert es[k..][0] == es[k] && es[k..][1..] == es[k + 1..];
  }

  lemma OneMoreExpanded(start: Values, values: Values, es: seq<Expanders.Expander>, i: nat, left: set<Key>, k: Key)
    requires i < |es| && k in left && left <= start.Keys && values.Keys == start.Keys && AllPending(start, values, es, i, left)
    ensures var r := Expanders.ReplaceEach(es[i], Expanders.FindAll(values[k]), values[k]);
            if r.Err? then Expanders.Passes(es, start[k]).Err?
            else values[k := r.value].Keys == start.Keys && AllPending(start, values[k := r.value], es, i, left - {k})
  {
    assert Pending(start[k], values[k], es, i);
    OnePass(es, i, values[k]);
    var r := Expanders.ReplaceEach(es[i], Expanders.FindAll(values[k]), values[k]);
    assert r.Ok? ==> values[k := r.value].Keys == start.Keys;
  }

  /** One expander over one value, in place. */
  method ExpandKey(file: IniFile, e: Expanders.Expander, k: Key) returns (ok: bool)
    requires file.Valid() && k in file.values
    modifies file`values
    ensures file.Valid()
    ensures var r := Expanders.ReplaceEach(e, Expanders.FindAll(old(file.values)[k]), old(file.values)[k]);
            ok == r.Ok? && file.values == if r.Ok? then old(file.values)[k := r.value] else old(file.values)
  {
    var updated := Expanders.ApplyExpander(file.values[k], e);
    ok := updated.Ok?;
    if ok {
      file.SetValue(k, updated.value);
    }
  }

  /** One expander over all values. */
  method ExpandKeys(file: IniFile, es: seq<Expanders.Expander>, i: nat, ghost start: Values) returns (ok: bool)
    requires file.Valid() && i < |es| && file.values.Keys == start.Keys && AllPending(start, file.values, es, i, start.Keys)
    modifies file`values
    ensures file.Valid() && file.values.Keys == start.Keys
    ensures if ok then AllPending(start, file.values, es, i, {}) else exists k :: k in start && Expanders.Passes(es, start[k]).Err?
  {
    var left := file.values.Keys;
    while left != {}
      invariant file.Valid() && file.values.Keys == start.Keys && left <= start.Keys
      invariant AllPending(start, file.values, es, i, left)
    {
      var k :| k in left;
      OneMoreExpanded(start, file.values, es, i, left, k);
      ok := ExpandKey(file, es[i], k);
      if !ok {
        return;
      }
      left := left - {k};
    }
    ok := true;
  }

  /**
   * Every expander in turn over all values, in place. Value by value this is what the expanders make of it one after
   * the other, whatever the other values are, and the whole fails exactly if one of them fails.
   */
  method ExpandConfig(file: IniFile, es: seq<Expanders.Expander>) returns (ok: bool)
    requires file.Valid()
    modifies file`values
    ensures file.Valid() && file.values.Keys == old(file.values).Keys
    ensures ok <==> AllExpand(old(file.values), es)
    ensures ok ==> AllExpanded(old(file.values), es, file.values)
    ensures ok ==> FineSubstituted(old(file.values), es, file.values)
  {
    ghost var start := file.values;
    assert es[0..] == es;
    for i := 0 to |es|
      invariant file.Valid() && file.values.Keys == start.Keys
      invariant forall x :: x in start ==> Pending(start[x], file.values[x], es, i)
    {
      ok := ExpandKeys(file, es, i, start);
      if !ok {
        return;
      }
    }
    assert es[|es|..] == [];
    assert forall x :: x in start ==> Pending(start[x], file.values[x], es, |es|);
    ExpandedIsSubstituted(start, es, file.values);
    ok := true;
  }

  ghost predicate AllExpand(values: Values, es: seq<Expanders.Expander>) {
    forall k :: k in values ==> Expanders.Passes(es, values[k]).Ok?
  }

  /** Each value is what the expanders make of it one after the other. */
  ghost predicate AllExpanded(before: Values, es: seq<Expanders.Expander>, after: Values) {
    after.Keys == before.Keys && forall k :: k in before ==> Expanders.Passes(es, before[k]) == Ok(after[k])
  }

  /** Each value that is fine is what one simultaneous pass of all expanders makes of it. */
  ghost predicate FineSubstituted(before: Values, es: seq<Expanders.Expander>, after: Values) {
    forall k :: k in before && k in after && Expanders.Fine(es, before[k]) ==> Expanders.SubstituteAll(es, before[k]) == Ok(after[k])
  }

  lemma ExpandedIsSubstituted(before: Values, es: seq<Expanders.Expander>, after: Values)
    requires AllExpanded(before, es, after)
    ensures FineSubstituted(before, es, after)
  {
    forall k | k in before && Expanders.Fine(es, before[k])
      ensures Expanders.SubstituteAll(es, before[k]) == Ok(after[k])
    {
      Expanders.PassesAreOne(es, before[k]);
    }
  }

  // ---------------------------------------------------------------- everything

  /** The shipped file under command-line defaults and the user's file: what the environment is applied to. */
  ghost function Lower(defaults: Values, props: map<string, string>, user: seq<Entry>): Values {
    WrittenAll(Overridden(defaults, k => CommandLineDefault(props, k)), user)
  }

  /** Loads all layers into the shipped file; stops at a database address that does not parse. */
  method LoadLayers(props: map<string, string>, user: seq<Entry>, env: string -> string, parses: (string, string) -> bool, file: IniFile)
    returns (ok: bool)
    requires file.Valid() && DistinctKeys(user)
    modifies file
    ensures file.Valid()
    ensures ok <==> AddressesParse(Lower(old(file.values), props, user), env, parses)
    ensures ok ==> file.values == Stacked(old(file.values), props, user, env)
    ensures !ok ==> OnlyFrom(Lower(old(file.values), props, user), file.values, k => Environment(env, k))
  {
    ApplyCommandLineDefaultProperties(props, file);
    LoadSpecifiedConfigFile(user, file);
    ok := ApplyEnvVariableOverrides(env, parses, file);
    if !ok {
      return;
    }
    ApplyCommandLineProperties(props, file);
  }

  datatype Loading = Loaded | BadAddress | BadVariable

  /**
   * Layers and expansion. It fails on an address exactly if one that is applied does not parse, and on a variable
   * exactly if the expanders fail on one of the layered values. Otherwise each key has what the expanders make of its
   * layered value, which is one simultaneous pass if the value is fine; and without fall-through the layered value is
   * what the key's strongest layer says.
   */
  method LoadConfiguration(props: map<string, string>, user: seq<Entry>, env: string -> string, parses: (string, string) -> bool,
                           es: seq<Expanders.Expander>, file: IniFile)
    returns (outcome: Loading)
    requires file.Valid() && DistinctKeys(user)
    modifies file
    ensures file.Valid()
    ensures outcome.BadAddress? <==> !AddressesParse(Lower(old(file.values), props, user), env, parses)
    ensures outcome.BadAddress? ==> OnlyFrom(Lower(old(file.values), props, user), file.values, k => Environment(env, k))
    ensures !outcome.BadAddress? ==> file.values.Keys == Stacked(old(file.values), props, user, env).Keys
    ensures !outcome.BadAddress? ==> (outcome.Loaded? <==> AllExpand(Stacked(old(file.values), props, user, env), es))
    ensures outcome.Loaded? ==> AllExpanded(Stacked(old(file.values), props, user, env), es, file.values)
    ensures outcome.Loaded? ==> FineSubstituted(Stacked(old(file.values), props, user, env), es, file.values)
    ensures outcome.Loaded? ==> (Expected(old(file.values), user, file.values) <==> NoneFallsThrough(old(file.values), user))
    ensures outcome.Loaded? && NoneFallsThrough(old(file.values), user) ==> Configured(old(file.values), props, user, env, es, file.values)
    ensures outcome.Loaded? ==> NamedSettingsWin(old(file.values), props, user, env, es, file.values)
  {
    ghost var defaults := file.values;
    var layered := LoadLayers(props, user, env, parses, file);
    if !layered {
      return BadAddress;
    }
    StackRefinesIff(defaults, props, user, env);
    StackedKeysIff(defaults, props, user, env);
    ghost var stacked := file.values;
    var expanded := ExpandConfig(file, es);
    if !expanded {
      return BadVariable;
    }
    NamesWin(defaults, props, user, env, es, stacked, file.values);
    return Loaded;
  }

  /**
   * One key and its three names: what stands under its command-line name wins; else a variable of its environment name
   * that is set; else, if nothing falls through, what the user's file says; else what stands under its default name.
   */
  ghost predicate NamesDecide(defaults: Values, props: map<string, string>, user: seq<Entry>, env: string -> string, es: seq<Expanders.Expander>,
                              k: Key, value: string, line: string, byDefault: string, variable: string)
  {
    if line in props then Expanders.Passes(es, props[line]) == Ok(value)
    else if env(variable) != "" then Expanders.Passes(es, env(variable)) == Ok(value)
    else NoneFallsThrough(defaults, user) ==>
      if Sets(user, k) then exists i :: 0 <= i < |user| && user[i].key == k && Expanders.Passes(es, user[i].value) == Ok(value)
      else if byDefault in props then Expanders.Passes(es, props[byDefault]) == Ok(value)
      else k in defaults && Expanders.Passes(es, defaults[k]) == Ok(value)
  }

  /** Every key has what its names decide, the names being spelled character by character. */
  ghost predicate NamedSettingsWin(defaults: Values, props: map<string, string>, user: seq<Entry>, env: string -> string,
                                   es: seq<Expanders.Expander>, values: Values)
  {
    forall k, line, byDefault, variable :: k in values && Names(k, line, byDefault, variable)
      ==> NamesDecide(defaults, props, user, env, es, k, values[k], line, byDefault, variable)
  }

  lemma NamesWin(defaults: Values, props: map<string, string>, user: seq<Entry>, env: string -> string, es: seq<Expanders.Expander>,
                 stacked: Values, values: Values)
    requires DistinctKeys(user) && stacked == Stacked(defaults, props, user, env) && AllExpanded(stacked, es, values)
    ensures NamedSettingsWin(defaults, props, user, env, es, values)
  {
    StackRefinesIff(defaults, props, user, env);
    forall k, line, byDefault, variable | k in values && Names(k, line, byDefault, variable)
      ensures NamesDecide(defaults, props, user, env, es, k, values[k], line, byDefault, variable)
    {
      SourcesAre(props, env, k, line, byDefault, variable);
      UpperSources(defaults, props, user, env, stacked, k);
      assert Expanders.Passes(es, stacked[k]) == Ok(values[k]);
      if NoneFallsThrough(defaults, user) {
        assert Some(stacked[k]) == Precedence(defaults, props, user, env, k);
      }
    }
  }

  lemma UpperSources(defaults: Values, props: map<string, string>, user: seq<Entry>, env: string -> string, stacked: Values, k: Key)
    requires stacked == Stacked(defaults, props, user, env) && k in stacked
    ensures CommandLine(props, k).Some? ==> stacked[k] == CommandLine(props, k).value
    ensures CommandLine(props, k).None? && Environment(env, k).Some? ==> stacked[k] == Environment(env, k).value
  {
    var lower := Lower(defaults, props, user);
    OverriddenAt(lower, x => Environment(env, x), k);
    OverriddenAt(Overridden(lower, x => Environment(env, x)), x => CommandLine(props, x), k);
  }

  /** The keys are the defaults' and the user's non-empty ones. */
  ghost predicate Expected(defaults: Values, user: seq<Entry>, values: Values) {
    forall k :: k in values <==> k in defaults || Sets(user, k)
  }

  lemma StackedKeysIff(defaults: Values, props: map<string, string>, user: seq<Entry>, env: string -> string)
    requires DistinctKeys(user)
    ensures Expected(defaults, user, Stacked(defaults, props, user, env)) <==> NoneFallsThrough(defaults, user)
  {
    StackRefinesIff(defaults, props, user, env);
    var shipped := Overridden(defaults, k => CommandLineDefault(props, k));
    assert shipped.Keys == defaults.Keys;
    FallThroughNeedsKeysOnly(defaults, shipped, user);
    if !NoneFallsThrough(defaults, user) {
      var layered := WrittenAll(shipped, user);
      LostKey(shipped, user, layered);
      var k :| Sets(user, k) && k !in layered;
      assert k !in Stacked(defaults, props, user, env);
    }
  }

  /** Key by key from the sources: what the expanders make of the value of its strongest layer. */
  ghost predicate Configured(defaults: Values, props: map<string, string>, user: seq<Entry>, env: string -> string,
                             es: seq<Expanders.Expander>, values: Values) {
    Expected(defaults, user, values)
    && forall k :: k in values ==>
         var value := Precedence(defaults, props, user, env, k);
         && value.Some? && Expanders.Passes(es, value.value) == Ok(values[k])
         && (Expanders.Fine(es, value.value) ==> Expanders.SubstituteAll(es, value.value) == Ok(values[k]))
  }
}
