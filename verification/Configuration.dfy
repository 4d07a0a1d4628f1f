/**
 * Layering of the server configuration (pkg/setting/setting.go): shipped defaults, command-line defaults, the
 * user's file, environment variables and command-line settings, each written over the one before in place.
 * The INI library is a contract. A section is asked for a key it lacks by looking at its parent sections, whose
 * names are its own cut at a dot.
 */
module Configuration {
  import opened Prelude

  datatype Key = Key(section: string, name: string)

  type Values = map<Key, string>

  datatype Entry = Entry(key: Key, value: string)

  const DefaultSection := "DEFAULT"

  // ---------------------------------------------------------------- the INI file

  /** The name of the enclosing section, cut at the last dot. */
  function Parent(section: string): (p: Option<string>)
    ensures p.Some? ==> |p.value| < |section| && section[|p.value|] == '.' && p.value == section[..|p.value|]
    ensures p.Some? ==> forall i :: |p.value| < i < |section| ==> section[i] != '.'
    ensures p.None? ==> '.' !in section
  {
    if section == "" then None
    else if section[|section| - 1] == '.' then Some(section[..|section| - 1])
    else Parent(section[..|section| - 1])
  }

  /** The key a lookup finds: the section's own, else the nearest parent's. */
  function Find(values: Values, key: Key): (r: Option<Key>)
    ensures r.Some? ==> r.value in values && r.value.name == key.name
    decreases |key.section|
  {
    if key in values then Some(key)
    else match Parent(key.section)
         case None => None
         case Some(p) => Find(values, Key(p, key.name))
  }

  /** The section itself, or one that encloses it: its name cut at some dot. */
  ghost predicate Encloses(outer: string, section: string) {
    outer == section || (|outer| < |section| && section[|outer|] == '.' && outer == section[..|outer|])
  }

  /** A lookup finds the key of the innermost enclosing section that has one of this name. */
  lemma {:induction false} FindIsInnermost(values: Values, key: Key, found: Key)
    ensures Find(values, key) == Some(found)
       <==> && found in values && found.name == key.name && Encloses(found.section, key.section)
            && forall s :: Encloses(s, key.section) && Key(s, key.name) in values ==> |s| <= |found.section|
    decreases |key.section|
  {
    if key !in values {
      match Parent(key.section)
      case None =>
      case Some(p) =>
        FindIsInnermost(values, Key(p, key.name), found);
        forall s
          ensures Encloses(s, key.section) <==> s == key.section || Encloses(s, p)
        {
        }
    }
  }

  /** A file in memory: the keys in file order, grouped by section, and their values. */
  class IniFile {
    var sections: seq<string>
    var names: map<string, seq<string>>
    var values: Values

    ghost predicate Valid()
      reads this
    {
      && (forall s :: s in sections ==> s in names)
      && (forall k :: k in values <==> k.section in sections && k.name in names[k.section])
    }

    constructor (sections: seq<string>, names: map<string, seq<string>>, values: Values)
      requires forall s :: s in sections ==> s in names
      requires forall k :: k in values <==> k.section in sections && k.name in names[k.section]
      ensures Valid() && this.sections == sections && this.names == names && this.values == values
    {
      this.sections, this.names, this.values := sections, names, values;
    }

    method SetValue(key: Key, value: string)
      requires Valid() && key in values
      modifies this`values
      ensures Valid() && values == old(values)[key := value]
    {
      values := values[key := value];
    }

    /** Adds a key, and its section if need be. */
    method NewKey(key: Key, value: string)
      requires Valid() && key !in values
      modifies this
      ensures Valid() && values == old(values)[key := value]
    {
      if key.section !in sections {
        sections := sections + [key.section];
        names := names[key.section := []];
      }
      names := names[key.section := names[key.section] + [key.name]];
      values := values[key := value];
    }
  }

  // ---------------------------------------------------------------- passes that only overwrite

  /** Each value replaced where the source has one. */
  ghost function Overridden(values: Values, source: Key -> Option<string>): Values {
    map k | k in values :: if source(k).Some? then source(k).value else values[k]
  }

  function Get(props: map<string, string>, name: string): Option<string> {
    if name in props then Some(props[name]) else None
  }

  function CommandLineDefault(props: map<string, string>, k: Key): Option<string> {
    Get(props, "default." + k.section + "." + k.name)
  }

  function CommandLine(props: map<string, string>, k: Key): Option<string> {
    Get(props, (if k.section == DefaultSection then "" else k.section + ".") + k.name)
  }

  function Upper(s: string): string {
    seq(|s|, i requires 0 <= i < |s| => if 'a' <= s[i] <= 'z' then s[i] - 'a' + 'A' else s[i])
  }

  function Replace(s: string, c: char, d: char): string {
    seq(|s|, i requires 0 <= i < |s| => if s[i] == c then d else s[i])
  }

  function EnvKey(k: Key): string {
    "GF_" + Replace(Upper(Replace(k.section, '.', '_')), '-', '_') + "_" + Upper(Replace(k.name, '.', '_'))
  }

  /** An unset variable reads as empty, and empty ones are passed over. */
  function Environment(env: string -> string, k: Key): Option<string> {
    if env(EnvKey(k)) != "" then Some(env(EnvKey(k))) else None
  }

  // ---------------------------------------------------------------- the names, character by character

  predicate IsUpperOf(c: char, d: char) {
    if 'a' <= c <= 'z' then d == c - ('a' - 'A') else d == c
  }

  /** "GF_", the section, '_' and the name, in upper case, with '_' for each dot, and in the section for each hyphen. */
  ghost predicate NamesInEnvironment(name: string, k: Key) {
    var n := |k.section|;
    && |name| == 4 + n + |k.name|
    && name[0] == 'G' && name[1] == 'F' && name[2] == '_' && name[3 + n] == '_'
    && (forall i :: 0 <= i < n ==> if k.section[i] == '.' || k.section[i] == '-' then name[3 + i] == '_' else IsUpperOf(k.section[i], name[3 + i]))
    && (forall i :: 0 <= i < |k.name| ==> if k.name[i] == '.' then name[4 + n + i] == '_' else IsUpperOf(k.name[i], name[4 + n + i]))
  }

  /** The section, a dot and the name; in the default section the name alone. */
  ghost predicate NamesOnCommandLine(name: string, k: Key) {
    if k.section == "DEFAULT" then name == k.name
    else
      var n := |k.section|;
      |name| == n + 1 + |k.name| && name[..n] == k.section && name[n] == '.' && name[n + 1..] == k.name
  }

  /** "default", the section and the name, with dots between, in every section. */
  ghost predicate NamesDefault(name: string, k: Key) {
    var n := |k.section|;
    && |name| == 9 + n + |k.name|
    && name[..7] == "default" && name[7] == '.' && name[8..8 + n] == k.section && name[8 + n] == '.' && name[9 + n..] == k.name
  }

  ghost predicate Names(k: Key, line: string, byDefault: string, variable: string) {
    NamesOnCommandLine(line, k) && NamesDefault(byDefault, k) && NamesInEnvironment(variable, k)
  }

  lemma EnvKeyPieces(k: Key)
    ensures NamesInEnvironment(EnvKey(k), k)
  {
    var section, name := Replace(Upper(Replace(k.section, '.', '_')), '-', '_'), Upper(Replace(k.name, '.', '_'));
    EnvKeyParts("GF_", section, name);
  }

  lemma EnvKeyParts(head: string, section: string, name: string)
    ensures var e, n := head + section + "_" + name, |head| + |section|;
            && |e| == n + 1 + |name| && e[..|head|] == head && e[n] == '_'
            && (forall i :: 0 <= i < |section| ==> e[|head| + i] == section[i])
            && (forall i :: 0 <= i < |name| ==> e[n + 1 + i] == name[i])
  {
  }

  /** Only one name spells a key for the environment. */
  lemma EnvKeyIs(k: Key, name: string)
    ensures name == EnvKey(k) <==> NamesInEnvironment(name, k)
  {
    EnvKeyPieces(k);
    if NamesInEnvironment(name, k) {
      var e, n := EnvKey(k), |k.section|;
      forall j | 0 <= j < |name|
        ensures name[j] == e[j]
      {
        if 3 <= j < 3 + n {
          var i := j - 3;
          assert k.section[i] == k.section[i] && name[3 + i] == e[3 + i];
        } else if 4 + n <= j {
          var i := j - 4 - n;
          assert k.name[i] == k.name[i] && name[4 + n + i] == e[4 + n + i];
        }
      }
      assert name == e;
    }
  }

  lemma LineIs(k: Key, line: string)
    requires NamesOnCommandLine(line, k)
    ensures line == (if k.section == DefaultSection then "" else k.section + ".") + k.name
  {
    var n := |k.section|;
    if k.section != DefaultSection {
      assert line == line[..n] + [line[n]] + line[n + 1..];
    } else {
      assert "" + k.name == k.name;
    }
  }

  lemma DefaultIs(k: Key, name: string)
    requires NamesDefault(name, k)
    ensures name == "default." + k.section + "." + k.name
  {
    var n := |k.section|;
    assert name == name[..7] + [name[7]] + name[8..8 + n] + [name[8 + n]] + name[9 + n..];
    assert "default" + "." == "default.";
  }

  /** What the three sources outside the files say about a key is found under these names. */
  lemma SourcesAre(props: map<string, string>, env: string -> string, k: Key, line: string, byDefault: string, variable: string)
    requires Names(k, line, byDefault, variable)
    ensures CommandLine(props, k) == if line in props then Some(props[line]) else None
    ensures CommandLineDefault(props, k) == if byDefault in props then Some(props[byDefault]) else None
    ensures Environment(env, k) == if env(variable) != "" then Some(env(variable)) else None
  {
    EnvKeyIs(k, variable);
    LineIs(k, line);
    DefaultIs(k, byDefault);
  }

  /** Every key has such names. */
  lemma NamesExist(k: Key) returns (line: string, byDefault: string, variable: string)
    ensures Names(k, line, byDefault, variable)
  {
    line := (if k.section == DefaultSection then "" else k.section + ".") + k.name;
    byDefault := "default." + k.section + "." + k.name;
    variable := EnvKey(k);
    EnvKeyPieces(k);
    assert "default." == "default" + ".";
  }

  // ---------------------------------------------------------------- one section

  /** The inner loop: one section. Stops at a value that is not acceptable, after having written it. */
  method OverrideSection(file: IniFile, section: string, source: Key -> Option<string>, acceptable: Key -> bool) returns (ok: bool)
    requires file.Valid() && section in file.names
    requires section in file.sections
    modifies file`values
    ensures file.Valid() && file.values.Keys == old(file.values).Keys
    ensures forall k :: k in file.values && k.section != section ==> file.values[k] == old(file.values)[k]
    ensures ok ==> forall k :: k in file.values && k.section == section
                     ==> file.values[k] == (if source(k).Some? then source(k).value else old(file.values)[k]) && (source(k).Some? ==> acceptable(k))
    ensures !ok ==> exists k :: k in file.values && source(k).Some? && !acceptable(k)
    ensures OnlyFrom(old(file.values), file.values, source)
  {
    var names := file.names[section];
    for j := 0 to |names|
      invariant file.Valid() && file.values.Keys == old(file.values).Keys
      invariant forall k :: k in file.values && !(k.section == section && k.name in names[..j]) ==> file.values[k] == old(file.values)[k]
      invariant forall k :: k in file.values && k.section == section && k.name in names[..j]
                  ==> file.values[k] == (if source(k).Some? then source(k).value else old(file.values)[k]) && (source(k).Some? ==> acceptable(k))
    {
      var key := Key(section, names[j]);
      assert names[..j + 1] == names[..j] + [names[j]];
      var value := source(key);
      if value.Some? {
        file.SetValue(key, value.value);
        if !acceptable(key) {
          return false;
        }
      }
    }
    assert names[..|names|] == names;
    return true;
  }

  /** Values are as before or come from the source. */
  ghost predicate OnlyFrom(before: Values, after: Values, source: Key -> Option<string>) {
    after.Keys == before.Keys && forall k :: k in after ==> after[k] == before[k] || source(k) == Some(after[k])
  }

  /** A pass over all keys of all sections that overwrites the values the source has something for. */
  method Override(file: IniFile, source: Key -> Option<string>, acceptable: Key -> bool) returns (ok: bool)
    requires file.Valid()
    modifies file`values
    ensures file.Valid()
    ensures ok <==> forall k :: k in old(file.values) && source(k).Some? ==> acceptable(k)
    ensures ok ==> file.values == Overridden(old(file.values), source)
    ensures OnlyFrom(old(file.values), file.values, source)
  {
    for i := 0 to |file.sections|
      invariant file.Valid() && file.values.Keys == old(file.values).Keys
      invariant OnlyFrom(old(file.values), file.values, source)
      invariant forall k :: k in file.values && k.section !in file.sections[..i] ==> file.values[k] == old(file.values)[k]
      invariant forall k :: k in file.values && k.section in file.sections[..i]
                  ==> file.values[k] == (if source(k).Some? then source(k).value else old(file.values)[k]) && (source(k).Some? ==> acceptable(k))
    {
      var section := file.sections[i];
      assert file.sections[..i + 1] == file.sections[..i] + [section];
      ok := OverrideSection(file, section, source, acceptable);
      if !ok {
        return;
      }
    }
    assert file.sections[..|file.sections|] == file.sections;
    return true;
  }

  method ApplyCommandLineDefaultProperties(props: map<string, string>, file: IniFile)
    requires file.Valid()
    modifies file`values
    ensures file.Valid() && file.values == Overridden(old(file.values), k => CommandLineDefault(props, k))
  {
    var _ := Override(file, k => CommandLineDefault(props, k), k => true);
  }

  method ApplyCommandLineProperties(props: map<string, string>, file: IniFile)
    requires file.Valid()
    modifies file`values
    ensures file.Valid() && file.values == Overridden(old(file.values), k => CommandLine(props, k))
  {
    var _ := Override(file, k => CommandLine(props, k), k => true);
  }

  ghost predicate AddressesParse(values: Values, env: string -> string, parses: (string, string) -> bool) {
    forall k :: k in values && Environment(env, k).Some? ==> parses(EnvKey(k), env(EnvKey(k)))
  }

  /** Refuses to go on after a database address that does not parse. */
  method ApplyEnvVariableOverrides(env: string -> string, parses: (string, string) -> bool, file: IniFile) returns (ok: bool)
    requires file.Valid()
    modifies file`values
    ensures file.Valid()
    ensures ok ==> file.values == Overridden(old(file.values), k => Environment(env, k))
    ensures ok <==> AddressesParse(old(file.values), env, parses)
    ensures OnlyFrom(old(file.values), file.values, k => Environment(env, k))
  {
    ok := Override(file, k => Environment(env, k), k => parses(EnvKey(k), env(EnvKey(k))));
  }

  // ---------------------------------------------------------------- the user's file

  /** One entry of the user's file written into the file at hand. */
  function Written(values: Values, e: Entry): Values {
    match Find(values, e.key)
    case Some(k) => values[k := e.value]
    case None => values[e.key := e.value]
  }

  /** The entries in file order; empty values are skipped. */
  function WrittenAll(values: Values, entries: seq<Entry>): Values {
    if entries == [] then values
    else
      var last := entries[|entries| - 1];
      var before := WrittenAll(values, entries[..|entries| - 1]);
      if last.value == "" then before else Written(before, last)
  }

  method LoadSpecifiedConfigFile(user: seq<Entry>, file: IniFile)
    requires file.Valid()
    modifies file
    ensures file.Valid() && file.values == WrittenAll(old(file.values), user)
  {
    for i := 0 to |user|
      invariant file.Valid() && file.values == WrittenAll(old(file.values), user[..i])
    {
      assert user[..i + 1][..i] == user[..i];
      if user[i].value == "" {
        continue;
      }
      var found := Find(file.values, user[i].key);
      if found.None? {
        file.NewKey(user[i].key, user[i].value);
        file.SetValue(user[i].key, user[i].value);
      } else {
        file.SetValue(found.value, user[i].value);
      }
    }
    assert user[..|user|] == user;
  }

  /** A file states each key once. */
  ghost predicate DistinctKeys(entries: seq<Entry>) {
    forall i, j :: 0 <= i < j < |entries| ==> entries[i].key != entries[j].key
  }

  ghost predicate Sets(entries: seq<Entry>, k: Key) {
    exists i :: 0 <= i < |entries| && entries[i].key == k && entries[i].value != ""
  }

  ghost function UserValue(entries: seq<Entry>, k: Key): Option<string> {
    if Sets(entries, k) then
      var i :| 0 <= i < |entries| && entries[i].key == k && entries[i].value != "";
      Some(entries[i].value)
    else None
  }

  /** A parent section has the key, among the defaults or set earlier in the user's file. */
  ghost predicate ParentHas(defaults: Values, entries: seq<Entry>, key: Key)
    decreases |key.section|
  {
    match Parent(key.section)
    case None => false
    case Some(p) =>
      var k := Key(p, key.name);
      k in defaults || Sets(entries, k) || ParentHas(defaults, entries, k)
  }

  /** Entry `i` has no key of its own to go to and lands on a parent's. */
  ghost predicate FallsThrough(defaults: Values, entries: seq<Entry>, i: nat)
    requires i < |entries|
  {
    entries[i].value != "" && entries[i].key !in defaults && ParentHas(defaults, entries[..i], entries[i].key)
  }

  ghost predicate NoneFallsThrough(defaults: Values, entries: seq<Entry>) {
    forall i :: 0 <= i < |entries| ==> !FallsThrough(defaults, entries, i)
  }

  /** The keys are the defaults' and the user's non-empty ones, and each has the user's value if there is one. */
  ghost predicate Layered(defaults: Values, entries: seq<Entry>, values: Values) {
    && (forall k :: k in values <==> k in defaults || Sets(entries, k))
    && forall k :: k in values ==> values[k] == if Sets(entries, k) then UserValue(entries, k).value else defaults[k]
  }

  lemma {:induction false} FindFails(defaults: Values, entries: seq<Entry>, values: Values, key: Key)
    requires forall k :: k in values <==> k in defaults || Sets(entries, k)
    requires key !in values
    ensures Find(values, key).Some? <==> ParentHas(defaults, entries, key)
    ensures Find(values, key).Some? ==> Find(values, key).value != key
    decreases |key.section|
  {
    match Parent(key.section)
    case None =>
    case Some(p) =>
      if Key(p, key.name) !in values {
        FindFails(defaults, entries, values, Key(p, key.name));
      }
  }

  lemma UserValueIs(entries: seq<Entry>, i: nat)
    requires DistinctKeys(entries) && i < |entries| && entries[i].value != ""
    ensures UserValue(entries, entries[i].key) == Some(entries[i].value)
  {
    assert Sets(entries, entries[i].key);
  }

  lemma SetsMore(entries: seq<Entry>, e: Entry, k: Key)
    ensures Sets(entries + [e], k) <==> Sets(entries, k) || (e.key == k && e.value != "")
    ensures DistinctKeys(entries + [e]) && Sets(entries, k) ==> UserValue(entries + [e], k) == UserValue(entries, k)
    ensures DistinctKeys(entries + [e]) && e.key == k && e.value != "" ==> UserValue(entries + [e], k) == Some(e.value)
  {
    var all := entries + [e];
    if Sets(entries, k) {
      var i :| 0 <= i < |entries| && entries[i].key == k && entries[i].value != "";
      assert all[i] == entries[i];
      if DistinctKeys(all) {
        assert DistinctKeys(entries) by {
          assert forall a, b :: 0 <= a < b < |entries| ==> all[a] == entries[a] && all[b] == entries[b];
        }
        UserValueIs(entries, i);
        UserValueIs(all, i);
      }
    }
    assert all[|entries|] == e;
    if DistinctKeys(all) && e.value != "" {
      UserValueIs(all, |entries|);
    }
    if Sets(all, k) {
      var i :| 0 <= i < |all| && all[i].key == k && all[i].value != "";
      assert i < |entries| ==> entries[i] == all[i];
    }
  }

  /** Without fall-through the user's file lies on the defaults entry by entry. */
  lemma {:induction false} UserLayer(defaults: Values, entries: seq<Entry>)
    requires DistinctKeys(entries) && NoneFallsThrough(defaults, entries)
    ensures Layered(defaults, entries, WrittenAll(defaults, entries))
  {
    if entries != [] {
      var n := |entries| - 1;
      var before := entries[..n];
      var e := entries[n];
      assert entries == before + [e];
      forall i | 0 <= i < n
        ensures !FallsThrough(defaults, before, i)
      {
        assert before[..i] == entries[..i] && !FallsThrough(defaults, entries, i);
      }
      UserLayer(defaults, before);
      var values := WrittenAll(defaults, before);
      assert !FallsThrough(defaults, entries, n);
      if e.key !in values {
        FindFails(defaults, before, values, e.key);
      }
      forall k
        ensures Sets(entries, k) <==> Sets(before, k) || (e.key == k && e.value != "")
        ensures Sets(before, k) ==> UserValue(entries, k) == UserValue(before, k)
        ensures e.key == k && e.value != "" ==> UserValue(entries, k) == Some(e.value)
      {
        SetsMore(before, e, k);
      }
    }
  }

  lemma {:induction false} OnlyEntryKeysAppear(defaults: Values, entries: seq<Entry>, k: Key)
    requires k in WrittenAll(defaults, entries)
    ensures k in defaults || Sets(entries, k)
  {
    if entries != [] && k !in defaults {
      var before := entries[..|entries| - 1];
      assert entries == before + [entries[|entries| - 1]];
      SetsMore(before, entries[|entries| - 1], k);
      if k in WrittenAll(defaults, before) {
        OnlyEntryKeysAppear(defaults, before, k);
      }
    }
  }

  /** The first entry that falls through never gets a key of its own. */
  lemma {:induction false} FirstFallThroughIsLost(defaults: Values, entries: seq<Entry>, i: nat)
    requires DistinctKeys(entries) && i < |entries| && FallsThrough(defaults, entries, i)
    requires forall j :: 0 <= j < i ==> !FallsThrough(defaults, entries, j)
    ensures Sets(entries, entries[i].key) && entries[i].key !in WrittenAll(defaults, entries)
  {
    var n := |entries| - 1;
    var before := entries[..n];
    var e := entries[n];
    assert entries == before + [e];
    if i < n {
      assert before[..i] == entries[..i];
      forall j | 0 <= j < i
        ensures !FallsThrough(defaults, before, j)
      {
        assert before[..j] == entries[..j] && !FallsThrough(defaults, entries, j);
      }
      FirstFallThroughIsLost(defaults, before, i);
    } else {
      forall j | 0 <= j < n
        ensures !FallsThrough(defaults, before, j)
      {
        assert before[..j] == entries[..j] && !FallsThrough(defaults, entries, j);
      }
      UserLayer(defaults, before);
      FindFails(defaults, before, WrittenAll(defaults, before), e.key);
    }
  }

  ghost function FirstFallThrough(defaults: Values, entries: seq<Entry>, k: nat): (i: nat)
    requires k < |entries| && FallsThrough(defaults, entries, k)
    ensures i <= k && FallsThrough(defaults, entries, i) && forall j :: 0 <= j < i ==> !FallsThrough(defaults, entries, j)
    decreases k
  {
    if forall j :: 0 <= j < k ==> !FallsThrough(defaults, entries, j) then k
    else
      var j :| 0 <= j < k && FallsThrough(defaults, entries, j);
      FirstFallThrough(defaults, entries, j)
  }

  // ---------------------------------------------------------------- the whole stack

  /** The value a key ends up with: the strongest layer that has one. */
  ghost function Precedence(defaults: Values, props: map<string, string>, user: seq<Entry>, env: string -> string, k: Key): Option<string> {
    if CommandLine(props, k).Some? then CommandLine(props, k)
    else if Environment(env, k).Some? then Environment(env, k)
    else if Sets(user, k) then UserValue(user, k)
    else if k in defaults && CommandLineDefault(props, k).Some? then CommandLineDefault(props, k)
    else if k in defaults then Some(defaults[k])
    else None
  }

  /** Exactly the defaults' keys and the user's non-empty ones, each with the value its strongest layer gives it. */
  ghost predicate Refines(defaults: Values, props: map<string, string>, user: seq<Entry>, env: string -> string, values: Values) {
    && (forall k :: k in values <==> k in defaults || Sets(user, k))
    && forall k :: k in values ==> Some(values[k]) == Precedence(defaults, props, user, env, k)
  }

  lemma FallThroughNeedsKeysOnly(d1: Values, d2: Values, user: seq<Entry>)
    requires d1.Keys == d2.Keys
    ensures NoneFallsThrough(d1, user) <==> NoneFallsThrough(d2, user)
  {
    forall i | 0 <= i < |user|
      ensures FallsThrough(d1, user, i) <==> FallsThrough(d2, user, i)
    {
      ParentNeedsKeysOnly(d1, d2, user[..i], user[i].key);
    }
  }

  lemma {:induction false} ParentNeedsKeysOnly(d1: Values, d2: Values, user: seq<Entry>, key: Key)
    requires d1.Keys == d2.Keys
    ensures ParentHas(d1, user, key) <==> ParentHas(d2, user, key)
    decreases |key.section|
  {
    match Parent(key.section)
    case None =>
    case Some(p) =>
      var k := Key(p, key.name);
      assert k in d1 <==> k in d1.Keys;
      ParentNeedsKeysOnly(d1, d2, user, k);
  }

  /** If an entry falls through, some key of the user's file is missing. */
  lemma LostKey(defaults: Values, user: seq<Entry>, values: Values)
    requires DistinctKeys(user) && !NoneFallsThrough(defaults, user) && values == WrittenAll(defaults, user)
    ensures exists k :: Sets(user, k) && k !in values
  {
    var k :| 0 <= k < |user| && FallsThrough(defaults, user, k);
    var i := FirstFallThrough(defaults, user, k);
    FirstFallThroughIsLost(defaults, user, i);
  }

  function Or(strong: Option<string>, weak: string): string {
    if strong.Some? then strong.value else weak
  }

  lemma OverriddenAt(values: Values, source: Key -> Option<string>, key: Key)
    ensures key in Overridden(values, source) <==> key in values
    ensures key in values ==> Overridden(values, source)[key] == Or(source(key), values[key])
  {
  }

  /** Environment and command line over a file whose user layer came out as it should. */
  lemma UpperLayers(defaults: Values, props: map<string, string>, user: seq<Entry>, env: string -> string, layered: Values)
    requires Layered(Overridden(defaults, k => CommandLineDefault(props, k)), user, layered)
    ensures Refines(defaults, props, user, env, Overridden(Overridden(layered, k => Environment(env, k)), k => CommandLine(props, k)))
  {
    var shipped := Overridden(defaults, k => CommandLineDefault(props, k));
    var applied := Overridden(layered, k => Environment(env, k));
    var values := Overridden(applied, k => CommandLine(props, k));
    forall key
      ensures Refined(defaults, props, user, env, values, key)
    {
      OverriddenAt(defaults, k => CommandLineDefault(props, k), key);
      OverriddenAt(layered, k => Environment(env, k), key);
      OverriddenAt(applied, k => CommandLine(props, k), key);
      OneKey(defaults, props, user, env, shipped, layered, key);
    }
    RefinedEverywhere(defaults, props, user, env, values);
  }

  /** One key of a file that refines the lookup. */
  ghost predicate Refined(defaults: Values, props: map<string, string>, user: seq<Entry>, env: string -> string, values: Values, key: Key) {
    && (key in values <==> key in defaults || Sets(user, key))
    && (key in values ==> Some(values[key]) == Precedence(defaults, props, user, env, key))
  }

  lemma RefinedEverywhere(defaults: Values, props: map<string, string>, user: seq<Entry>, env: string -> string, values: Values)
    requires forall key :: Refined(defaults, props, user, env, values, key)
    ensures Refines(defaults, props, user, env, values)
  {
    forall key
      ensures key in values <==> key in defaults || Sets(user, key)
      ensures key in values ==> Some(values[key]) == Precedence(defaults, props, user, env, key)
    {
      assert Refined(defaults, props, user, env, values, key);
    }
  }

  lemma OneKey(defaults: Values, props: map<string, string>, user: seq<Entry>, env: string -> string, shipped: Values, layered: Values, key: Key)
    requires Layered(shipped, user, layered) && (key in shipped <==> key in defaults)
    requires key in defaults ==> shipped[key] == Or(CommandLineDefault(props, key), defaults[key])
    ensures key in layered <==> key in defaults || Sets(user, key)
    ensures key in layered ==>
              Precedence(defaults, props, user, env, key) == Some(Or(CommandLine(props, key), Or(Environment(env, key), layered[key])))
  {
  }

  /** The four passes of loadConfiguration in a row. */
  ghost function Stacked(defaults: Values, props: map<string, string>, user: seq<Entry>, env: string -> string): Values {
    Overridden(Overridden(WrittenAll(Overridden(defaults, k => CommandLineDefault(props, k)), user), k => Environment(env, k)),
               k => CommandLine(props, k))
  }

  /**
   * The passes refine the one precedence lookup, with the expected keys, exactly if no entry of the user's file
   * falls through to a parent section.
   */
  lemma StackRefinesIff(defaults: Values, props: map<string, string>, user: seq<Entry>, env: string -> string)
    requires DistinctKeys(user)
    ensures Refines(defaults, props, user, env, Stacked(defaults, props, user, env)) <==> NoneFallsThrough(defaults, user)
  {
    var shipped := Overridden(defaults, k => CommandLineDefault(props, k));
    assert shipped.Keys == defaults.Keys;
    FallThroughNeedsKeysOnly(defaults, shipped, user);
    var layered := WrittenAll(shipped, user);
    if NoneFallsThrough(defaults, user) {
      UserLayer(shipped, user);
      UpperLayers(defaults, props, user, env, layered);
    } else {
      LostKey(shipped, user, layered);
      var k :| Sets(user, k) && k !in layered;
      assert k !in Stacked(defaults, props, user, env);
    }
  }

  /** `[auth.proxy] enabled` in the user's file, with only `[auth] enabled` shipped, changes the latter. */
  lemma FallThroughExample() returns (defaults: Values, user: seq<Entry>)
    ensures DistinctKeys(user) && user == [Entry(Key("auth.proxy", "enabled"), "true")]
    ensures defaults == map[Key("auth", "enabled") := "false"]
    ensures WrittenAll(defaults, user) == map[Key("auth", "enabled") := "true"]
  {
    var outer, inner := Key("auth", "enabled"), Key("auth.proxy", "enabled");
    defaults := map[outer := "false"];
    user := [Entry(inner, "true")];
    ParentOf("auth", "proxy");
    assert "auth" + "." + "proxy" == inner.section && |inner.section| != |outer.section|;
    assert Find(defaults, inner) == Some(outer);
    assert user[..0] == [] && WrittenAll(defaults, []) == defaults;
    assert WrittenAll(defaults, user) == Written(defaults, user[0]);
  }

  lemma {:induction false} ParentOf(outer: string, last: string)
    requires '.' !in last
    ensures Parent(outer + "." + last) == Some(outer)
  {
    var s := outer + "." + last;
    if last == "" {
      assert s[..|s| - 1] == outer;
    } else {
      var shorter := last[..|last| - 1];
      assert s[..|s| - 1] == outer + "." + shorter;
      assert last[|last| - 1] in last;
      ParentOf(outer, shorter);
    }
  }
}
