/**
 * The settings of all plugins of an organisation (pkg/plugins/queries.go): stored rows first, then a default
 * for every registered plugin without one. The registry is a Go map, visited in any order, and the default of
 * an app's component looks up its app among the entries made so far.
 */
module PluginSettings {
  import opened Prelude

  datatype Plugin = Plugin(id: string, kind: string, includedInAppId: string)

  datatype Info = Info(pluginId: string, orgId: int, enabled: bool, pinned: bool)

  type Settings = map<string, Info>

  /** The registry of plugins, under their ids. */
  ghost predicate Registered(plugins: map<string, Plugin>) {
    forall id :: id in plugins ==> plugins[id].id == id
  }

  /** The default made for a plugin, given the entries there are. */
  function Default(orgId: int, m: Settings, p: Plugin): Info {
    var enabled := p.kind != "app";
    if p.includedInAppId == "" then Info(p.id, orgId, enabled, false)
    else Info(p.id, orgId, p.includedInAppId in m && m[p.includedInAppId].enabled, false)
  }

  function Visit(orgId: int, m: Settings, p: Plugin): Settings {
    if p.id in m then m else m[p.id := Default(orgId, m, p)]
  }

  /** The map after visiting the plugins in the given order. */
  ghost function VisitAll(orgId: int, rows: Settings, plugins: map<string, Plugin>, order: seq<string>): Settings
    requires forall id :: id in order ==> id in plugins
  {
    if order == [] then rows
    else
      assert order[|order| - 1] in order;
      Visit(orgId, VisitAll(orgId, rows, plugins, order[..|order| - 1]), plugins[order[|order| - 1]])
  }

  ghost predicate IsOrder(plugins: map<string, Plugin>, order: seq<string>) {
    Distinct(order) && forall id :: id in order <==> id in plugins
  }

  /** The reference: stored rows; else disabled for apps, the app's stored flag for components, enabled otherwise. */
  function EnabledByRule(rows: Settings, p: Plugin): bool {
    if p.includedInAppId == "" then p.kind != "app"
    else p.includedInAppId in rows && rows[p.includedInAppId].enabled
  }

  ghost function ByRule(orgId: int, rows: Settings, plugins: map<string, Plugin>): Settings {
    rows + map id | id in plugins && id !in rows :: Info(id, orgId, EnabledByRule(rows, plugins[id]), false)
  }

  /** Every component without a row whose app has none either belongs to an app that is off by rule. */
  predicate Unambiguous(rows: Settings, plugins: map<string, Plugin>) {
    forall id :: id in plugins ==> !Ambiguous(rows, plugins, plugins[id])
  }

  predicate Ambiguous(rows: Settings, plugins: map<string, Plugin>, p: Plugin) {
    var app := p.includedInAppId;
    p.id !in rows && app != "" && app != p.id && app in plugins && app !in rows && EnabledByRule(rows, plugins[app])
  }

  /** The map so far: rows as stored, and the visited plugins by rule. */
  ghost predicate PartlyByRule(orgId: int, rows: Settings, plugins: map<string, Plugin>, visited: set<string>, m: Settings) {
    && m.Keys == rows.Keys + visited
    && (forall id :: id in rows ==> m[id] == rows[id])
    && forall id :: id in visited && id !in rows ==> id in plugins && m[id] == Info(id, orgId, EnabledByRule(rows, plugins[id]), false)
  }

  lemma VisitByRule(orgId: int, rows: Settings, plugins: map<string, Plugin>, visited: set<string>, m: Settings, id: string)
    requires Registered(plugins) && Unambiguous(rows, plugins) && id in plugins
    requires PartlyByRule(orgId, rows, plugins, visited, m)
    ensures PartlyByRule(orgId, rows, plugins, visited + {id}, Visit(orgId, m, plugins[id]))
  {
    assert !Ambiguous(rows, plugins, plugins[id]);
  }

  /** The stored rows under their plugin ids; a later row wins. */
  function RowsByPlugin(rows: seq<Info>): Settings {
    if rows == [] then map[] else RowsByPlugin(rows[..|rows| - 1])[rows[|rows| - 1].pluginId := rows[|rows| - 1]]
  }

  // ---------------------------------------------------------------- order independence

  lemma {:induction false} AnyOrderByRule(orgId: int, rows: Settings, plugins: map<string, Plugin>, order: seq<string>)
    requires Registered(plugins) && Unambiguous(rows, plugins) && forall id :: id in order ==> id in plugins
    ensures PartlyByRule(orgId, rows, plugins, Elems(order), VisitAll(orgId, rows, plugins, order))
  {
    if order != [] {
      var front := order[..|order| - 1];
      var id := order[|order| - 1];
      assert order == front + [id];
      AnyOrderByRule(orgId, rows, plugins, front);
      VisitByRule(orgId, rows, plugins, Elems(front), VisitAll(orgId, rows, plugins, front), id);
      assert Elems(order) == Elems(front) + {id};
    }
  }

  lemma OrderByRule(orgId: int, rows: Settings, plugins: map<string, Plugin>, order: seq<string>)
    requires Registered(plugins) && Unambiguous(rows, plugins) && IsOrder(plugins, order)
    ensures VisitAll(orgId, rows, plugins, order) == ByRule(orgId, rows, plugins)
  {
    AnyOrderByRule(orgId, rows, plugins, order);
    var m, n := VisitAll(orgId, rows, plugins, order), ByRule(orgId, rows, plugins);
    assert Elems(order) == plugins.Keys;
    assert n.Keys == rows.Keys + plugins.Keys;
    forall id | id in n
      ensures m[id] == n[id]
    {
      assert id in rows || id in Elems(order);
    }
  }

  /** Entries stay as first made. */
  lemma {:induction false} EntriesStay(orgId: int, rows: Settings, plugins: map<string, Plugin>, order: seq<string>, k: nat, id: string)
    requires k <= |order| && forall i :: i in order ==> i in plugins
    requires id in VisitAll(orgId, rows, plugins, order[..k])
    ensures id in VisitAll(orgId, rows, plugins, order)
    ensures VisitAll(orgId, rows, plugins, order)[id] == VisitAll(orgId, rows, plugins, order[..k])[id]
  {
    if k == |order| {
      assert order[..k] == order;
    } else {
      var front := order[..|order| - 1];
      assert front[..k] == order[..k];
      EntriesStay(orgId, rows, plugins, front, k, id);
    }
  }

  lemma OrderStarting(plugins: map<string, Plugin>, a: string, b: string) returns (order: seq<string>)
    requires a in plugins && b in plugins && a != b
    ensures IsOrder(plugins, order) && |order| >= 2 && order[0] == a && order[1] == b
  {
    order := [a, b];
    var left := plugins.Keys - {a, b};
    while left != {}
      invariant left <= plugins.Keys && Distinct(order) && |order| >= 2 && order[0] == a && order[1] == b
      invariant forall id :: id in order <==> id in plugins && id !in left
    {
      var id :| id in left;
      assert forall k :: k in order + [id] <==> k in order || k == id;
      order, left := order + [id], left - {id};
    }
  }

  /** What the first two visits decide about a component and its app. */
  lemma FirstTwo(orgId: int, rows: Settings, plugins: map<string, Plugin>, order: seq<string>)
    requires |order| >= 2 && forall id :: id in order ==> id in plugins
    ensures VisitAll(orgId, rows, plugins, order[..1]) == Visit(orgId, rows, plugins[order[0]])
    ensures VisitAll(orgId, rows, plugins, order[..2]) == Visit(orgId, Visit(orgId, rows, plugins[order[0]]), plugins[order[1]])
  {
    assert order[..1][..0] == [] && order[..2][..1] == order[..1];
  }

  /** An ambiguous component comes out differently before and after its app. */
  lemma AmbiguousDiffers(orgId: int, rows: Settings, plugins: map<string, Plugin>, id: string) returns (p: seq<string>, q: seq<string>)
    requires Registered(plugins) && id in plugins && Ambiguous(rows, plugins, plugins[id])
    ensures IsOrder(plugins, p) && IsOrder(plugins, q)
    ensures VisitAll(orgId, rows, plugins, p) != VisitAll(orgId, rows, plugins, q)
  {
    var app := plugins[id].includedInAppId;
    p := OrderStarting(plugins, app, id);
    q := OrderStarting(plugins, id, app);
    FirstTwo(orgId, rows, plugins, p);
    FirstTwo(orgId, rows, plugins, q);
    EntriesStay(orgId, rows, plugins, p, 2, id);
    EntriesStay(orgId, rows, plugins, q, 1, id);
    assert VisitAll(orgId, rows, plugins, p)[id].enabled;
    assert !VisitAll(orgId, rows, plugins, q)[id].enabled;
  }

  /** The answer is the same for every order of the registry exactly if no component is ambiguous. */
  lemma OrderIndependentIff(orgId: int, rows: Settings, plugins: map<string, Plugin>)
    requires Registered(plugins)
    ensures (forall p, q :: IsOrder(plugins, p) && IsOrder(plugins, q) ==> VisitAll(orgId, rows, plugins, p) == VisitAll(orgId, rows, plugins, q))
            <==> Unambiguous(rows, plugins)
  {
    if Unambiguous(rows, plugins) {
      forall p | IsOrder(plugins, p)
        ensures VisitAll(orgId, rows, plugins, p) == ByRule(orgId, rows, plugins)
      {
        OrderByRule(orgId, rows, plugins, p);
      }
    } else {
      var id :| id in plugins && Ambiguous(rows, plugins, plugins[id]);
      var p, q := AmbiguousDiffers(orgId, rows, plugins, id);
    }
  }

  /** Where components only ever belong to apps that belong to nobody, nothing is ambiguous. */
  lemma TopLevelAppsSuffice(rows: Settings, plugins: map<string, Plugin>)
    requires forall id :: id in plugins && plugins[id].includedInAppId in plugins ==>
               var app := plugins[plugins[id].includedInAppId]; app.kind == "app" && app.includedInAppId == ""
    ensures Unambiguous(rows, plugins)
  {
  }

  // ---------------------------------------------------------------- the answer, plugin by plugin

  /** Row `i` is the one that counts for the plugin: the last of its id. */
  ghost predicate RowOf(rows: seq<Info>, id: string, i: nat) {
    i < |rows| && rows[i].pluginId == id && forall j :: i < j < |rows| ==> rows[j].pluginId != id
  }

  ghost predicate HasRow(rows: seq<Info>, id: string) {
    exists i: nat :: RowOf(rows, id, i)
  }

  lemma {:induction false} RowsAre(rows: seq<Info>, id: string)
    ensures id in RowsByPlugin(rows) <==> HasRow(rows, id)
    ensures forall i: nat :: RowOf(rows, id, i) ==> id in RowsByPlugin(rows) && RowsByPlugin(rows)[id] == rows[i]
  {
    if rows != [] {
      var n: nat := |rows| - 1;
      if rows[n].pluginId == id {
        assert RowOf(rows, id, n);
      } else {
        RowsAre(rows[..n], id);
        forall i: nat
          ensures RowOf(rows, id, i) <==> RowOf(rows[..n], id, i)
        {
        }
      }
    }
  }

  /** On without a row: no app, and a component only if its app has a row that says so. */
  ghost predicate OnByDefault(rows: seq<Info>, p: Plugin) {
    if p.includedInAppId == "" then p.kind != "app"
    else exists i: nat :: RowOf(rows, p.includedInAppId, i) && rows[i].enabled
  }

  /** The answer for one plugin id: its row, or what goes without one. */
  ghost predicate Ruled(orgId: int, rows: seq<Info>, plugins: map<string, Plugin>, m: Settings, id: string) {
    && (id in m <==> HasRow(rows, id) || id in plugins)
    && (forall i: nat :: RowOf(rows, id, i) ==> id in m && m[id] == rows[i])
    && (id in plugins && !HasRow(rows, id) ==> id in m && m[id] == Info(id, orgId, OnByDefault(rows, plugins[id]), false))
  }

  lemma ByRuleIsRuled(orgId: int, rows: seq<Info>, plugins: map<string, Plugin>, id: string)
    ensures Ruled(orgId, rows, plugins, ByRule(orgId, RowsByPlugin(rows), plugins), id)
  {
    RowsAre(rows, id);
    if id in plugins {
      RowsAre(rows, plugins[id].includedInAppId);
    }
  }

  // ---------------------------------------------------------------- GetPluginSettings

  method LoadRows(rows: seq<Info>) returns (pluginMap: Settings)
    ensures pluginMap == RowsByPlugin(rows)
  {
    pluginMap := map[];
    for i := 0 to |rows|
      invariant pluginMap == RowsByPlugin(rows[..i])
    {
      assert rows[..i + 1][..i] == rows[..i];
      pluginMap := pluginMap[rows[i].pluginId := rows[i]];
    }
    assert rows[..|rows|] == rows;
  }

  /** One round of the loop over the registry. */
  method AddDefault(orgId: int, pluginDef: Plugin, soFar: Settings) returns (pluginMap: Settings)
    ensures pluginMap == Visit(orgId, soFar, pluginDef)
  {
    pluginMap := soFar;
    if pluginDef.id in pluginMap {
      return;
    }
    var enabled := true;
    if pluginDef.kind == "app" {
      enabled := false;
    }
    if pluginDef.includedInAppId != "" {
      enabled := false;
      if pluginDef.includedInAppId in pluginMap {
        enabled := pluginMap[pluginDef.includedInAppId].enabled;
      }
    }
    pluginMap := pluginMap[pluginDef.id := Info(pluginDef.id, orgId, enabled, false)];
  }

  lemma OneMoreVisit(orgId: int, rows: Settings, plugins: map<string, Plugin>, order: seq<string>, id: string)
    requires (forall k :: k in order ==> k in plugins) && id in plugins && id !in order && Distinct(order)
    ensures Distinct(order + [id]) && forall k :: k in order + [id] <==> k in order || k == id
    ensures VisitAll(orgId, rows, plugins, order + [id]) == Visit(orgId, VisitAll(orgId, rows, plugins, order), plugins[id])
  {
    assert (order + [id])[..|order|] == order;
  }

  /**
   * GetPluginSettings, visiting the registry in an order of its own. If no component is ambiguous the answer is
   * the one the rule gives, whatever the order.
   */
  method GetPluginSettings(orgId: int, query: Option<seq<Info>>, plugins: map<string, Plugin>) returns (r: Option<Settings>)
    requires Registered(plugins)
    ensures r.None? <==> query.None?
    ensures query.Some? ==> exists order :: IsOrder(plugins, order) && r.value == VisitAll(orgId, RowsByPlugin(query.value), plugins, order)
    ensures query.Some? && Unambiguous(RowsByPlugin(query.value), plugins) ==> r.value == ByRule(orgId, RowsByPlugin(query.value), plugins)
    ensures query.Some? && Unambiguous(RowsByPlugin(query.value), plugins) ==> forall id :: Ruled(orgId, query.value, plugins, r.value, id)
  {
    if query.None? {
      return None;
    }
    var pluginMap := LoadRows(query.value);
    ghost var rows := pluginMap;
    ghost var order: seq<string> := [];
    var left := plugins.Keys;
    while left != {}
      invariant left <= plugins.Keys && Distinct(order) && forall id :: id in order <==> id in plugins && id !in left
      invariant pluginMap == VisitAll(orgId, rows, plugins, order)
    {
      var id :| id in left;
      left := left - {id};
      OneMoreVisit(orgId, rows, plugins, order, id);
      order := order + [id];
      pluginMap := AddDefault(orgId, plugins[id], pluginMap);
    }
    assert IsOrder(plugins, order);
    if Unambiguous(rows, plugins) {
      OrderByRule(orgId, rows, plugins, order);
      forall id
        ensures Ruled(orgId, query.value, plugins, pluginMap, id)
      {
        ByRuleIsRuled(orgId, query.value, plugins, id);
      }
    }
    return Some(pluginMap);
  }

  // ---------------------------------------------------------------- GetEnabledPlugins

  /**
   * The plugins reported as enabled. The filter asks whether there is an entry, not whether it says enabled, and
   * there is one for every registered plugin: nothing registered is ever left out.
   */
  method GetEnabledPlugins(orgId: int, query: Option<seq<Info>>, plugins: map<string, Plugin>, candidates: set<string>) returns (r: Option<set<string>>)
    requires Registered(plugins) && candidates <= plugins.Keys
    ensures r.None? <==> query.None?
    ensures r.Some? ==> r.value == candidates
  {
    var settings := GetPluginSettings(orgId, query, plugins);
    if settings.None? {
      return None;
    }
    ghost var order :| IsOrder(plugins, order) && settings.value == VisitAll(orgId, RowsByPlugin(query.value), plugins, order);
    EveryoneHasEntry(orgId, RowsByPlugin(query.value), plugins, order);
    var enabled: set<string> := {};
    var left := candidates;
    while left != {}
      invariant left <= candidates && enabled == candidates - left
    {
      var id :| id in left;
      left := left - {id};
      if id in settings.value {
        enabled := enabled + {id};
      }
    }
    return Some(enabled);
  }

  lemma {:induction false} EveryoneHasEntry(orgId: int, rows: Settings, plugins: map<string, Plugin>, order: seq<string>)
    requires Registered(plugins) && forall id :: id in order ==> id in plugins
    ensures forall id :: id in order ==> id in VisitAll(orgId, rows, plugins, order)
  {
    if order != [] {
      var front := order[..|order| - 1];
      assert order == front + [order[|order| - 1]];
      EveryoneHasEntry(orgId, rows, plugins, front);
    }
  }
}
