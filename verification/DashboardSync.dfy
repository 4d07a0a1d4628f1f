/**
 * Keeping the dashboards a plugin ships in step with the stored ones (pkg/plugins/dashboards.go and
 * pkg/plugins/dashboards_updater.go). The store is a contract: a dashboard is saved under its slug, and
 * every statement may fail, in which case it changes nothing.
 */
module DashboardSync {
  import opened Prelude

  datatype Row = Row(orgId: int, pluginId: string, slug: string, revision: int)

  datatype Setting = Setting(enabled: bool, version: string)

  datatype Include = Include(kind: string, path: string)

  datatype Plugin = Plugin(id: string, version: string, includes: seq<Include>)

  /** A dashboard file: `revision` is 1 when the file states none; `hasInputs` when it declares inputs. */
  datatype File = File(slug: string, revision: int, hasInputs: bool)

  /** Reading a plugin's dashboard file, None if that fails. */
  type Loader = (string, string) -> Option<File>

  /** What is known about one dashboard of a plugin. A dashboard never imported has imported revision 0. */
  datatype Info = Info(path: string, dashboardId: nat, imported: bool, importedRevision: int, revision: int, removed: bool)

  type Rows = map<nat, Row>

  type Settings = map<(int, string), Setting>

  ghost predicate Mine(row: Row, orgId: int, pluginId: string) {
    row.orgId == orgId && row.pluginId == pluginId
  }

  ghost predicate SameName(a: Row, b: Row) {
    a.orgId == b.orgId && a.slug == b.slug
  }

  ghost predicate UniqueNames(rows: Rows) {
    forall i, j :: i in rows && j in rows && SameName(rows[i], rows[j]) ==> i == j
  }

  // ---------------------------------------------------------------- the store

  class Store {
    var rows: Rows
    var unusedId: nat
    var settings: Settings
    /** Deletions and imports carried out so far. */
    var deletes: nat
    var imports: nat
    /** Which statements fail, by their number. */
    const fails: nat -> bool
    var statements: nat

    /** No statement fails. */
    ghost predicate Reliable() {
      forall n :: !fails(n)
    }

    /** Within an organisation a slug names one dashboard. */
    ghost predicate Valid()
      reads this
    {
      && (forall i :: i in rows ==> i < unusedId)
      && UniqueNames(rows)
    }

    method Attempt() returns (ok: bool)
      modifies this`statements
      ensures ok <==> !fails(old(statements))
    {
      ok := !fails(statements);
      statements := statements + 1;
    }

    /** The dashboards of a plugin, in whatever order the database returns them. */
    method DashboardsByPlugin(orgId: int, pluginId: string) returns (r: Option<seq<nat>>)
      modifies this`statements
      ensures r.Some? <==> !fails(old(statements))
      ensures r.Some? ==> Distinct(r.value) && forall i :: i in r.value <==> i in rows && Mine(rows[i], orgId, pluginId)
    {
      var ok := Attempt();
      if !ok {
        return None;
      }
      var found: seq<nat> := [];
      var left := rows.Keys;
      while left != {}
        invariant left <= rows.Keys && Distinct(found)
        invariant forall i :: i in found <==> i in rows && i !in left && Mine(rows[i], orgId, pluginId)
      {
        var i :| i in left;
        left := left - {i};
        if rows[i].orgId == orgId && rows[i].pluginId == pluginId {
          assert i !in found;
          found := found + [i];
        }
      }
      return Some(found);
    }

    method DeleteDashboard(orgId: int, id: nat) returns (ok: bool)
      requires Valid()
      modifies this`statements, this`rows, this`deletes
      ensures Valid()
      ensures ok <==> !fails(old(statements)) && id in old(rows) && old(rows)[id].orgId == orgId
      ensures ok ==> rows == old(rows) - {id} && deletes == old(deletes) + 1
      ensures !ok ==> rows == old(rows) && deletes == old(deletes)
    {
      ok := Attempt();
      if ok && id in rows && rows[id].orgId == orgId {
        rows, deletes := rows - {id}, deletes + 1;
      } else {
        ok := false;
      }
    }

    /** Overwrites the dashboard that has the slug, whoever owned it, or inserts a new one. */
    method SaveBySlug(row: Row) returns (ok: bool)
      requires Valid()
      modifies this`statements, this`rows, this`unusedId, this`imports
      ensures Valid()
      ensures ok <==> !fails(old(statements))
      ensures ok ==> imports == old(imports) + 1 && IsSaved(old(rows), row, rows)
      ensures !ok ==> rows == old(rows) && imports == old(imports)
    {
      ok := Attempt();
      if !ok {
        return;
      }
      imports := imports + 1;
      var left := rows.Keys;
      while left != {}
        invariant left <= rows.Keys
        invariant forall i :: i in rows && i !in left ==> !SameName(rows[i], row)
      {
        var i :| i in left;
        left := left - {i};
        if rows[i].orgId == row.orgId && rows[i].slug == row.slug {
          rows := rows[i := row];
          assert IsSavedAt(old(rows), row, rows, i);
          return;
        }
      }
      rows, unusedId := rows[unusedId := row], unusedId + 1;
      assert IsSavedAt(old(rows), row, rows, old(unusedId));
    }

    method GetSetting(orgId: int, pluginId: string) returns (r: Option<Setting>)
      modifies this`statements
      ensures r.Some? <==> !fails(old(statements)) && (orgId, pluginId) in settings
      ensures r.Some? ==> r.value == settings[(orgId, pluginId)]
    {
      var ok := Attempt();
      if !ok || (orgId, pluginId) !in settings {
        return None;
      }
      return Some(settings[(orgId, pluginId)]);
    }

    method MarkVersion(orgId: int, pluginId: string, version: string) returns (ok: bool)
      requires (orgId, pluginId) in settings
      modifies this`statements, this`settings
      ensures ok <==> !fails(old(statements))
      ensures ok ==> settings == old(settings)[(orgId, pluginId) := old(settings)[(orgId, pluginId)].(version := version)]
      ensures !ok ==> settings == old(settings)
    {
      ok := Attempt();
      if ok {
        settings := settings[(orgId, pluginId) := settings[(orgId, pluginId)].(version := version)];
      }
    }
  }

  /** `after` is `before` with `row` under `id`, which either had the slug already or is new when nobody had it. */
  ghost predicate IsSavedAt(before: Rows, row: Row, after: Rows, id: nat) {
    && after == before[id := row]
    && (if id in before then SameName(before[id], row) else forall i :: i in before ==> !SameName(before[i], row))
  }

  ghost predicate IsSaved(before: Rows, row: Row, after: Rows) {
    exists id :: IsSavedAt(before, row, after, id)
  }

  // ---------------------------------------------------------------- what a plugin ships

  datatype Shipment = Shipment(path: string, file: File)

  /** The dashboard files of the includes, None if one cannot be read. */
  function Shipped(load: Loader, pluginId: string, includes: seq<Include>): Option<seq<Shipment>> {
    if includes == [] then Some([])
    else
      var last := includes[|includes| - 1];
      match Shipped(load, pluginId, includes[..|includes| - 1])
      case None => None
      case Some(before) =>
        if last.kind != "dashboard" then Some(before)
        else match load(pluginId, last.path)
             case None => None
             case Some(f) => Some(before + [Shipment(last.path, f)])
  }

  lemma {:induction false} ShippedLoads(load: Loader, pluginId: string, includes: seq<Include>)
    requires Shipped(load, pluginId, includes).Some?
    ensures forall s :: s in Shipped(load, pluginId, includes).value ==> load(pluginId, s.path) == Some(s.file)
  {
    if includes != [] {
      ShippedLoads(load, pluginId, includes[..|includes| - 1]);
    }
  }

  /** The places of the dashboards among the includes, in order. */
  ghost predicate ListsDashboards(includes: seq<Include>, places: seq<nat>) {
    && (forall k :: 0 <= k < |places| ==> places[k] < |includes| && includes[places[k]].kind == "dashboard")
    && (forall k, l :: 0 <= k < l < |places| ==> places[k] < places[l])
    && forall i :: 0 <= i < |includes| && includes[i].kind == "dashboard" ==> i in places
  }

  /** One shipment for each of these places, with its path and the file found there. */
  ghost predicate Ships(load: Loader, pluginId: string, includes: seq<Include>, places: seq<nat>, shipped: seq<Shipment>) {
    && |shipped| == |places|
    && forall k :: 0 <= k < |places| ==>
         && places[k] < |includes| && shipped[k].path == includes[places[k]].path
         && load(pluginId, includes[places[k]].path) == Some(shipped[k].file)
  }

  ghost predicate DashboardsLoad(load: Loader, pluginId: string, includes: seq<Include>) {
    forall i :: 0 <= i < |includes| && includes[i].kind == "dashboard" ==> load(pluginId, includes[i].path).Some?
  }

  /** All dashboards among the includes are shipped, in order and nothing else, exactly if all their files load. */
  lemma {:induction false} ShippedAre(load: Loader, pluginId: string, includes: seq<Include>) returns (places: seq<nat>)
    ensures Shipped(load, pluginId, includes).Some? <==> DashboardsLoad(load, pluginId, includes)
    ensures Shipped(load, pluginId, includes).Some?
            ==> ListsDashboards(includes, places) && Ships(load, pluginId, includes, places, Shipped(load, pluginId, includes).value)
  {
    if includes == [] {
      places := [];
    } else {
      var n := |includes| - 1;
      var front, last := includes[..n], includes[n];
      places := ShippedAre(load, pluginId, front);
      OneMoreLoads(load, pluginId, includes);
      if last.kind == "dashboard" {
        OneMorePlace(includes, places);
        places := places + [n];
      } else {
        SamePlaces(includes, places);
      }
    }
  }

  lemma OneMoreLoads(load: Loader, pluginId: string, includes: seq<Include>)
    requires includes != []
    ensures DashboardsLoad(load, pluginId, includes)
       <==> && DashboardsLoad(load, pluginId, includes[..|includes| - 1])
            && (includes[|includes| - 1].kind == "dashboard" ==> load(pluginId, includes[|includes| - 1].path).Some?)
  {
    var front := includes[..|includes| - 1];
    if DashboardsLoad(load, pluginId, includes) {
      forall i | 0 <= i < |front| && front[i].kind == "dashboard"
        ensures load(pluginId, front[i].path).Some?
      {
        assert includes[i] == front[i];
      }
    }
  }

  lemma SamePlaces(includes: seq<Include>, places: seq<nat>)
    requires includes != [] && includes[|includes| - 1].kind != "dashboard"
    ensures ListsDashboards(includes[..|includes| - 1], places) ==> ListsDashboards(includes, places)
  {
    var n := |includes| - 1;
    if ListsDashboards(includes[..n], places) {
      forall i | 0 <= i < |includes| && includes[i].kind == "dashboard"
        ensures i in places
      {
        assert includes[..n][i] == includes[i];
      }
    }
  }

  lemma OneMorePlace(includes: seq<Include>, places: seq<nat>)
    requires includes != [] && includes[|includes| - 1].kind == "dashboard"
    ensures ListsDashboards(includes[..|includes| - 1], places) ==> ListsDashboards(includes, places + [|includes| - 1])
  {
    var n := |includes| - 1;
    if ListsDashboards(includes[..n], places) {
      forall i | 0 <= i < |includes| && includes[i].kind == "dashboard"
        ensures i in places + [n]
      {
        assert i < n ==> includes[..n][i] == includes[i];
      }
    }
  }

  lemma {:induction false} MissingFileStops(load: Loader, pluginId: string, includes: seq<Include>, k: nat)
    requires k <= |includes| && Shipped(load, pluginId, includes[..k]).None?
    ensures Shipped(load, pluginId, includes).None?
  {
    if k < |includes| {
      assert includes[..|includes| - 1][..k] == includes[..k];
      MissingFileStops(load, pluginId, includes[..|includes| - 1], k);
    } else {
      assert includes[..k] == includes;
    }
  }

  /** The revision the plugin's dashboard with this slug is stored at, 0 if there is none. */
  ghost function StoredRevision(rows: Rows, orgId: int, pluginId: string, slug: string): int {
    if exists i :: i in rows && Mine(rows[i], orgId, pluginId) && rows[i].slug == slug then
      var i :| i in rows && Mine(rows[i], orgId, pluginId) && rows[i].slug == slug;
      rows[i].revision
    else 0
  }

  ghost predicate ShipsSlug(shipped: seq<Shipment>, slug: string) {
    exists s :: s in shipped && s.file.slug == slug
  }

  /** One entry per shipped dashboard, with the revision it is stored at. */
  ghost predicate ReportsShipped(rows: Rows, orgId: int, pluginId: string, shipped: seq<Shipment>, infos: seq<Info>) {
    && |infos| == |shipped|
    && forall k :: 0 <= k < |shipped| ==>
         && !infos[k].removed && infos[k].path == shipped[k].path && infos[k].revision == shipped[k].file.revision
         && infos[k].importedRevision == StoredRevision(rows, orgId, pluginId, shipped[k].file.slug)
         && Points(rows, orgId, pluginId, infos[k], shipped[k].file.slug)
  }

  /** The entry names the stored dashboard of the slug, if there is one. */
  ghost predicate Points(rows: Rows, orgId: int, pluginId: string, info: Info, slug: string) {
    if info.imported then info.dashboardId in rows && Mine(rows[info.dashboardId], orgId, pluginId) && rows[info.dashboardId].slug == slug
    else info.dashboardId == 0 && forall i :: i in rows && Mine(rows[i], orgId, pluginId) ==> rows[i].slug != slug
  }

  /** One entry, marked removed, for each listed dashboard. */
  ghost predicate ReportsRemoved(gone: set<nat>, infos: seq<Info>) {
    && (forall k :: 0 <= k < |infos| ==> infos[k].removed && infos[k].dashboardId in gone)
    && (forall k, l :: 0 <= k < l < |infos| ==> infos[k].dashboardId != infos[l].dashboardId)
    && (forall i :: i in gone ==> exists k :: 0 <= k < |infos| && infos[k].dashboardId == i)
  }

  /** The plugin's stored dashboards that it no longer ships. */
  ghost function Gone(rows: Rows, orgId: int, pluginId: string, shipped: seq<Shipment>): set<nat> {
    set i | i in rows && Mine(rows[i], orgId, pluginId) && !ShipsSlug(shipped, rows[i].slug)
  }

  /** What GetPluginDashboards reports on a given state of the store. */
  ghost predicate Reports(rows: Rows, orgId: int, pluginId: string, shipped: seq<Shipment>, infos: seq<Info>) {
    && |shipped| <= |infos|
    && ReportsShipped(rows, orgId, pluginId, shipped, infos[..|shipped|])
    && ReportsRemoved(Gone(rows, orgId, pluginId, shipped), infos[|shipped|..])
  }

  /** The inner loop: fills in the stored dashboard that has the slug, and notes it as matched. */
  method MatchExisting(store: Store, ids: seq<nat>, orgId: int, pluginId: string, s: Shipment, matches: set<nat>)
    returns (res: Info, existingMatches: set<nat>)
    requires store.Valid()
    requires forall i :: i in ids <==> i in store.rows && Mine(store.rows[i], orgId, pluginId)
    ensures res.path == s.path && !res.removed && res.revision == s.file.revision
    ensures res.importedRevision == StoredRevision(store.rows, orgId, pluginId, s.file.slug)
    ensures Points(store.rows, orgId, pluginId, res, s.file.slug)
    ensures existingMatches == matches + set i | i in ids && store.rows[i].slug == s.file.slug
  {
    res := Info(s.path, 0, false, 0, s.file.revision, false);
    existingMatches := matches;
    for k := 0 to |ids|
      invariant res.path == s.path && !res.removed && res.revision == s.file.revision
      invariant res.imported <==> exists j :: 0 <= j < k && store.rows[ids[j]].slug == s.file.slug
      invariant res.imported ==> exists j :: 0 <= j < k && store.rows[ids[j]].slug == s.file.slug
                                             && res.importedRevision == store.rows[ids[j]].revision && res.dashboardId == ids[j]
      invariant !res.imported ==> res.importedRevision == 0 && res.dashboardId == 0
      invariant existingMatches == matches + set j | 0 <= j < k && store.rows[ids[j]].slug == s.file.slug :: ids[j]
    {
      var existing := store.rows[ids[k]];
      if existing.slug == s.file.slug {
        res := res.(dashboardId := ids[k], imported := true, importedRevision := existing.revision);
        existingMatches := existingMatches + {ids[k]};
      }
    }
    if i :| i in store.rows && Mine(store.rows[i], orgId, pluginId) && store.rows[i].slug == s.file.slug {
      assert i in ids;
    }
  }

  /** The first loop: one entry for each dashboard among the includes. */
  method ListShipped(store: Store, load: Loader, ids: seq<nat>, orgId: int, plugin: Plugin)
    returns (r: Option<seq<Info>>, existingMatches: set<nat>)
    requires store.Valid()
    requires forall i :: i in ids <==> i in store.rows && Mine(store.rows[i], orgId, plugin.id)
    ensures r.Some? <==> Shipped(load, plugin.id, plugin.includes).Some?
    ensures r.Some? ==>
              && ReportsShipped(store.rows, orgId, plugin.id, Shipped(load, plugin.id, plugin.includes).value, r.value)
              && forall i :: i in existingMatches <==> i in ids && ShipsSlug(Shipped(load, plugin.id, plugin.includes).value, store.rows[i].slug)
  {
    var result: seq<Info> := [];
    existingMatches := {};
    ghost var shipped: seq<Shipment> := [];
    for k := 0 to |plugin.includes|
      invariant Shipped(load, plugin.id, plugin.includes[..k]) == Some(shipped)
      invariant ReportsShipped(store.rows, orgId, plugin.id, shipped, result)
      invariant forall i :: i in existingMatches <==> i in ids && ShipsSlug(shipped, store.rows[i].slug)
    {
      var entry := plugin.includes[k];
      assert plugin.includes[..k + 1][..k] == plugin.includes[..k];
      if entry.kind != "dashboard" {
        continue;
      }
      var file := load(plugin.id, entry.path);
      if file.None? {
        MissingFileStops(load, plugin.id, plugin.includes, k + 1);
        return None, existingMatches;
      }
      var s := Shipment(entry.path, file.value);
      var res;
      res, existingMatches := MatchExisting(store, ids, orgId, plugin.id, s, existingMatches);
      result := result + [res];
      OneMoreShipped(shipped, s);
      shipped := shipped + [s];
    }
    assert plugin.includes[..|plugin.includes|] == plugin.includes;
    return Some(result), existingMatches;
  }

  lemma OneMoreShipped(shipped: seq<Shipment>, s: Shipment)
    ensures forall slug :: ShipsSlug(shipped + [s], slug) <==> ShipsSlug(shipped, slug) || slug == s.file.slug
  {
    forall slug
      ensures ShipsSlug(shipped + [s], slug) <==> ShipsSlug(shipped, slug) || slug == s.file.slug
    {
      if t :| t in shipped && t.file.slug == slug {
        assert t in shipped + [s];
      }
      assert s in shipped + [s];
    }
  }

  /** The second loop: one entry for each stored dashboard that matched nothing. */
  method ListRemoved(ids: seq<nat>, existingMatches: set<nat>) returns (infos: seq<Info>)
    requires Distinct(ids)
    ensures ReportsRemoved(Elems(ids) - existingMatches, infos)
  {
    infos := [];
    for k := 0 to |ids|
      invariant forall j :: 0 <= j < |infos| ==> infos[j].removed && infos[j].dashboardId in ids[..k] && infos[j].dashboardId !in existingMatches
      invariant forall i, j :: 0 <= i < j < |infos| ==> infos[i].dashboardId != infos[j].dashboardId
      invariant forall j :: 0 <= j < k && ids[j] !in existingMatches ==> exists m :: 0 <= m < |infos| && infos[m].dashboardId == ids[j]
    {
      ghost var before := infos;
      if ids[k] !in existingMatches {
        infos := infos + [Info("", ids[k], false, 0, 0, true)];
        assert infos[|before|].dashboardId == ids[k];
      }
      forall j | 0 <= j < k && ids[j] !in existingMatches
        ensures exists m :: 0 <= m < |infos| && infos[m].dashboardId == ids[j]
      {
        var m :| 0 <= m < |before| && before[m].dashboardId == ids[j];
        assert infos[m].dashboardId == ids[j];
      }
    }
  }

  /** Some dashboard among the includes has a file with this slug. */
  ghost predicate IncludesSlug(load: Loader, plugin: Plugin, slug: string) {
    exists i :: 0 <= i < |plugin.includes| && plugin.includes[i].kind == "dashboard"
                && load(plugin.id, plugin.includes[i].path).Some? && load(plugin.id, plugin.includes[i].path).value.slug == slug
  }

  /** An entry for the dashboard at this place of the includes. */
  ghost predicate TellsOf(rows: Rows, load: Loader, orgId: int, plugin: Plugin, place: nat, info: Info) {
    && place < |plugin.includes| && !info.removed && info.path == plugin.includes[place].path
    && load(plugin.id, info.path).Some?
    && var f := load(plugin.id, info.path).value;
       && info.revision == f.revision && Points(rows, orgId, plugin.id, info, f.slug)
       && info.importedRevision == if info.imported then rows[info.dashboardId].revision else 0
  }

  /** The report told by the includes: an entry for each dashboard among them, in order, then the stored ones no file of which is left. */
  ghost predicate ReportsIncludes(rows: Rows, load: Loader, orgId: int, plugin: Plugin, places: seq<nat>, infos: seq<Info>) {
    && |places| <= |infos|
    && (forall k :: 0 <= k < |places| ==> TellsOf(rows, load, orgId, plugin, places[k], infos[k]))
    && (forall k :: |places| <= k < |infos| ==> infos[k].removed)
    && forall id :: (id in rows && Mine(rows[id], orgId, plugin.id) && !IncludesSlug(load, plugin, rows[id].slug))
                    <==> exists k :: |places| <= k < |infos| && infos[k].dashboardId == id
  }

  ghost predicate Tells(rows: Rows, load: Loader, orgId: int, plugin: Plugin, infos: seq<Info>) {
    exists places :: ListsDashboards(plugin.includes, places) && ReportsIncludes(rows, load, orgId, plugin, places, infos)
  }

  lemma IncludedIffShipped(load: Loader, plugin: Plugin, places: seq<nat>, shipped: seq<Shipment>, slug: string)
    requires ListsDashboards(plugin.includes, places) && Ships(load, plugin.id, plugin.includes, places, shipped)
    ensures IncludesSlug(load, plugin, slug) <==> ShipsSlug(shipped, slug)
  {
    if s :| s in shipped && s.file.slug == slug {
      var k :| 0 <= k < |shipped| && shipped[k] == s;
      assert plugin.includes[places[k]].kind == "dashboard";
    }
    if i :| 0 <= i < |plugin.includes| && plugin.includes[i].kind == "dashboard"
            && load(plugin.id, plugin.includes[i].path).Some? && load(plugin.id, plugin.includes[i].path).value.slug == slug {
      var k :| 0 <= k < |places| && places[k] == i;
      assert shipped[k] in shipped && shipped[k].file.slug == slug;
    }
  }

  lemma ReportTellsOfIncludes(rows: Rows, load: Loader, orgId: int, plugin: Plugin, shipped: seq<Shipment>, infos: seq<Info>)
    requires Shipped(load, plugin.id, plugin.includes) == Some(shipped) && Reports(rows, orgId, plugin.id, shipped, infos)
    requires UniqueNames(rows)
    ensures Tells(rows, load, orgId, plugin, infos)
  {
    var places := ShippedAre(load, plugin.id, plugin.includes);
    var n := |shipped|;
    forall k | 0 <= k < |infos|
      ensures if k < n then TellsOf(rows, load, orgId, plugin, places[k], infos[k]) else infos[k].removed
    {
      if k < n {
        assert infos[..n][k] == infos[k];
      } else {
        assert infos[n..][k - n] == infos[k];
      }
    }
    forall id
      ensures (id in rows && Mine(rows[id], orgId, plugin.id) && !IncludesSlug(load, plugin, rows[id].slug))
              <==> exists k :: n <= k < |infos| && infos[k].dashboardId == id
    {
      if id in rows {
        IncludedIffShipped(load, plugin, places, shipped, rows[id].slug);
      }
      RemovedAre(Gone(rows, orgId, plugin.id, shipped), infos, n, id);
    }
    assert ReportsIncludes(rows, load, orgId, plugin, places, infos);
  }

  lemma RemovedAre(gone: set<nat>, infos: seq<Info>, n: nat, id: nat)
    requires n <= |infos| && ReportsRemoved(gone, infos[n..])
    ensures id in gone <==> exists k :: n <= k < |infos| && infos[k].dashboardId == id
  {
    var tail := infos[n..];
    if id in gone {
      var j :| 0 <= j < |tail| && tail[j].dashboardId == id;
      assert infos[n + j].dashboardId == id;
    }
    if k :| n <= k < |infos| && infos[k].dashboardId == id {
      assert tail[k - n].dashboardId == id;
    }
  }

  method GetPluginDashboards(store: Store, load: Loader, orgId: int, plugin: Plugin) returns (r: Option<seq<Info>>)
    requires store.Valid()
    modifies store`statements
    ensures r.Some? <==> !store.fails(old(store.statements)) && DashboardsLoad(load, plugin.id, plugin.includes)
    ensures r.Some? ==> Tells(store.rows, load, orgId, plugin, r.value)
    ensures r.Some? <==> !store.fails(old(store.statements)) && Shipped(load, plugin.id, plugin.includes).Some?
    ensures r.Some? ==> Reports(store.rows, orgId, plugin.id, Shipped(load, plugin.id, plugin.includes).value, r.value)
  {
    var queried := store.DashboardsByPlugin(orgId, plugin.id);
    ghost var _ := ShippedAre(load, plugin.id, plugin.includes);
    if queried.None? {
      return None;
    }
    var listed, existingMatches := ListShipped(store, load, queried.value, orgId, plugin);
    if listed.None? {
      return None;
    }
    var removed := ListRemoved(queried.value, existingMatches);
    ghost var shipped := Shipped(load, plugin.id, plugin.includes).value;
    assert Elems(queried.value) - existingMatches == Gone(store.rows, orgId, plugin.id, shipped);
    var all := listed.value + removed;
    assert all[..|shipped|] == listed.value && all[|shipped|..] == removed;
    ReportTellsOfIncludes(store.rows, load, orgId, plugin, shipped, all);
    return Some(all);
  }

  // ---------------------------------------------------------------- synchronising

  lemma StoredRevisionIs(rows: Rows, orgId: int, pluginId: string, i: nat)
    requires UniqueNames(rows) && i in rows && Mine(rows[i], orgId, pluginId)
    ensures StoredRevision(rows, orgId, pluginId, rows[i].slug) == rows[i].revision
  {
  }

  /** Saving sets the revision of its own slug and of no other. */
  lemma SaveSetsRevision(before: Rows, row: Row, after: Rows, slug: string)
    requires UniqueNames(before) && UniqueNames(after) && IsSaved(before, row, after)
    ensures StoredRevision(after, row.orgId, row.pluginId, slug)
         == if slug == row.slug then row.revision else StoredRevision(before, row.orgId, row.pluginId, slug)
  {
    var id :| IsSavedAt(before, row, after, id);
    if slug == row.slug {
      StoredRevisionIs(after, row.orgId, row.pluginId, id);
    } else {
      SameRevision(before, after, row.orgId, row.pluginId, slug);
    }
  }

  /** The revision of a slug depends only on the plugin's rows with that slug. */
  lemma SameRevision(r1: Rows, r2: Rows, orgId: int, pluginId: string, slug: string)
    requires UniqueNames(r1) && UniqueNames(r2)
    requires forall i :: (i in r1 && Mine(r1[i], orgId, pluginId) && r1[i].slug == slug)
                         <==> (i in r2 && Mine(r2[i], orgId, pluginId) && r2[i].slug == slug)
    requires forall i :: i in r1 && i in r2 && r1[i].slug == slug == r2[i].slug ==> r1[i].revision == r2[i].revision
    ensures StoredRevision(r1, orgId, pluginId, slug) == StoredRevision(r2, orgId, pluginId, slug)
  {
    if i :| i in r1 && Mine(r1[i], orgId, pluginId) && r1[i].slug == slug {
      StoredRevisionIs(r1, orgId, pluginId, i);
      StoredRevisionIs(r2, orgId, pluginId, i);
    }
  }

  /** Nothing to delete and nothing to import. */
  ghost predicate Settled(rows: Rows, orgId: int, pluginId: string, shipped: seq<Shipment>) {
    && Gone(rows, orgId, pluginId, shipped) == {}
    && forall k :: 0 <= k < |shipped| ==> StoredRevision(rows, orgId, pluginId, shipped[k].file.slug) == shipped[k].file.revision
  }

  /** Files with the same slug carry the same revision. */
  ghost predicate Consistent(shipped: seq<Shipment>) {
    forall k, l :: 0 <= k < |shipped| && 0 <= l < |shipped| && shipped[k].file.slug == shipped[l].file.slug
                   ==> shipped[k].file.revision == shipped[l].file.revision
  }

  /** How far a synchronisation has come after `k` reported entries, compared with the rows it started from. */
  ghost predicate Progress(rows0: Rows, rows: Rows, orgId: int, pluginId: string, shipped: seq<Shipment>, k: nat, gone: set<nat>) {
    && OthersProgress(rows0, rows, orgId, pluginId, shipped, gone)
    && RevisionProgress(rows0, rows, orgId, pluginId, shipped, k)
  }

  /** The revision a slug is stored at after the first `k` files: that of the last one not stored at the start. */
  ghost function RevisionAfter(rows0: Rows, orgId: int, pluginId: string, shipped: seq<Shipment>, k: nat, slug: string): int
    requires k <= |shipped|
  {
    if k == 0 then StoredRevision(rows0, orgId, pluginId, slug)
    else
      var f := shipped[k - 1].file;
      if f.slug == slug && f.revision != StoredRevision(rows0, orgId, pluginId, slug) then f.revision
      else RevisionAfter(rows0, orgId, pluginId, shipped, k - 1, slug)
  }

  ghost predicate RevisionProgress(rows0: Rows, rows: Rows, orgId: int, pluginId: string, shipped: seq<Shipment>, k: nat) {
    k <= |shipped| && forall j :: 0 <= j < |shipped| ==>
      StoredRevision(rows, orgId, pluginId, shipped[j].file.slug) == RevisionAfter(rows0, orgId, pluginId, shipped, k, shipped[j].file.slug)
  }

  /** With files that agree, the revision of a slug stays or is the one the files agree on. */
  lemma {:induction false} ConsistentRevision(rows0: Rows, orgId: int, pluginId: string, shipped: seq<Shipment>, k: nat, j: nat)
    requires Consistent(shipped) && k <= |shipped| && j < |shipped|
    ensures var f := shipped[j].file;
            var now := RevisionAfter(rows0, orgId, pluginId, shipped, k, f.slug);
            now == f.revision || (k <= j && now == StoredRevision(rows0, orgId, pluginId, f.slug))
  {
    if k > 0 {
      ConsistentRevision(rows0, orgId, pluginId, shipped, k - 1, j);
    }
  }

  ghost predicate OthersProgress(rows0: Rows, rows: Rows, orgId: int, pluginId: string, shipped: seq<Shipment>, gone: set<nat>) {
    && (forall i :: i in rows && !ShipsSlug(shipped, rows[i].slug) ==> i in rows0 && rows[i] == rows0[i] && i !in gone)
    && (forall i :: i in rows0 && i !in gone && !Outdated(rows0, orgId, pluginId, shipped, rows0[i]) ==> i in rows && rows[i] == rows0[i])
    && (forall i :: i in rows && !(i in rows0 && rows[i] == rows0[i]) ==> Mine(rows[i], orgId, pluginId))
  }

  /** The row stands where a shipped dashboard is to be imported: under its slug, whoever owns it. */
  ghost predicate Outdated(rows0: Rows, orgId: int, pluginId: string, shipped: seq<Shipment>, row: Row) {
    row.orgId == orgId && exists s :: s in shipped && s.file.slug == row.slug && s.file.revision != StoredRevision(rows0, orgId, pluginId, row.slug)
  }

  lemma SaveKeepsOthers(rows0: Rows, before: Rows, after: Rows, orgId: int, pluginId: string, shipped: seq<Shipment>, k: nat, gone: set<nat>)
    requires OthersProgress(rows0, before, orgId, pluginId, shipped, gone) && k < |shipped|
    requires StoredRevision(rows0, orgId, pluginId, shipped[k].file.slug) != shipped[k].file.revision
    requires IsSaved(before, Row(orgId, pluginId, shipped[k].file.slug, shipped[k].file.revision), after)
    ensures OthersProgress(rows0, after, orgId, pluginId, shipped, gone)
  {
    assert shipped[k] in shipped;
    assert ShipsSlug(shipped, shipped[k].file.slug);
  }

  lemma SaveProgresses(rows0: Rows, before: Rows, after: Rows, orgId: int, pluginId: string, shipped: seq<Shipment>, k: nat, gone: set<nat>)
    requires UniqueNames(before) && UniqueNames(after) && Progress(rows0, before, orgId, pluginId, shipped, k, gone) && k < |shipped|
    requires StoredRevision(rows0, orgId, pluginId, shipped[k].file.slug) != shipped[k].file.revision
    requires IsSaved(before, Row(orgId, pluginId, shipped[k].file.slug, shipped[k].file.revision), after)
    ensures Progress(rows0, after, orgId, pluginId, shipped, k + 1, gone)
  {
    SaveKeepsOthers(rows0, before, after, orgId, pluginId, shipped, k, gone);
    SaveProgressesRevisions(rows0, before, after, orgId, pluginId, shipped, k);
  }

  lemma SaveProgressesRevisions(rows0: Rows, before: Rows, after: Rows, orgId: int, pluginId: string, shipped: seq<Shipment>, k: nat)
    requires UniqueNames(before) && UniqueNames(after) && RevisionProgress(rows0, before, orgId, pluginId, shipped, k)
    requires k < |shipped| && StoredRevision(rows0, orgId, pluginId, shipped[k].file.slug) != shipped[k].file.revision
    requires IsSaved(before, Row(orgId, pluginId, shipped[k].file.slug, shipped[k].file.revision), after)
    ensures RevisionProgress(rows0, after, orgId, pluginId, shipped, k + 1)
  {
    var row := Row(orgId, pluginId, shipped[k].file.slug, shipped[k].file.revision);
    forall j | 0 <= j < |shipped|
      ensures StoredRevision(after, orgId, pluginId, shipped[j].file.slug)
           == if shipped[j].file.slug == row.slug then row.revision else StoredRevision(before, orgId, pluginId, shipped[j].file.slug)
    {
      SaveSetsRevision(before, row, after, shipped[j].file.slug);
    }
  }

  lemma SkipProgresses(rows0: Rows, rows: Rows, orgId: int, pluginId: string, shipped: seq<Shipment>, k: nat, gone: set<nat>)
    requires Progress(rows0, rows, orgId, pluginId, shipped, k, gone) && k < |shipped|
    requires StoredRevision(rows0, orgId, pluginId, shipped[k].file.slug) == shipped[k].file.revision
    ensures Progress(rows0, rows, orgId, pluginId, shipped, k + 1, gone)
  {
  }

  lemma DeleteProgresses(rows0: Rows, before: Rows, after: Rows, orgId: int, pluginId: string, shipped: seq<Shipment>, k: nat, gone: set<nat>, id: nat)
    requires UniqueNames(before) && UniqueNames(after) && Progress(rows0, before, orgId, pluginId, shipped, k, gone)
    requires id in Gone(rows0, orgId, pluginId, shipped) && id !in gone && after == before - {id}
    ensures Progress(rows0, after, orgId, pluginId, shipped, k, gone + {id})
  {
    forall j | 0 <= j < |shipped|
      ensures StoredRevision(after, orgId, pluginId, shipped[j].file.slug) == StoredRevision(before, orgId, pluginId, shipped[j].file.slug)
    {
      assert shipped[j] in shipped;
      SameRevision(before, after, orgId, pluginId, shipped[j].file.slug);
    }
  }

  /** Loads the file again and saves what its template evaluates to; a template that asks for inputs is refused. */
  method AutoUpdateAppDashboard(store: Store, load: Loader, orgId: int, pluginId: string, path: string) returns (ok: bool)
    requires store.Valid()
    modifies store`statements, store`rows, store`unusedId, store`imports
    ensures store.Valid()
    ensures ok <==> load(pluginId, path).Some? && !load(pluginId, path).value.hasInputs && !store.fails(old(store.statements))
    ensures !ok ==> store.rows == old(store.rows) && store.imports == old(store.imports)
    ensures ok ==> store.imports == old(store.imports) + 1
                   && var f := load(pluginId, path).value; IsSaved(old(store.rows), Row(orgId, pluginId, f.slug, f.revision), store.rows)
  {
    var file := load(pluginId, path);
    if file.None? || file.value.hasInputs {
      return false;
    }
    ok := store.SaveBySlug(Row(orgId, pluginId, file.value.slug, file.value.revision));
  }

  /** The dashboards the entries from `n` up to `k` ask to remove. */
  ghost function Dropped(infos: seq<Info>, n: nat, k: nat): set<nat>
    requires k <= |infos|
  {
    set j | n <= j < k :: infos[j].dashboardId
  }

  lemma RemovedEntry(rows0: Rows, orgId: int, pluginId: string, shipped: seq<Shipment>, infos: seq<Info>, k: nat)
    requires Reports(rows0, orgId, pluginId, shipped, infos) && k < |infos|
    ensures infos[k].removed <==> k >= |shipped|
    ensures infos[k].removed ==> infos[k].dashboardId in Gone(rows0, orgId, pluginId, shipped)
                                 && infos[k].dashboardId !in Dropped(infos, |shipped|, k)
                                 && Dropped(infos, |shipped|, k + 1) == Dropped(infos, |shipped|, k) + {infos[k].dashboardId}
    ensures !infos[k].removed ==> Dropped(infos, |shipped|, k + 1) == Dropped(infos, |shipped|, k) == {}
    ensures !infos[k].removed ==> infos[k].path == shipped[k].path && infos[k].revision == shipped[k].file.revision
                                  && infos[k].importedRevision == StoredRevision(rows0, orgId, pluginId, shipped[k].file.slug)
  {
    var n := |shipped|;
    if k < n {
      assert infos[..n][k] == infos[k];
    } else {
      assert infos[n..][k - n] == infos[k];
      assert forall j :: n <= j < k ==> infos[n..][j - n] == infos[j];
    }
  }

  /** The file is to be imported, but asks for inputs that nobody gives. */
  ghost predicate BlockedAt(rows0: Rows, orgId: int, pluginId: string, shipped: seq<Shipment>, k: nat)
    requires k < |shipped|
  {
    shipped[k].file.hasInputs && StoredRevision(rows0, orgId, pluginId, shipped[k].file.slug) != shipped[k].file.revision
  }

  ghost predicate Blocked(rows0: Rows, orgId: int, pluginId: string, shipped: seq<Shipment>) {
    exists k: nat :: k < |shipped| && BlockedAt(rows0, orgId, pluginId, shipped, k)
  }

  /** One round of the loop over the reported entries. */
  method ApplyInfo(store: Store, load: Loader, orgId: int, pluginId: string, ghost rows0: Rows, ghost shipped: seq<Shipment>,
                   infos: seq<Info>, k: nat)
    returns (ok: bool)
    requires store.Valid() && k < |infos|
    requires Reports(rows0, orgId, pluginId, shipped, infos) && forall s :: s in shipped ==> load(pluginId, s.path) == Some(s.file)
    requires Progress(rows0, store.rows, orgId, pluginId, shipped, if k < |shipped| then k else |shipped|, Dropped(infos, |shipped|, k))
    modifies store`statements, store`rows, store`unusedId, store`deletes, store`imports
    ensures store.Valid()
    ensures ok ==> Progress(rows0, store.rows, orgId, pluginId, shipped, if k + 1 < |shipped| then k + 1 else |shipped|, Dropped(infos, |shipped|, k + 1))
    ensures k < |shipped| && BlockedAt(rows0, orgId, pluginId, shipped, k) ==> !ok
    ensures store.Reliable() && !(k < |shipped| && BlockedAt(rows0, orgId, pluginId, shipped, k)) ==> ok
    ensures !ok || Settled(rows0, orgId, pluginId, shipped)
            ==> store.rows == old(store.rows) && store.deletes == old(store.deletes) && store.imports == old(store.imports)
  {
    RemovedEntry(rows0, orgId, pluginId, shipped, infos, k);
    var dash := infos[k];
    if dash.removed {
      assert dash.dashboardId in store.rows && store.rows[dash.dashboardId] == rows0[dash.dashboardId];
      ok := store.DeleteDashboard(orgId, dash.dashboardId);
      if ok {
        DeleteProgresses(rows0, old(store.rows), store.rows, orgId, pluginId, shipped, |shipped|, Dropped(infos, |shipped|, k), dash.dashboardId);
      }
      return;
    }
    assert shipped[k] in shipped;
    if dash.importedRevision != dash.revision {
      ok := AutoUpdateAppDashboard(store, load, orgId, pluginId, dash.path);
      if ok {
        SaveProgresses(rows0, old(store.rows), store.rows, orgId, pluginId, shipped, k, Dropped(infos, |shipped|, k));
      }
      return;
    }
    SkipProgresses(rows0, store.rows, orgId, pluginId, shipped, k, Dropped(infos, |shipped|, k));
    return true;
  }

  /** The loop over the reported entries; the first failure ends it. */
  method ApplyInfos(store: Store, load: Loader, orgId: int, pluginId: string, ghost shipped: seq<Shipment>, infos: seq<Info>)
    returns (ok: bool, ghost k: nat)
    requires store.Valid() && Reports(store.rows, orgId, pluginId, shipped, infos)
    requires forall s :: s in shipped ==> load(pluginId, s.path) == Some(s.file)
    modifies store`statements, store`rows, store`unusedId, store`deletes, store`imports
    ensures store.Valid() && k <= |infos| && (ok ==> k == |infos|)
    ensures ok ==> !Blocked(old(store.rows), orgId, pluginId, shipped)
    ensures store.Reliable() && !Blocked(old(store.rows), orgId, pluginId, shipped) ==> ok
    ensures Dropped(infos, |shipped|, k) <= Gone(old(store.rows), orgId, pluginId, shipped)
    ensures Progress(old(store.rows), store.rows, orgId, pluginId, shipped, if k < |shipped| then k else |shipped|, Dropped(infos, |shipped|, k))
    ensures Settled(old(store.rows), orgId, pluginId, shipped)
            ==> store.rows == old(store.rows) && store.deletes == old(store.deletes) && store.imports == old(store.imports)
  {
    ghost var rows0 := store.rows;
    for i := 0 to |infos|
      invariant store.Valid()
      invariant Dropped(infos, |shipped|, i) <= Gone(rows0, orgId, pluginId, shipped)
      invariant forall j: nat :: j < i && j < |shipped| ==> !BlockedAt(rows0, orgId, pluginId, shipped, j)
      invariant Progress(rows0, store.rows, orgId, pluginId, shipped, if i < |shipped| then i else |shipped|, Dropped(infos, |shipped|, i))
      invariant Settled(rows0, orgId, pluginId, shipped)
                ==> store.rows == rows0 && store.deletes == old(store.deletes) && store.imports == old(store.imports)
    {
      RemovedEntry(rows0, orgId, pluginId, shipped, infos, i);
      ok := ApplyInfo(store, load, orgId, pluginId, rows0, shipped, infos, i);
      if !ok {
        return false, i;
      }
    }
    return true, |infos|;
  }

  /**
   * One synchronisation. `marked` tells whether the version marker was written. That happens only after every deletion
   * and import, and with no failing statement exactly if the files load, there is a setting to mark, and no file to be
   * imported asks for inputs. The marker of no other plugin ever changes. After a marked run the store is settled,
   * exactly if files with the same slug agree on the revision. Marked or not, a run only ever removes dashboards that
   * are no longer shipped and overwrites rows of its organisation under a slug that is shipped at another revision. A
   * run on a settled store deletes and imports nothing.
   */
  method SyncPluginDashboards(store: Store, load: Loader, orgId: int, plugin: Plugin) returns (marked: bool)
    requires store.Valid()
    modifies store
    ensures store.Valid()
    ensures !marked ==> store.settings == old(store.settings)
    ensures marked ==> Marked(load, orgId, plugin, old(store.settings), store.settings, old(store.rows), store.rows)
    ensures store.Reliable() ==> (marked <==> CanMark(load, orgId, plugin, old(store.settings), old(store.rows)))
    ensures marked ==> CanMark(load, orgId, plugin, old(store.settings), old(store.rows))
    ensures Synchronised(load, orgId, plugin, old(store.rows), store.rows)
    ensures Shipped(load, plugin.id, plugin.includes).Some?
            && Settled(old(store.rows), orgId, plugin.id, Shipped(load, plugin.id, plugin.includes).value)
            ==> store.rows == old(store.rows) && store.deletes == old(store.deletes) && store.imports == old(store.imports)
  {
    var dashboards := GetPluginDashboards(store, load, orgId, plugin);
    if dashboards.None? {
      return false;
    }
    marked := ApplyReport(store, load, orgId, plugin, dashboards.value);
  }

  /** The rest of a synchronisation, once the report is there. */
  method ApplyReport(store: Store, load: Loader, orgId: int, plugin: Plugin, infos: seq<Info>) returns (marked: bool)
    requires store.Valid() && Shipped(load, plugin.id, plugin.includes).Some?
    requires Reports(store.rows, orgId, plugin.id, Shipped(load, plugin.id, plugin.includes).value, infos)
    modifies store
    ensures store.Valid()
    ensures !marked ==> store.settings == old(store.settings)
    ensures marked ==> Marked(load, orgId, plugin, old(store.settings), store.settings, old(store.rows), store.rows)
    ensures store.Reliable() ==> (marked <==> CanMark(load, orgId, plugin, old(store.settings), old(store.rows)))
    ensures marked ==> CanMark(load, orgId, plugin, old(store.settings), old(store.rows))
    ensures Synchronised(load, orgId, plugin, old(store.rows), store.rows)
    ensures Settled(old(store.rows), orgId, plugin.id, Shipped(load, plugin.id, plugin.includes).value)
            ==> store.rows == old(store.rows) && store.deletes == old(store.deletes) && store.imports == old(store.imports)
  {
    ghost var rows0 := store.rows;
    ghost var shipped := Shipped(load, plugin.id, plugin.includes).value;
    ShippedLoads(load, plugin.id, plugin.includes);
    var ok, k := ApplyInfos(store, load, orgId, plugin.id, shipped, infos);
    if !ok {
      return false;
    }
    NothingGone(rows0, store.rows, orgId, plugin.id, shipped, infos);
    SettledIffConsistent(rows0, store.rows, orgId, plugin.id, shipped, Dropped(infos, |shipped|, |infos|));
    var setting := store.GetSetting(orgId, plugin.id);
    if setting.None? {
      return false;
    }
    marked := store.MarkVersion(orgId, plugin.id, plugin.version);
  }

  /** The files load, there is a setting, and no file to be imported asks for inputs. */
  ghost predicate CanMark(load: Loader, orgId: int, plugin: Plugin, settings: Settings, rows: Rows) {
    && (orgId, plugin.id) in settings
    && var shipped := Shipped(load, plugin.id, plugin.includes);
       shipped.Some? && !Blocked(rows, orgId, plugin.id, shipped.value)
  }

  /**
   * The marker says the installed version, all that is no longer shipped is gone, each slug is stored at the revision of
   * the last file that was to be imported, and the rows are settled if that is possible at all.
   */
  ghost predicate Marked(load: Loader, orgId: int, plugin: Plugin, before: Settings, after: Settings, rows0: Rows, rows: Rows) {
    && (orgId, plugin.id) in before
    && after == before[(orgId, plugin.id) := before[(orgId, plugin.id)].(version := plugin.version)]
    && var shipped := Shipped(load, plugin.id, plugin.includes);
       && shipped.Some? && Gone(rows, orgId, plugin.id, shipped.value) == {}
       && RevisionProgress(rows0, rows, orgId, plugin.id, shipped.value, |shipped.value|)
       && (Settled(rows, orgId, plugin.id, shipped.value) <==> Consistent(shipped.value))
  }

  /**
   * What a marked run leaves, told by the includes: every stored dashboard of the plugin has a file among them, and if files
   * of one slug agree, each dashboard among them is stored at the revision of its file.
   */
  lemma MarkedByIncludes(load: Loader, orgId: int, plugin: Plugin, before: Settings, after: Settings, rows0: Rows, rows: Rows)
    requires Marked(load, orgId, plugin, before, after, rows0, rows)
    ensures forall id :: id in rows && Mine(rows[id], orgId, plugin.id) ==> IncludesSlug(load, plugin, rows[id].slug)
    ensures IncludesAgree(load, plugin) ==>
              forall i :: 0 <= i < |plugin.includes| && plugin.includes[i].kind == "dashboard" ==> StoredAsIncluded(rows, load, orgId, plugin, i)
  {
    var shipped := Shipped(load, plugin.id, plugin.includes).value;
    var places := ShippedAre(load, plugin.id, plugin.includes);
    forall id | id in rows && Mine(rows[id], orgId, plugin.id)
      ensures IncludesSlug(load, plugin, rows[id].slug)
    {
      IncludedIffShipped(load, plugin, places, shipped, rows[id].slug);
      assert id !in Gone(rows, orgId, plugin.id, shipped);
    }
    if IncludesAgree(load, plugin) {
      assert Consistent(shipped) by {
        forall k, l | 0 <= k < |shipped| && 0 <= l < |shipped| && shipped[k].file.slug == shipped[l].file.slug
          ensures shipped[k].file.revision == shipped[l].file.revision
        {
          assert SameIncluded(load, plugin, places[k], places[l]);
        }
      }
      forall i | 0 <= i < |plugin.includes| && plugin.includes[i].kind == "dashboard"
        ensures StoredAsIncluded(rows, load, orgId, plugin, i)
      {
        var k :| 0 <= k < |places| && places[k] == i;
        assert StoredRevision(rows, orgId, plugin.id, shipped[k].file.slug) == shipped[k].file.revision;
      }
    }
  }

  ghost predicate StoredAsIncluded(rows: Rows, load: Loader, orgId: int, plugin: Plugin, i: nat)
    requires i < |plugin.includes|
  {
    var file := load(plugin.id, plugin.includes[i].path);
    file.Some? && StoredRevision(rows, orgId, plugin.id, file.value.slug) == file.value.revision
  }

  /** Two files of one slug among the includes carry one revision. */
  ghost predicate SameIncluded(load: Loader, plugin: Plugin, i: nat, j: nat) {
    i < |plugin.includes| && j < |plugin.includes| ==>
      var f, g := load(plugin.id, plugin.includes[i].path), load(plugin.id, plugin.includes[j].path);
      f.Some? && g.Some? && f.value.slug == g.value.slug ==> f.value.revision == g.value.revision
  }

  ghost predicate IncludesAgree(load: Loader, plugin: Plugin) {
    forall i: nat, j: nat :: i < |plugin.includes| && j < |plugin.includes| && plugin.includes[i].kind == plugin.includes[j].kind == "dashboard"
                             ==> SameIncluded(load, plugin, i, j)
  }

  /** What a synchronisation, complete or not, may have done to the rows. */
  ghost predicate Synchronised(load: Loader, orgId: int, plugin: Plugin, before: Rows, after: Rows) {
    && (forall i :: i in after && !(i in before && after[i] == before[i]) ==> Mine(after[i], orgId, plugin.id))
    && match Shipped(load, plugin.id, plugin.includes)
       case None => after == before
       case Some(shipped) => OnlyOutdatedChange(before, after, orgId, plugin.id, shipped)
  }

  /** Rows are as before unless they were to go or stood where something is to be imported. */
  ghost predicate OnlyOutdatedChange(before: Rows, after: Rows, orgId: int, pluginId: string, shipped: seq<Shipment>) {
    forall i :: i in before && i !in Gone(before, orgId, pluginId, shipped) && !Outdated(before, orgId, pluginId, shipped, before[i])
                ==> i in after && after[i] == before[i]
  }

  lemma NothingGone(rows0: Rows, rows: Rows, orgId: int, pluginId: string, shipped: seq<Shipment>, infos: seq<Info>)
    requires Reports(rows0, orgId, pluginId, shipped, infos)
    requires Progress(rows0, rows, orgId, pluginId, shipped, |shipped|, Dropped(infos, |shipped|, |infos|))
    ensures Gone(rows, orgId, pluginId, shipped) == {}
    ensures Dropped(infos, |shipped|, |infos|) == Gone(rows0, orgId, pluginId, shipped)
  {
    var tail := infos[|shipped|..];
    forall i
      ensures i in Dropped(infos, |shipped|, |infos|) <==> i in Gone(rows0, orgId, pluginId, shipped)
    {
      if i in Gone(rows0, orgId, pluginId, shipped) {
        var k :| 0 <= k < |tail| && tail[k].dashboardId == i;
        assert infos[|shipped| + k].dashboardId == i;
      }
      if j :| |shipped| <= j < |infos| && infos[j].dashboardId == i {
        assert tail[j - |shipped|].dashboardId == i;
      }
    }
  }

  lemma SettledIffConsistent(rows0: Rows, rows: Rows, orgId: int, pluginId: string, shipped: seq<Shipment>, gone: set<nat>)
    requires Progress(rows0, rows, orgId, pluginId, shipped, |shipped|, gone) && Gone(rows, orgId, pluginId, shipped) == {}
    ensures Settled(rows, orgId, pluginId, shipped) <==> Consistent(shipped)
  {
    if Consistent(shipped) {
      forall j | 0 <= j < |shipped|
        ensures StoredRevision(rows, orgId, pluginId, shipped[j].file.slug) == shipped[j].file.revision
      {
        ConsistentRevision(rows0, orgId, pluginId, shipped, |shipped|, j);
      }
    }
  }

  /** A store with a file blocked is not settled. */
  lemma BlockedIsUnsettled(rows: Rows, orgId: int, pluginId: string, shipped: seq<Shipment>)
    requires Blocked(rows, orgId, pluginId, shipped)
    ensures !Settled(rows, orgId, pluginId, shipped)
  {
  }

  /** Agreement is not enough: one new dashboard that asks for inputs. */
  lemma InputsBlock(orgId: int, pluginId: string) returns (shipped: seq<Shipment>)
    ensures Consistent(shipped) && Blocked(map[], orgId, pluginId, shipped) && !Settled(map[], orgId, pluginId, shipped)
  {
    shipped := [Shipment("dashboard.json", File("slug", 1, true))];
    assert BlockedAt(map[], orgId, pluginId, shipped, 0);
  }

  /** On a settled store a report has no removed entry and no differing revision, and conversely. */
  lemma SettledMeansQuietReport(rows: Rows, orgId: int, pluginId: string, shipped: seq<Shipment>, infos: seq<Info>)
    requires Reports(rows, orgId, pluginId, shipped, infos)
    ensures Settled(rows, orgId, pluginId, shipped)
            <==> forall k :: 0 <= k < |infos| ==> !infos[k].removed && infos[k].importedRevision == infos[k].revision
  {
    forall k | 0 <= k < |infos|
      ensures infos[k].removed ==> infos[k].dashboardId in Gone(rows, orgId, pluginId, shipped)
      ensures !infos[k].removed ==> k < |shipped| && infos[k].revision == shipped[k].file.revision
                                    && infos[k].importedRevision == StoredRevision(rows, orgId, pluginId, shipped[k].file.slug)
      ensures k < |shipped| ==> !infos[k].removed
    {
      RemovedEntry(rows, orgId, pluginId, shipped, infos, k);
    }
    var tail := infos[|shipped|..];
    forall i | i in Gone(rows, orgId, pluginId, shipped)
      ensures exists k :: |shipped| <= k < |infos| && infos[k].removed
    {
      var k :| 0 <= k < |tail| && tail[k].dashboardId == i;
      assert infos[|shipped| + k].removed;
    }
  }

  /**
   * Two runs, and what the second one does to the dashboards. It does nothing straight after a marked run whose files
   * agree on the revision of a slug.
   */
  method SyncTwice(store: Store, load: Loader, orgId: int, plugin: Plugin) returns (first: bool, between: Rows, deleted: int, imported: int)
    requires store.Valid()
    modifies store
    ensures first ==> Shipped(load, plugin.id, plugin.includes).Some?
    ensures first && Consistent(Shipped(load, plugin.id, plugin.includes).value)
            ==> store.rows == between && deleted == imported == 0 && Settled(store.rows, orgId, plugin.id, Shipped(load, plugin.id, plugin.includes).value)
  {
    first := SyncPluginDashboards(store, load, orgId, plugin);
    between := store.rows;
    var deletes, imports := store.deletes, store.imports;
    var second := SyncPluginDashboards(store, load, orgId, plugin);
    deleted, imported := store.deletes - deletes, store.imports - imports;
  }

  // ---------------------------------------------------------------- the callers

  /** A plugin that was switched off loses its dashboards, all of them on success; one that was switched on is synchronised. */
  method HandlePluginStateChanged(store: Store, load: Loader, orgId: int, plugin: Plugin, enabled: bool) returns (ok: bool)
    requires store.Valid()
    modifies store
    ensures store.Valid()
    ensures !enabled && store.Reliable() ==> ok
    ensures !enabled && ok ==> store.rows == map i | i in old(store.rows) && !Mine(old(store.rows)[i], orgId, plugin.id) :: old(store.rows)[i]
    ensures !enabled ==> store.settings == old(store.settings) && OnlyMineGone(old(store.rows), store.rows, orgId, plugin.id)
    ensures enabled ==> ok && Synchronised(load, orgId, plugin, old(store.rows), store.rows)
    ensures enabled ==> store.settings == old(store.settings)
                        || Marked(load, orgId, plugin, old(store.settings), store.settings, old(store.rows), store.rows)
    ensures enabled && store.Reliable() && CanMark(load, orgId, plugin, old(store.settings), old(store.rows))
            ==> Marked(load, orgId, plugin, old(store.settings), store.settings, old(store.rows), store.rows)
    ensures enabled && store.Reliable() && !CanMark(load, orgId, plugin, old(store.settings), old(store.rows))
            ==> store.settings == old(store.settings)
  {
    if enabled {
      var _ := SyncPluginDashboards(store, load, orgId, plugin);
      return true;
    }
    var queried := store.DashboardsByPlugin(orgId, plugin.id);
    if queried.None? {
      return false;
    }
    var ids := queried.value;
    for k := 0 to |ids|
      invariant store.Valid() && store.settings == old(store.settings)
      invariant store.rows == map i | i in old(store.rows) && i !in ids[..k] :: old(store.rows)[i]
    {
      assert ids[k] !in ids[..k] && ids[k] in old(store.rows);
      var deleted := store.DeleteDashboard(orgId, ids[k]);
      if !deleted {
        return false;
      }
      assert forall i :: i in ids[..k + 1] <==> i in ids[..k] || i == ids[k];
    }
    assert ids[..|ids|] == ids;
    return true;
  }

  /** Nothing is new, and what is missing was the plugin's. */
  ghost predicate OnlyMineGone(before: Rows, after: Rows, orgId: int, pluginId: string) {
    && (forall i :: i in after ==> i in before && after[i] == before[i])
    && forall i :: i in before && !Mine(before[i], orgId, pluginId) ==> i in after
  }

  ghost predicate UpToDate(plugins: map<string, Plugin>, key: (int, string), setting: Setting) {
    !setting.enabled || key.1 !in plugins || plugins[key.1].version == setting.version
  }

  ghost predicate KeptOrMarked(plugins: map<string, Plugin>, key: (int, string), before: Setting, after: Setting) {
    after == before || (!UpToDate(plugins, key, before) && after == before.(version := plugins[key.1].version))
  }

  /** The plugin of the setting is enabled, installed, and not up to date. */
  ghost predicate Due(plugins: map<string, Plugin>, settings: Settings, key: (int, string)) {
    key in settings && !UpToDate(plugins, key, settings[key])
  }

  /** A row that may be deleted or overwritten: it belongs to a plugin that is due, or stands under a slug that one ships. */
  ghost predicate MayChange(load: Loader, plugins: map<string, Plugin>, settings: Settings, row: Row) {
    exists key :: Due(plugins, settings, key) && key.0 == row.orgId && (row.pluginId == key.1 || PluginShips(load, plugins[key.1], row.slug))
  }

  /** The plugin's dashboard files load, and none asks for inputs. */
  ghost predicate AsksNothing(load: Loader, plugin: Plugin) {
    var shipped := Shipped(load, plugin.id, plugin.includes);
    shipped.Some? && forall s :: s in shipped.value ==> !s.file.hasInputs
  }

  /** Every plugin that was due, except those still left, has its installed version marked if its files ask for nothing. */
  ghost predicate DueAreMarked(load: Loader, plugins: map<string, Plugin>, before: Settings, after: Settings, left: set<(int, string)>)
    requires after.Keys == before.Keys
  {
    forall key :: Due(plugins, before, key) && key !in left && AsksNothing(load, plugins[key.1])
                  ==> after[key].version == plugins[key.1].version
  }

  ghost predicate PluginShips(load: Loader, plugin: Plugin, slug: string) {
    var shipped := Shipped(load, plugin.id, plugin.includes);
    shipped.Some? && ShipsSlug(shipped.value, slug)
  }

  /** Every other row is as before, and what is new belongs to a plugin that is due. */
  ghost predicate OnlyDueChange(load: Loader, plugins: map<string, Plugin>, settings: Settings, before: Rows, after: Rows) {
    && (forall i :: i in before && !MayChange(load, plugins, settings, before[i]) ==> i in after && after[i] == before[i])
    && forall i :: i in after && !(i in before && after[i] == before[i])
                   ==> exists key :: Due(plugins, settings, key) && Mine(after[i], key.0, key.1)
  }

  lemma SyncChangesOnlyDue(load: Loader, plugins: map<string, Plugin>, settings: Settings, key: (int, string), rows0: Rows, before: Rows, after: Rows)
    requires OnlyDueChange(load, plugins, settings, rows0, before) && Due(plugins, settings, key) && plugins[key.1].id == key.1
    requires Synchronised(load, key.0, plugins[key.1], before, after)
    ensures OnlyDueChange(load, plugins, settings, rows0, after)
  {
    forall i | i in rows0 && !MayChange(load, plugins, settings, rows0[i])
      ensures i in after && after[i] == rows0[i]
    {
      assert before[i] == rows0[i];
      assert !(key.0 == rows0[i].orgId && (rows0[i].pluginId == key.1 || PluginShips(load, plugins[key.1], rows0[i].slug)));
    }
  }

  /**
   * Synchronises every enabled plugin whose marker is not its installed version. A marker is only ever moved to
   * the installed version; no row changes but those of plugins that were due and those in the way of what they ship.
   * With no failing statement, every plugin that was due and whose files load and ask for nothing ends up marked.
   */
  method UpdateAppDashboards(store: Store, load: Loader, plugins: map<string, Plugin>)
    requires store.Valid() && forall id :: id in plugins ==> plugins[id].id == id
    modifies store
    ensures store.Valid() && store.settings.Keys == old(store.settings).Keys
    ensures forall key :: key in store.settings ==> KeptOrMarked(plugins, key, old(store.settings)[key], store.settings[key])
    ensures (forall key :: key in old(store.settings) ==> UpToDate(plugins, key, old(store.settings)[key]))
            ==> store.rows == old(store.rows) && store.deletes == old(store.deletes) && store.imports == old(store.imports)
    ensures OnlyDueChange(load, plugins, old(store.settings), old(store.rows), store.rows)
    ensures store.Reliable() ==> DueAreMarked(load, plugins, old(store.settings), store.settings, {})
    ensures forall key :: key in store.settings && store.settings[key] != old(store.settings)[key]
              ==> && old(store.settings)[key].enabled && key.1 in plugins
                  && store.settings[key] == old(store.settings)[key].(version := plugins[key.1].version)
    ensures store.Reliable() ==>
              forall key :: key in store.settings && store.settings[key].enabled && key.1 in plugins && AsksNothing(load, plugins[key.1])
                            ==> store.settings[key].version == plugins[key.1].version
  {
    var ok := store.Attempt();
    if !ok {
      return;
    }
    var queried := store.settings;
    var left := queried.Keys;
    while left != {}
      invariant left <= queried.Keys && store.Valid() && store.settings.Keys == queried.Keys
      invariant forall key :: key in left ==> store.settings[key] == queried[key]
      invariant forall key :: key in queried ==> KeptOrMarked(plugins, key, queried[key], store.settings[key])
      invariant (forall key :: key in queried ==> UpToDate(plugins, key, queried[key]))
                ==> store.rows == old(store.rows) && store.deletes == old(store.deletes) && store.imports == old(store.imports)
      invariant OnlyDueChange(load, plugins, queried, old(store.rows), store.rows)
      invariant store.Reliable() ==> DueAreMarked(load, plugins, queried, store.settings, left)
    {
      var key :| key in left;
      left := left - {key};
      if !queried[key].enabled {
        continue;
      }
      if key.1 in plugins && plugins[key.1].version != queried[key].version {
        assert !UpToDate(plugins, key, queried[key]);
        ghost var before := store.rows;
        var _ := SyncPluginDashboards(store, load, key.0, plugins[key.1]);
        SyncChangesOnlyDue(load, plugins, queried, key, old(store.rows), before, store.rows);
      }
    }
  }
}
