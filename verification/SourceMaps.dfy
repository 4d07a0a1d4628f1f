/**
 * Source maps of front-end code (pkg/api/frontendlogging/source_maps.go): where the map of a source should be, and
 * a store that keeps what was found and what was found missing.
 */
module SourceMaps {
  import opened Prelude

  // ---------------------------------------------------------------- strings

  /** Where `sub` first occurs in `s`. */
  function Find(s: string, sub: string): (at: Option<nat>)
    ensures at.Some? ==> at.value <= |s| && sub <= s[at.value..] && forall k :: 0 <= k < at.value ==> !(sub <= s[k..])
    ensures at.None? ==> forall k :: 0 <= k <= |s| ==> !(sub <= s[k..])
  {
    if sub <= s then
      assert s[0..] == s;
      Some(0)
    else if s == [] then None
    else
      assert forall k :: 0 < k <= |s| ==> s[k..] == s[1..][k - 1..];
      match Find(s[1..], sub)
      case None => None
      case Some(k) => Some(k + 1)
  }

  predicate Contains(s: string, sub: string) {
    Find(s, sub).Some?
  }

  /** `s` without the occurrences of `sub`, taken from the left. */
  function Without(s: string, sub: string): string
    requires sub != ""
  {
    if s == "" then ""
    else if sub <= s then Without(s[|sub|..], sub)
    else [s[0]] + Without(s[1..], sub)
  }

  // ---------------------------------------------------------------- where a source map should be

  datatype Route = Route(pluginId: string, directory: string)

  datatype Location = Location(dir: string, path: string, pluginID: string)

  datatype SourceMap = SourceMap(consumer: string, pluginID: string)

  datatype ReadResult = Content(text: string) | NotExist | Failed(error: string)

  /**
   * What a lookup depends on: the configuration, the routes of plugins, the file system and the parsers. `join` is
   * the joining of file paths.
   */
  datatype Env = Env(
    urlPath: string -> Result<string, string>,
    join: (string, string) -> string,
    cdnRootURL: Option<string>,
    staticRootPath: string,
    staticRoutes: seq<Route>,
    readSourceMap: (string, string) -> ReadResult,
    parse: (string, string) -> Result<string, string>)

  const BuildPath := "/public/build/"
  const PluginsPath := "/public/plugins/"

  predicate FromBuild(env: Env, sourceURL: string, path: string) {
    BuildPath <= path || (env.cdnRootURL.Some? && env.cdnRootURL.value <= sourceURL && Contains(path, BuildPath))
  }

  predicate Serves(env: Env, route: Route, path: string) {
    env.join(PluginsPath, route.pluginId) <= path
  }

  function RouteLocation(env: Env, route: Route, path: string): Location
    requires Serves(env, route, path)
  {
    Location(route.directory, path[|env.join(PluginsPath, route.pluginId)|..] + ".map", route.pluginId)
  }

  function PluginLocation(env: Env, routes: seq<Route>, path: string): Option<Location> {
    if routes == [] then None
    else if Serves(env, routes[0], path) then Some(RouteLocation(env, routes[0], path))
    else PluginLocation(env, routes[1..], path)
  }

  function Guess(env: Env, sourceURL: string): Result<Option<Location>, string> {
    match env.urlPath(sourceURL)
    case Err(e) => Err(e)
    case Ok(path) =>
      if FromBuild(env, sourceURL, path) then
        var at := Find(path, BuildPath);
        if at.Some? then
          Ok(Some(Location(env.staticRootPath, env.join("build", path[at.value + |BuildPath|..] + ".map"), "")))
        else Ok(None)
      else if PluginsPath <= path then Ok(PluginLocation(env, env.staticRoutes, path))
      else Ok(None)
  }

  method GuessSourceMapLocation(env: Env, sourceURL: string) returns (r: Result<Option<Location>, string>)
    ensures r == Guess(env, sourceURL)
  {
    var parsed := env.urlPath(sourceURL);
    if parsed.Err? {
      return Err(parsed.error);
    }
    var path := parsed.value;
    if FromBuild(env, sourceURL, path) {
      var at := Find(path, BuildPath);
      if at.Some? {
        return Ok(Some(Location(env.staticRootPath, env.join("build", path[at.value + |BuildPath|..] + ".map"), "")));
      }
    } else if PluginsPath <= path {
      var routes := env.staticRoutes;
      for i := 0 to |routes|
        invariant PluginLocation(env, routes, path) == PluginLocation(env, routes[i..], path)
      {
        assert routes[i..][1..] == routes[i + 1..];
        if Serves(env, routes[i], path) {
          return Ok(Some(RouteLocation(env, routes[i], path)));
        }
      }
    }
    return Ok(None);
  }

  lemma FirstFound(s: string, before: string, sub: string, rest: string)
    requires s == before + sub + rest && forall k :: 0 <= k < |before| ==> !(sub <= s[k..])
    ensures Find(s, sub) == Some(|before|) && s[|before| + |sub|..] == rest
  {
    assert s[|before|..] == sub + rest;
  }

  /**
   * A source whose path is under `/public/build/`, or from the CDN with that somewhere in its path: what follows the first
   * such place is looked for in the build directory.
   */
  lemma CoreLocation(env: Env, sourceURL: string, before: string, rest: string)
    requires env.urlPath(sourceURL) == Ok(before + "/public/build/" + rest)
    requires forall k :: 0 <= k < |before| ==> !("/public/build/" <= (before + "/public/build/" + rest)[k..])
    requires before == "" || (env.cdnRootURL.Some? && env.cdnRootURL.value <= sourceURL)
    ensures Guess(env, sourceURL) == Ok(Some(Location(env.staticRootPath, env.join("build", rest + ".map"), "")))
  {
    var path := before + BuildPath + rest;
    FirstFound(path, before, BuildPath, rest);
    if before == "" {
      assert BuildPath <= path;
    }
  }

  /** Sources of neither the core nor a plugin have no location. */
  lemma NoLocation(env: Env, sourceURL: string, path: string)
    requires env.urlPath(sourceURL) == Ok(path) && !("/public/build/" <= path) && !("/public/plugins/" <= path)
    requires env.cdnRootURL.None? || !(env.cdnRootURL.value <= sourceURL) || forall k :: 0 <= k <= |path| ==> !("/public/build/" <= path[k..])
    ensures Guess(env, sourceURL) == Ok(None)
  {
  }

  /** A source under the build directory always has a location, of the core. */
  lemma BuildSourcesAreLocated(env: Env, sourceURL: string, path: string)
    requires env.urlPath(sourceURL) == Ok(path) && FromBuild(env, sourceURL, path)
    ensures Guess(env, sourceURL).Ok? && Guess(env, sourceURL).value.Some? && Guess(env, sourceURL).value.value.pluginID == ""
  {
    assert path[0..] == path;
  }

  lemma {:induction false} FirstRouteServes(env: Env, routes: seq<Route>, path: string, i: nat)
    requires i < |routes| && Serves(env, routes[i], path)
    requires forall j :: 0 <= j < i ==> !Serves(env, routes[j], path)
    ensures PluginLocation(env, routes, path) == Some(RouteLocation(env, routes[i], path))
  {
    if i > 0 {
      FirstRouteServes(env, routes[1..], path, i - 1);
    }
  }

  /** Plain plugin ids are one path element, so that joining them to a directory adds them at the end. */
  ghost predicate PlainIds(env: Env) {
    forall r :: r in env.staticRoutes ==> r.pluginId != "" && '/' !in r.pluginId && env.join(PluginsPath, r.pluginId) == PluginsPath + r.pluginId
  }

  lemma ServesIff(env: Env, route: Route, id: string, rest: string)
    requires '/' !in route.pluginId && env.join(PluginsPath, route.pluginId) == PluginsPath + route.pluginId
    ensures Serves(env, route, PluginsPath + id + "/" + rest) <==> route.pluginId <= id
  {
    var p, path := route.pluginId, PluginsPath + id + "/" + rest;
    var n := |PluginsPath|;
    assert path[n..] == id + "/" + rest;
    assert PluginsPath + p <= path <==> p <= path[n..];
    assert path[n..][|id|] == '/';
    if p <= path[n..] {
      assert forall k :: 0 <= k < |p| ==> path[n..][k] in p;
      assert |p| <= |id|;
      assert p == path[n..][..|p|] == id[..|p|];
    }
  }

  /**
   * A source of a plugin is looked for in that plugin's directory exactly when it is not taken for a source of the core
   * and no route listed earlier has an id with which the plugin's own id begins.
   */
  lemma OwnDirectoryIff(env: Env, sourceURL: string, i: nat, rest: string)
    requires PlainIds(env)
    requires i < |env.staticRoutes| && forall j :: 0 <= j < i ==> env.staticRoutes[j].pluginId != env.staticRoutes[i].pluginId
    requires env.urlPath(sourceURL) == Ok(PluginsPath + env.staticRoutes[i].pluginId + "/" + rest)
    ensures Guess(env, sourceURL) == Ok(Some(Location(env.staticRoutes[i].directory, "/" + rest + ".map", env.staticRoutes[i].pluginId)))
       <==> !FromBuild(env, sourceURL, PluginsPath + env.staticRoutes[i].pluginId + "/" + rest)
            && forall j :: 0 <= j < i ==> !(env.staticRoutes[j].pluginId <= env.staticRoutes[i].pluginId)
  {
    var routes, id := env.staticRoutes, env.staticRoutes[i].pluginId;
    var path := PluginsPath + id + "/" + rest;
    if FromBuild(env, sourceURL, path) {
      BuildSourcesAreLocated(env, sourceURL, path);
      assert routes[i] in routes;
      return;
    }
    assert PluginsPath <= path;
    forall j | 0 <= j <= i
      ensures Serves(env, routes[j], path) <==> routes[j].pluginId <= id
    {
      ServesIff(env, routes[j], id, rest);
    }
    if forall j :: 0 <= j < i ==> !(routes[j].pluginId <= id) {
      FirstRouteServes(env, routes, path, i);
      assert path[|PluginsPath + id|..] == "/" + rest;
    } else {
      var j := FirstPrefix(routes, id, i);
      FirstRouteServes(env, routes, path, j);
    }
  }

  lemma {:induction false} FirstPrefix(routes: seq<Route>, id: string, n: nat) returns (j: nat)
    requires n <= |routes| && exists k :: 0 <= k < n && routes[k].pluginId <= id
    ensures j < n && routes[j].pluginId <= id && forall k :: 0 <= k < j ==> !(routes[k].pluginId <= id)
  {
    if k :| 0 <= k < n - 1 && routes[k].pluginId <= id {
      j := FirstPrefix(routes, id, n - 1);
    } else {
      j := n - 1;
    }
  }

  // ---------------------------------------------------------------- the store

  /** A lookup that keeps nothing; a map that cannot be located or does not exist is no error. */
  function Lookup(env: Env, sourceURL: string): Result<Option<SourceMap>, string> {
    match Guess(env, sourceURL)
    case Err(e) => Err(e)
    case Ok(None) => Ok(None)
    case Ok(Some(at)) =>
      match env.readSourceMap(at.dir, Without(at.path, "../"))
      case NotExist => Ok(None)
      case Failed(e) => Err(e)
      case Content(text) =>
        match env.parse(sourceURL + ".map", text)
        case Err(e) => Err(e)
        case Ok(consumer) => Ok(Some(SourceMap(consumer, at.pluginID)))
  }

  /** Taking out a text: nothing happens where it is not, and its first copy goes, with those in what follows. */
  lemma {:induction false} WithoutIs(before: string, sub: string, rest: string)
    requires sub != "" && forall k :: 0 <= k < |before| ==> !(sub <= (before + rest)[k..])
    ensures Without(before + rest, sub) == before + Without(rest, sub)
    ensures Without(sub + rest, sub) == Without(rest, sub)
  {
    assert (sub + rest)[|sub|..] == rest;
    if before == "" {
      assert before + rest == rest && before + Without(rest, sub) == Without(rest, sub);
    } else {
      var s := before + rest;
      assert s[0..] == s && s[1..] == before[1..] + rest && [s[0]] + before[1..] == before;
      forall k | 0 <= k < |before| - 1
        ensures !(sub <= (before[1..] + rest)[k..])
      {
        assert (before[1..] + rest)[k..] == s[k + 1..];
      }
      WithoutIs(before[1..], sub, rest);
      assert [s[0]] + (before[1..] + Without(rest, sub)) == before + Without(rest, sub);
    }
  }

  /**
   * From the source to its map: a source of a plugin is served the map beside it in the plugin's directory, under the
   * plugin's id, if it is not taken for a core source, no earlier route is in the way, and its path climbs nowhere.
   */
  lemma OwnMapIsFound(env: Env, sourceURL: string, i: nat, rest: string, text: string, consumer: string)
    requires PlainIds(env)
    requires i < |env.staticRoutes| && forall j :: 0 <= j < i ==> !(env.staticRoutes[j].pluginId <= env.staticRoutes[i].pluginId)
    requires env.urlPath(sourceURL) == Ok(PluginsPath + env.staticRoutes[i].pluginId + "/" + rest)
    requires !FromBuild(env, sourceURL, PluginsPath + env.staticRoutes[i].pluginId + "/" + rest)
    requires forall k :: 0 <= k <= |"/" + rest + ".map"| ==> !("../" <= ("/" + rest + ".map")[k..])
    requires env.readSourceMap(env.staticRoutes[i].directory, "/" + rest + ".map") == Content(text)
    requires env.parse(sourceURL + ".map", text) == Ok(consumer)
    ensures Lookup(env, sourceURL) == Ok(Some(SourceMap(consumer, env.staticRoutes[i].pluginId)))
  {
    OwnDirectoryIff(env, sourceURL, i, rest);
    var path := "/" + rest + ".map";
    assert path + "" == path;
    WithoutIs(path, "../", "");
  }

  type Cache = map<string, Option<SourceMap>>

  function Step(env: Env, cache: Cache, sourceURL: string): (Cache, Result<Option<SourceMap>, string>) {
    if sourceURL in cache then (cache, Ok(cache[sourceURL]))
    else
      var found := Lookup(env, sourceURL);
      (if found.Ok? then cache[sourceURL := found.value] else cache, found)
  }

  class SourceMapStore {
    var cache: Cache

    constructor ()
      ensures cache == map[]
    {
      cache := map[];
    }

    method GetSourceMap(env: Env, sourceURL: string) returns (smap: Result<Option<SourceMap>, string>)
      modifies this
      ensures (cache, smap) == Step(env, old(cache), sourceURL)
    {
      if sourceURL in cache {
        return Ok(cache[sourceURL]);
      }
      var location := GuessSourceMapLocation(env, sourceURL);
      if location.Err? {
        return Err(location.error);
      }
      if location.value.None? {
        cache := cache[sourceURL := None];
        return Ok(None);
      }
      var at := location.value.value;
      var path := Without(at.path, "../");
      var b := env.readSourceMap(at.dir, path);
      if b.NotExist? {
        cache := cache[sourceURL := None];
        return Ok(None);
      }
      if b.Failed? {
        return Err(b.error);
      }
      var consumer := env.parse(sourceURL + ".map", b.text);
      if consumer.Err? {
        return Err(consumer.error);
      }
      var found := Some(SourceMap(consumer.value, at.pluginID));
      cache := cache[sourceURL := found];
      return Ok(found);
    }
  }

  // ---------------------------------------------------------------- runs

  /** One call: a source, and the surroundings at that time. */
  datatype Call = Call(env: Env, sourceURL: string)

  function After(calls: seq<Call>): Cache {
    if calls == [] then map[]
    else
      var call := calls[|calls| - 1];
      Step(call.env, After(calls[..|calls| - 1]), call.sourceURL).0
  }

  /** What call `i` of a run answers. */
  function AnswerOf(calls: seq<Call>, i: nat): Result<Option<SourceMap>, string>
    requires i < |calls|
  {
    Step(calls[i].env, After(calls[..i]), calls[i].sourceURL).1
  }

  /** Call `m` is the first for its source that is not an error. */
  ghost predicate Settles(calls: seq<Call>, m: int, sourceURL: string) {
    && 0 <= m < |calls| && calls[m].sourceURL == sourceURL && Lookup(calls[m].env, sourceURL).Ok?
    && forall k :: 0 <= k < m && calls[k].sourceURL == sourceURL ==> Lookup(calls[k].env, sourceURL).Err?
  }

  /** A cached source was settled by one call, any other has only met errors. */
  lemma {:induction false} CachedIffSettled(calls: seq<Call>, sourceURL: string)
    ensures sourceURL in After(calls) ==>
              exists m :: Settles(calls, m, sourceURL) && Lookup(calls[m].env, sourceURL) == Ok(After(calls)[sourceURL])
    ensures sourceURL !in After(calls) ==>
              forall k :: 0 <= k < |calls| && calls[k].sourceURL == sourceURL ==> Lookup(calls[k].env, sourceURL).Err?
  {
    if calls != [] {
      var n := |calls| - 1;
      var front := calls[..n];
      CachedIffSettled(front, sourceURL);
      if sourceURL in After(front) {
        var m :| Settles(front, m, sourceURL) && Lookup(front[m].env, sourceURL) == Ok(After(front)[sourceURL]);
        assert calls[m] == front[m];
        assert forall k :: 0 <= k < m ==> calls[k] == front[k];
        assert Settles(calls, m, sourceURL);
      } else {
        assert forall k :: 0 <= k < n ==> calls[k] == front[k];
        assert sourceURL in After(calls) ==> Settles(calls, n, sourceURL);
      }
    }
  }

  /** Up to call `i`, its source has only met errors. */
  ghost predicate NeverSettled(calls: seq<Call>, i: nat)
    requires i < |calls|
  {
    forall k :: 0 <= k <= i && calls[k].sourceURL == calls[i].sourceURL ==> Lookup(calls[k].env, calls[k].sourceURL).Err?
  }

  /**
   * In any run, whatever the file system does meanwhile: a call answers what the first call for that source found
   * that met no error, be it a map or that there is none; as long as there was no such call, it looks for itself.
   */
  lemma AnswersOfRun(calls: seq<Call>, i: nat)
    requires i < |calls|
    ensures (exists m :: m <= i && Settles(calls, m, calls[i].sourceURL)
                      && AnswerOf(calls, i) == Lookup(calls[m].env, calls[i].sourceURL))
         || (NeverSettled(calls, i) && AnswerOf(calls, i) == Lookup(calls[i].env, calls[i].sourceURL))
  {
    var url, before := calls[i].sourceURL, calls[..i];
    CachedIffSettled(before, url);
    assert forall k :: 0 <= k < i ==> calls[k] == before[k];
    if url in After(before) {
      var m :| Settles(before, m, url) && Lookup(before[m].env, url) == Ok(After(before)[url]);
      assert Settles(calls, m, url);
    } else if Lookup(calls[i].env, url).Ok? {
      assert Settles(calls, i, url);
    }
  }

  /** While nothing changes in the surroundings, every answer is that of a lookup that keeps nothing. */
  lemma StoreAgreesWithLookup(env: Env, calls: seq<Call>, i: nat)
    requires i < |calls| && forall k :: 0 <= k < |calls| ==> calls[k].env == env
    ensures AnswerOf(calls, i) == Lookup(env, calls[i].sourceURL)
  {
    AnswersOfRun(calls, i);
  }
}
