/**
 * Plugin signatures: the state of one plugin's manifest (pkg/plugins/manifest.go), and the second pass of a
 * scan (pkg/plugins/plugins.go), which visits the plugins found in the arbitrary order of a Go map, lets
 * embedded plugins inherit the signature of their root and decides which may load.
 */
module PluginSignatures {
  import opened Prelude

  datatype Status = Internal | Valid | Invalid | Modified | Unsigned

  // ---------------------------------------------------------------- the manifest

  datatype Manifest = Manifest(plugin: string, version: string, files: map<string, string>, manifestVersion: string,
                               signatureType: string, signedByOrgName: string, rootURLs: seq<string>)

  datatype URL = URL(scheme: string, host: string, requestURI: string)

  datatype SignatureState = SignatureState(status: Status, kind: string, org: string)

  /** A plugin file as the check finds it: absent or unreadable, or with this checksum. */
  datatype OnDisk = Unreadable | Checksum(sum: string)

  /** What is outside the modelled code: checking the signature, parsing addresses, and the plugin's files. */
  datatype World = World(
    verify: seq<int> -> Option<Manifest>,
    parseURL: string -> Option<URL>,
    appURL: string,
    disk: string -> OnDisk)

  datatype ParseError = BadURL(text: string)

  predicate IsV2(m: Manifest) {
    |m.manifestVersion| >= 2 && m.manifestVersion[..2] == "2."
  }

  /** Whether one of the manifest's root addresses is the application's, in list order; a bad address ends the search. */
  function RootMatch(w: World, urls: seq<string>, app: URL): Result<bool, ParseError> {
    if urls == [] then Ok(false)
    else match w.parseURL(urls[0])
         case None => Err(BadURL(urls[0]))
         case Some(u) => if u == app then Ok(true) else RootMatch(w, urls[1..], app)
  }

  function PrivateMatch(w: World, m: Manifest): Result<bool, ParseError> {
    match w.parseURL(w.appURL)
    case None => Err(BadURL(w.appURL))
    case Some(app) => RootMatch(w, m.rootURLs, app)
  }

  /** The two addresses parse to the same scheme, host and request URI. */
  ghost predicate SameAddress(w: World, a: string, b: string) {
    && w.parseURL(a).Some? && w.parseURL(b).Some?
    && var u, v := w.parseURL(a).value, w.parseURL(b).value;
       u.scheme == v.scheme && u.host == v.host && u.requestURI == v.requestURI
  }

  /** Root address `i` is the application's, and all before it parse. */
  ghost predicate RunsAt(w: World, m: Manifest, i: nat) {
    i < |m.rootURLs| && SameAddress(w, m.rootURLs[i], w.appURL) && forall k :: 0 <= k < i ==> w.parseURL(m.rootURLs[k]).Some?
  }

  /** The application runs at a root address of the manifest. */
  ghost predicate AtHome(w: World, m: Manifest) {
    exists i: nat :: RunsAt(w, m, i)
  }

  /** All addresses parse, and no root address is the application's. */
  ghost predicate Elsewhere(w: World, m: Manifest) {
    && w.parseURL(w.appURL).Some?
    && forall i :: 0 <= i < |m.rootURLs| ==> w.parseURL(m.rootURLs[i]).Some? && !SameAddress(w, m.rootURLs[i], w.appURL)
  }

  /** The first address looked at that does not parse, nothing before it having been the application's. */
  ghost predicate FirstBad(w: World, m: Manifest, text: string) {
    if w.parseURL(w.appURL).None? then text == w.appURL
    else exists i :: 0 <= i < |m.rootURLs| && m.rootURLs[i] == text && w.parseURL(text).None?
                     && forall k :: 0 <= k < i ==> w.parseURL(m.rootURLs[k]).Some? && !SameAddress(w, m.rootURLs[k], w.appURL)
  }

  ghost predicate HasBadAddress(w: World, m: Manifest) {
    exists text :: FirstBad(w, m, text)
  }

  lemma {:induction false} RootMatchIs(w: World, m: Manifest, from: nat, app: URL)
    requires from <= |m.rootURLs| && w.parseURL(w.appURL) == Some(app)
    requires forall k :: 0 <= k < from ==> w.parseURL(m.rootURLs[k]).Some? && !SameAddress(w, m.rootURLs[k], w.appURL)
    ensures var r := RootMatch(w, m.rootURLs[from..], app);
            if r.Err? then FirstBad(w, m, r.error.text) else if r.value then AtHome(w, m) else Elsewhere(w, m)
    decreases |m.rootURLs| - from
  {
    if from < |m.rootURLs| {
      assert m.rootURLs[from..][0] == m.rootURLs[from] && m.rootURLs[from..][1..] == m.rootURLs[from + 1..];
      var u := w.parseURL(m.rootURLs[from]);
      if u == Some(app) {
        assert RunsAt(w, m, from);
      } else if u.Some? {
        assert u.value != app;
        RootMatchIs(w, m, from + 1, app);
      }
    }
  }

  lemma OneOfThree(w: World, m: Manifest)
    ensures !(AtHome(w, m) && Elsewhere(w, m))
    ensures forall text :: FirstBad(w, m, text) ==> !Elsewhere(w, m)
    ensures AtHome(w, m) ==> forall text :: !FirstBad(w, m, text)
  {
    if i: nat :| RunsAt(w, m, i) {
      forall text
        ensures !FirstBad(w, m, text)
      {
      }
    }
  }

  /** Whether a private plugin may run here, address by address: yes, no, or which address does not parse. */
  lemma PrivateMatchIs(w: World, m: Manifest)
    ensures PrivateMatch(w, m) == Ok(true) <==> AtHome(w, m)
    ensures PrivateMatch(w, m) == Ok(false) <==> Elsewhere(w, m)
    ensures forall text :: PrivateMatch(w, m) == Err(BadURL(text)) <==> FirstBad(w, m, text)
    ensures PrivateMatch(w, m).Err? <==> HasBadAddress(w, m)
  {
    OneOfThree(w, m);
    if w.parseURL(w.appURL).Some? {
      RootMatchIs(w, m, 0, w.parseURL(w.appURL).value);
      assert m.rootURLs[0..] == m.rootURLs;
    }
    if PrivateMatch(w, m).Err? {
      assert FirstBad(w, m, PrivateMatch(w, m).error.text);
    }
  }

  /** Every file the manifest lists is there with the listed checksum. */
  ghost predicate FilesIntact(w: World, m: Manifest) {
    forall p :: p in m.files ==> w.disk(p) == Checksum(m.files[p])
  }

  ghost predicate FilesCovered(m: Manifest, files: seq<string>) {
    forall f :: f in files ==> f in m.files
  }

  /** A manifest as it should be for this plugin. */
  ghost predicate Genuine(w: World, m: Manifest, id: string, version: string, files: seq<string>) {
    && m.plugin == id && m.version == version
    && (m.signatureType == "private" ==> AtHome(w, m))
    && FilesIntact(w, m)
    && ("2." <= m.manifestVersion ==> FilesCovered(m, files))
  }

  /** A private manifest of this plugin, for an application elsewhere. */
  ghost predicate MustRunElsewhere(w: World, m: Manifest, id: string, version: string) {
    m.plugin == id && m.version == version && m.signatureType == "private" && Elsewhere(w, m)
  }

  /** The loop over the manifest's files, in any order, and with it the set of files vouched for. */
  method CheckFiles(w: World, m: Manifest) returns (ok: bool, manifestFiles: set<string>)
    ensures ok <==> FilesIntact(w, m)
    ensures ok ==> manifestFiles == m.files.Keys
  {
    manifestFiles := {};
    var left := m.files.Keys;
    while left != {}
      invariant left <= m.files.Keys && manifestFiles == m.files.Keys - left
      invariant forall p :: p in manifestFiles ==> w.disk(p) == Checksum(m.files[p])
    {
      var p :| p in left;
      var found := w.disk(p);
      if found.Unreadable? || found.sum != m.files[p] {
        assert w.disk(p) != Checksum(m.files[p]);
        return false, manifestFiles;
      }
      left, manifestFiles := left - {p}, manifestFiles + {p};
    }
    return true, manifestFiles;
  }

  /** The plugin's files the manifest says nothing about. */
  method UnsignedFiles(manifestFiles: set<string>, files: seq<string>) returns (missing: seq<string>)
    ensures missing == [] <==> forall f :: f in files ==> f in manifestFiles
  {
    missing := [];
    for k := 0 to |files|
      invariant missing == [] <==> forall f :: f in files[..k] ==> f in manifestFiles
    {
      assert files[..k + 1] == files[..k] + [files[k]];
      if files[k] !in manifestFiles {
        missing := missing + [files[k]];
      }
    }
    assert files[..|files|] == files;
  }

  /**
   * The state a plugin gets in the first pass. It is valid exactly for a genuine signed manifest; it is never
   * `Internal`; and an error is only ever about an address that does not parse.
   */
  method GetPluginSignatureState(w: World, raw: Option<seq<int>>, id: string, version: string, files: seq<string>)
    returns (r: Result<SignatureState, ParseError>)
    ensures r.Ok? && r.value.status == Valid
            <==> raw.Some? && |raw.value| >= 10 && w.verify(raw.value).Some? && Genuine(w, w.verify(raw.value).value, id, version, files)
    ensures r.Ok? && r.value.status == Valid
            ==> r.value.kind == w.verify(raw.value).value.signatureType && r.value.org == w.verify(raw.value).value.signedByOrgName
    ensures r.Ok? ==> (r.value.status == Unsigned <==> raw.None? || |raw.value| < 10) && r.value.status != Internal
    ensures r.Ok? && r.value.status == Invalid
            <==> raw.Some? && |raw.value| >= 10 && (w.verify(raw.value).Some? ==> MustRunElsewhere(w, w.verify(raw.value).value, id, version))
    ensures r.Err? <==> raw.Some? && |raw.value| >= 10 && w.verify(raw.value).Some?
                        && var m := w.verify(raw.value).value;
                           m.plugin == id && m.version == version && m.signatureType == "private" && HasBadAddress(w, m)
    ensures r.Err? ==> FirstBad(w, w.verify(raw.value).value, r.error.text)
  {
    if raw.None? || |raw.value| < 10 {
      return Ok(SignatureState(Unsigned, "", ""));
    }
    var verified := w.verify(raw.value);
    if verified.None? {
      return Ok(SignatureState(Invalid, "", ""));
    }
    var m := verified.value;
    if m.plugin != id || m.version != version {
      return Ok(SignatureState(Modified, "", ""));
    }
    if m.signatureType == "private" {
      PrivateMatchIs(w, m);
      var found := MatchRootURL(w, m);
      if found.Err? {
        return Err(found.error);
      }
      if !found.value {
        return Ok(SignatureState(Invalid, "", ""));
      }
    }
    var intact, manifestFiles := CheckFiles(w, m);
    if !intact {
      return Ok(SignatureState(Modified, "", ""));
    }
    assert IsV2(m) <==> "2." <= m.manifestVersion;
    if IsV2(m) {
      var missing := UnsignedFiles(manifestFiles, files);
      if |missing| > 0 {
        return Ok(SignatureState(Modified, "", ""));
      }
    }
    return Ok(SignatureState(Valid, m.signatureType, m.signedByOrgName));
  }

  method MatchRootURL(w: World, m: Manifest) returns (r: Result<bool, ParseError>)
    ensures r == PrivateMatch(w, m)
  {
    var app := w.parseURL(w.appURL);
    if app.None? {
      return Err(BadURL(w.appURL));
    }
    assert m.rootURLs[0..] == m.rootURLs;
    for k := 0 to |m.rootURLs|
      invariant RootMatch(w, m.rootURLs, app.value) == RootMatch(w, m.rootURLs[k..], app.value)
    {
      assert m.rootURLs[k..][1..] == m.rootURLs[k + 1..];
      var u := w.parseURL(m.rootURLs[k]);
      if u.None? {
        return Err(BadURL(m.rootURLs[k]));
      }
      if u.value == app.value {
        return Ok(true);
      }
    }
    return Ok(false);
  }

  // ---------------------------------------------------------------- plugins on disk

  /** A cleaned path: its components, and whether it starts at the root directory. */
  datatype Path = Path(absolute: bool, parts: seq<string>)

  class PluginBase {
    const id: string
    const backend: bool
    const isCore: bool
    /** Whether registering the plugin succeeds, is refused as a duplicate, or ends the whole scan. */
    const load: LoadOutcome
    var signature: Status
    var root: PluginBase?

    constructor (id: string, backend: bool, isCore: bool, load: LoadOutcome, signature: Status)
      ensures this.id == id && this.backend == backend && this.isCore == isCore && this.load == load
      ensures this.signature == signature && root == null
    {
      this.id, this.backend, this.isCore, this.load, this.signature, this.root := id, backend, isCore, load, signature, null;
    }
  }

  datatype LoadOutcome = Loaded | Duplicate | Fatal

  datatype SignatureError = SignatureMissing | SignatureInvalid | SignatureModified

  type Plugins = map<Path, PluginBase>

  /** The shortest prefix of a path the search looks at: the root directory, or the first component. */
  function FirstPrefix(p: Path): nat {
    if p.absolute then 0 else 1
  }

  /** One more than the longest: the search stops short of the path itself, except for the root directory. */
  function EndPrefix(p: Path): nat {
    if p.absolute && p.parts == [] then 1 else |p.parts|
  }

  function Prefix(p: Path, k: nat): Path
    requires k <= |p.parts|
  {
    Path(p.absolute, p.parts[..k])
  }

  /** The directory of the plugin that is the root of the plugin at `p`: the shallowest plugin above it. */
  ghost predicate IsRootOf(dirs: set<Path>, p: Path, r: Path) {
    exists k: nat :: FirstPrefix(p) <= k < EndPrefix(p) && k <= |p.parts| && r == Prefix(p, k) && r in dirs
                     && forall j: nat :: FirstPrefix(p) <= j < k ==> Prefix(p, j) !in dirs
  }

  ghost predicate HasNoRoot(dirs: set<Path>, p: Path) {
    forall k: nat :: FirstPrefix(p) <= k < EndPrefix(p) && k <= |p.parts| ==> Prefix(p, k) !in dirs
  }

  /** The directory encloses the path: a shorter path it begins with, but not the empty relative one; `/` encloses itself. */
  ghost predicate IsAbove(p: Path, q: Path) {
    && q.absolute == p.absolute && q.parts <= p.parts && (q.absolute || q.parts != [])
    && (|q.parts| < |p.parts| || (p.absolute && p.parts == []))
  }

  /** The root is the outermost enclosing directory that has a plugin. */
  lemma RootIsOutermost(dirs: set<Path>, p: Path, r: Path)
    ensures IsRootOf(dirs, p, r) <==> r in dirs && IsAbove(p, r) && forall q :: q in dirs && IsAbove(p, q) ==> |r.parts| <= |q.parts|
    ensures HasNoRoot(dirs, p) <==> forall q :: q in dirs ==> !IsAbove(p, q)
  {
    forall q
      ensures IsAbove(p, q) <==> FirstPrefix(p) <= |q.parts| < EndPrefix(p) && |q.parts| <= |p.parts| && q == Prefix(p, |q.parts|)
    {
    }
    forall j: nat | FirstPrefix(p) <= j < EndPrefix(p) && j <= |p.parts|
      ensures IsAbove(p, Prefix(p, j)) && |Prefix(p, j).parts| == j
    {
    }
    if r in dirs && IsAbove(p, r) && forall q :: q in dirs && IsAbove(p, q) ==> |r.parts| <= |q.parts| {
      var k := |r.parts|;
      forall j: nat | FirstPrefix(p) <= j < k
        ensures Prefix(p, j) !in dirs
      {
        assert IsAbove(p, Prefix(p, j));
      }
      assert FirstPrefix(p) <= k < EndPrefix(p) && r == Prefix(p, k);
    }
  }

  /** A root has no root of its own, other than itself. */
  lemma RootIsTop(dirs: set<Path>, p: Path, r: Path, rr: Path)
    requires IsRootOf(dirs, p, r) && IsRootOf(dirs, r, rr)
    ensures rr == r
  {
    var k: nat :| FirstPrefix(p) <= k < EndPrefix(p) && k <= |p.parts| && r == Prefix(p, k) && r in dirs
                  && forall j: nat :: FirstPrefix(p) <= j < k ==> Prefix(p, j) !in dirs;
    var m: nat :| FirstPrefix(r) <= m < EndPrefix(r) && m <= |r.parts| && rr == Prefix(r, m) && rr in dirs
                  && forall j: nat :: FirstPrefix(r) <= j < m ==> Prefix(r, j) !in dirs;
    assert forall j: nat :: j <= |r.parts| ==> Prefix(r, j) == Prefix(p, j);
  }

  lemma RootIsUnique(dirs: set<Path>, p: Path, r1: Path, r2: Path)
    requires IsRootOf(dirs, p, r1) && IsRootOf(dirs, p, r2)
    ensures r1 == r2
  {
  }

  method FindRoot(plugins: Plugins, p: Path) returns (r: Option<Path>)
    ensures r.Some? ==> IsRootOf(plugins.Keys, p, r.value)
    ensures r.None? ==> HasNoRoot(plugins.Keys, p)
  {
    var k := FirstPrefix(p);
    while k < EndPrefix(p)
      invariant FirstPrefix(p) <= k
      invariant forall j: nat :: FirstPrefix(p) <= j < k && j <= |p.parts| ==> Prefix(p, j) !in plugins
    {
      if Prefix(p, k) in plugins {
        return Some(Prefix(p, k));
      }
      k := k + 1;
    }
    return None;
  }

  // ---------------------------------------------------------------- verdicts

  /** What decides about unsigned plugins: a condition set from outside, development mode, or a list. */
  datatype Policy = Policy(requireSigned: bool, condition: Option<string -> bool>, dev: bool, allowed: seq<string>)

  predicate AllowsUnsigned(policy: Policy, id: string) {
    if policy.condition.Some? then policy.condition.value(id) else policy.dev || id in policy.allowed
  }

  method AllowUnsigned(policy: Policy, plugin: PluginBase) returns (ok: bool)
    ensures ok <==> AllowsUnsigned(policy, plugin.id)
    ensures policy.condition.Some? ==> ok == policy.condition.value(plugin.id)
    ensures policy.condition.None? ==> (ok <==> policy.dev || exists k :: 0 <= k < |policy.allowed| && policy.allowed[k] == plugin.id)
  {
    if policy.condition.Some? {
      return policy.condition.value(plugin.id);
    }
    if policy.dev {
      return true;
    }
    for k := 0 to |policy.allowed|
      invariant plugin.id !in policy.allowed[..k]
    {
      if policy.allowed[k] == plugin.id {
        return true;
      }
      assert policy.allowed[..k + 1] == policy.allowed[..k] + [policy.allowed[k]];
    }
    assert policy.allowed[..|policy.allowed|] == policy.allowed;
    return false;
  }

  /** The signature a plugin ends up with, from its own and its root's, both as the first pass left them. */
  function Settled(own: Status, isCore: bool, root: Option<Status>): Status {
    if own == Valid || root.None? || isCore || own == Internal then own else root.value
  }

  /** Let through, turned away, or a signature the code has no case for. */
  datatype Verdict = Accepted | Refused(error: SignatureError) | Panic

  function Judge(policy: Policy, id: string, backend: bool, signature: Status): Verdict {
    if !backend || !policy.requireSigned then Accepted
    else match signature
         case Valid => Accepted
         case Unsigned => if AllowsUnsigned(policy, id) then Accepted else Refused(SignatureMissing)
         case Invalid => Refused(SignatureInvalid)
         case Modified => Refused(SignatureModified)
         case Internal => Panic
  }

  method ValidateSignature(policy: Policy, plugin: PluginBase) returns (verdict: Verdict)
    modifies plugin`signature
    ensures plugin.signature == Settled(old(plugin.signature), plugin.isCore, if plugin.root == null then None else Some(old(plugin.root.signature)))
    ensures verdict == Judge(policy, plugin.id, plugin.backend, plugin.signature)
    ensures verdict == Refused(SignatureMissing) ==> plugin.signature == Unsigned
    ensures verdict == Refused(SignatureInvalid) ==> plugin.signature == Invalid
    ensures verdict == Refused(SignatureModified) ==> plugin.signature == Modified
    ensures verdict.Refused? ==> plugin.backend && policy.requireSigned
  {
    if plugin.signature == Valid {
      return Accepted;
    }
    if plugin.root != null {
      if plugin.isCore || plugin.signature == Internal {
      } else {
        plugin.signature := plugin.root.signature;
        if plugin.signature == Valid {
          return Accepted;
        }
      }
    }
    if !plugin.backend || !policy.requireSigned {
      return Accepted;
    }
    match plugin.signature
    case Unsigned =>
      var allowed := AllowUnsigned(policy, plugin);
      return if allowed then Accepted else Refused(SignatureMissing);
    case Invalid =>
      return Refused(SignatureInvalid);
    case Modified =>
      return Refused(SignatureModified);
    case _ =>
      return Panic;
  }

  // ---------------------------------------------------------------- the second pass

  /** The signature of the root of the plugin at `p`, as the first pass left it. */
  ghost function RootStatus(first: map<Path, Status>, p: Path): Option<Status> {
    if exists r :: IsRootOf(first.Keys, p, r) then
      var r :| IsRootOf(first.Keys, p, r);
      if r in first then Some(first[r]) else None
    else None
  }

  /** The verdict on the plugin at `p`: a function of what the first pass found, whatever the order of visits. */
  ghost function FinalStatus(first: map<Path, Status>, p: Path, isCore: bool): Status
    requires p in first
  {
    Settled(first[p], isCore, RootStatus(first, p))
  }

  ghost predicate DistinctObjects(plugins: Plugins) {
    forall p, q :: p in plugins && q in plugins && plugins[p] == plugins[q] ==> p == q
  }

  ghost function Statuses(plugins: Plugins): map<Path, Status>
    reads set p | p in plugins :: plugins[p]
  {
    map p | p in plugins :: plugins[p].signature
  }

  lemma RootKeepsStatus(first: map<Path, Status>, p: Path, r: Path, isCore: bool)
    requires IsRootOf(first.Keys, p, r)
    ensures r in first && FinalStatus(first, r, isCore) == first[r] && RootStatus(first, p) == Some(first[r])
  {
    var k: nat :| FirstPrefix(p) <= k < EndPrefix(p) && k <= |p.parts| && r == Prefix(p, k) && r in first.Keys
                  && forall j: nat :: FirstPrefix(p) <= j < k ==> Prefix(p, j) !in first.Keys;
    if rr :| IsRootOf(first.Keys, r, rr) {
      RootIsTop(first.Keys, p, r, rr);
    }
    var r2 :| IsRootOf(first.Keys, p, r2);
    RootIsUnique(first.Keys, p, r, r2);
  }

  lemma NoRootNoStatus(first: map<Path, Status>, p: Path)
    requires HasNoRoot(first.Keys, p)
    ensures RootStatus(first, p) == None
  {
  }

  /** What the second pass makes of the plugin at `p`. */
  ghost function FinalVerdict(policy: Policy, plugins: Plugins, first: map<Path, Status>, p: Path): Verdict
    requires p in plugins && p in first
  {
    Judge(policy, plugins[p].id, plugins[p].backend, FinalStatus(first, p, plugins[p].isCore))
  }

  /** Without internal signatures to start from, none is ever reached. */
  lemma NeverPanics(policy: Policy, plugins: Plugins, first: map<Path, Status>, p: Path)
    requires p in plugins && first.Keys == plugins.Keys && forall q :: q in first ==> first[q] != Internal
    ensures FinalVerdict(policy, plugins, first, p) != Panic
  {
  }

  ghost predicate HalfDone(plugins: Plugins, first: map<Path, Status>, visited: set<Path>)
    requires first.Keys == plugins.Keys
    reads set p | p in plugins :: plugins[p]
  {
    forall p :: p in plugins ==>
      && plugins[p].signature == (if p in visited then FinalStatus(first, p, plugins[p].isCore) else first[p])
      && (p !in visited ==> plugins[p].root == null)
  }

  /** One round of the loop, up to and including the verdict. */
  method Visit(policy: Policy, plugins: Plugins, p: Path, ghost first: map<Path, Status>, ghost visited: set<Path>) returns (verdict: Verdict)
    requires DistinctObjects(plugins) && p in plugins && p !in visited
    requires first.Keys == plugins.Keys && HalfDone(plugins, first, visited)
    modifies plugins[p]
    ensures HalfDone(plugins, first, visited + {p})
    ensures verdict == FinalVerdict(policy, plugins, first, p)
  {
    var plugin := plugins[p];
    var found := FindRoot(plugins, p);
    if found.Some? {
      RootKeepsStatus(first, p, found.value, plugins[found.value].isCore);
      plugin.root := plugins[found.value];
    } else {
      NoRootNoStatus(first, p);
    }
    verdict := ValidateSignature(policy, plugin);
  }

  ghost function Verdicts(policy: Policy, plugins: Plugins, first: map<Path, Status>): map<Path, Verdict>
    requires first.Keys == plugins.Keys
  {
    map p | p in plugins :: FinalVerdict(policy, plugins, first, p)
  }

  /** The errors recorded under plugin ids are the refusals among the visited plugins. */
  ghost predicate Records(plugins: Plugins, verdicts: map<Path, Verdict>, visited: set<Path>, errors: map<string, SignatureError>)
    requires verdicts.Keys == plugins.Keys && visited <= plugins.Keys
  {
    && (forall p :: p in visited && verdicts[p].Refused? ==> plugins[p].id in errors)
    && forall id :: id in errors ==> exists p :: p in visited && plugins[p].id == id && verdicts[p] == Refused(errors[id])
  }

  datatype ScanEnd = Done | Failed | Panicked

  /**
   * The second pass. Every visited plugin ends with the signature and the verdict that the first pass
   * determines, in whatever order the plugins come up; plugins not visited keep what they had. All are visited
   * unless registering an accepted one fails for good, or one still has an internal signature.
   */
  method Scan(policy: Policy, plugins: Plugins) returns (end: ScanEnd, visited: set<Path>, errors: map<string, SignatureError>)
    requires DistinctObjects(plugins) && forall p :: p in plugins ==> plugins[p].root == null
    modifies set p | p in plugins :: plugins[p]
    ensures visited <= plugins.Keys && (end.Done? ==> visited == plugins.Keys)
    ensures HalfDone(plugins, old(Statuses(plugins)), visited)
    ensures Records(plugins, Verdicts(policy, plugins, old(Statuses(plugins))), visited, errors)
    ensures end.Failed? ==> exists p :: p in visited && plugins[p].load == Fatal && FinalVerdict(policy, plugins, old(Statuses(plugins)), p) == Accepted
    ensures end.Panicked? ==> exists p :: p in plugins && old(plugins[p].signature) == Internal
  {
    ghost var first := Statuses(plugins);
    visited, errors := {}, map[];
    var left := plugins.Keys;
    while left != {}
      invariant left == plugins.Keys - visited && visited <= plugins.Keys
      invariant HalfDone(plugins, first, visited) && Records(plugins, Verdicts(policy, plugins, first), visited, errors)
    {
      var p :| p in left;
      end, errors := Round(policy, plugins, p, first, visited, errors);
      left, visited := left - {p}, visited + {p};
      if end != Done {
        return;
      }
    }
    end := Done;
  }

  /** One round of the loop. */
  method Round(policy: Policy, plugins: Plugins, p: Path, ghost first: map<Path, Status>, ghost visited: set<Path>, errors: map<string, SignatureError>)
    returns (end: ScanEnd, all: map<string, SignatureError>)
    requires DistinctObjects(plugins) && p in plugins && p !in visited && visited <= plugins.Keys
    requires first.Keys == plugins.Keys && HalfDone(plugins, first, visited) && Records(plugins, Verdicts(policy, plugins, first), visited, errors)
    modifies plugins[p]
    ensures HalfDone(plugins, first, visited + {p}) && Records(plugins, Verdicts(policy, plugins, first), visited + {p}, all)
    ensures end.Failed? ==> plugins[p].load == Fatal && FinalVerdict(policy, plugins, first, p) == Accepted
    ensures end.Panicked? ==> exists q :: q in first && first[q] == Internal
  {
    var verdict := Visit(policy, plugins, p, first, visited);
    RecordsGrow(plugins, Verdicts(policy, plugins, first), visited, errors, p);
    all := if verdict.Refused? then errors[plugins[p].id := verdict.error] else errors;
    if verdict.Panic? {
      if forall q :: q in first ==> first[q] != Internal {
        NeverPanics(policy, plugins, first, p);
      }
      return Panicked, all;
    }
    end := if verdict.Accepted? && plugins[p].load == Fatal then Failed else Done;
  }

  lemma RecordsGrow(plugins: Plugins, verdicts: map<Path, Verdict>, visited: set<Path>, errors: map<string, SignatureError>, p: Path)
    requires verdicts.Keys == plugins.Keys && visited <= plugins.Keys && p in plugins
    requires Records(plugins, verdicts, visited, errors)
    ensures Records(plugins, verdicts, visited + {p}, if verdicts[p].Refused? then errors[plugins[p].id := verdicts[p].error] else errors)
  {
    var errors' := if verdicts[p].Refused? then errors[plugins[p].id := verdicts[p].error] else errors;
    forall id | id in errors'
      ensures exists q :: q in visited + {p} && plugins[q].id == id && verdicts[q] == Refused(errors'[id])
    {
      if verdicts[p].Refused? && id == plugins[p].id {
        assert p in visited + {p};
      } else {
        var q :| q in visited && plugins[q].id == id && verdicts[q] == Refused(errors[id]);
        assert q in visited + {p};
      }
    }
  }

  // ---------------------------------------------------------------- both passes

  /** What a plugin.json found on disk tells, with the files beside it. */
  datatype Found = Found(dir: Path, id: string, version: string, backend: bool, isCore: bool, load: LoadOutcome,
                         world: World, manifest: Option<seq<int>>, files: seq<string>)

  ghost predicate Unmanifested(f: Found) {
    f.manifest.None? || |f.manifest.value| < 10
  }

  /** The plugin carries a verified manifest that is as it should be. */
  ghost predicate Vouched(f: Found) {
    && !Unmanifested(f) && f.world.verify(f.manifest.value).Some?
    && Genuine(f.world, f.world.verify(f.manifest.value).value, f.id, f.version, f.files)
  }

  /** An address in the way of a private manifest does not parse: the plugin is left out. */
  ghost predicate BadAddress(f: Found) {
    && !Unmanifested(f) && f.world.verify(f.manifest.value).Some?
    && var m := f.world.verify(f.manifest.value).value;
       m.plugin == f.id && m.version == f.version && m.signatureType == "private" && HasBadAddress(f.world, m)
  }

  /** The place of what counts for a directory: the last there that is not left out. */
  ghost function Counting(found: seq<Found>, p: Path): (i: Option<nat>)
    ensures i.Some? ==> i.value < |found| && found[i.value].dir == p && !BadAddress(found[i.value])
                        && forall j :: i.value < j < |found| && found[j].dir == p ==> BadAddress(found[j])
    ensures i.None? ==> forall j :: 0 <= j < |found| && found[j].dir == p ==> BadAddress(found[j])
  {
    if found == [] then None
    else
      var last := found[|found| - 1];
      if last.dir == p && !BadAddress(last) then Some(|found| - 1) else Counting(found[..|found| - 1], p)
  }

  ghost predicate BuiltFrom(plugin: PluginBase, f: Found)
    reads plugin
  {
    && SamePlugin(plugin, f) && plugin.root == null && plugin.signature != Internal
    && (plugin.signature == Valid <==> Vouched(f)) && (plugin.signature == Unsigned <==> Unmanifested(f))
  }

  ghost predicate SamePlugin(plugin: PluginBase, f: Found) {
    plugin.id == f.id && plugin.backend == f.backend && plugin.isCore == f.isCore && plugin.load == f.load
  }

  /** The directories with plugins are exactly those where something counts. */
  ghost predicate AllKept(plugins: Plugins, found: seq<Found>) {
    forall p :: (p in plugins <==> Counting(found, p).Some?) && (p in plugins ==> SamePlugin(plugins[p], found[Counting(found, p).value]))
  }

  ghost predicate AllBuilt(plugins: Plugins, found: seq<Found>)
    requires AllKept(plugins, found)
    reads set p | p in plugins :: plugins[p]
  {
    forall p :: p in plugins ==> BuiltFrom(plugins[p], found[Counting(found, p).value])
  }

  lemma OneMoreFound(found: seq<Found>, f: Found, p: Path)
    ensures Counting(found + [f], p) == if f.dir == p && !BadAddress(f) then Some(|found|) else Counting(found, p)
  {
    assert (found + [f])[..|found|] == found;
  }

  /** A plugin with its signature state, None if that is an error. */
  method LoadPlugin(f: Found) returns (plugin: Option<PluginBase>)
    ensures plugin.Some? <==> !BadAddress(f)
    ensures plugin.Some? ==> fresh(plugin.value) && BuiltFrom(plugin.value, f)
  {
    var state := GetPluginSignatureState(f.world, f.manifest, f.id, f.version, f.files);
    if state.Err? {
      return None;
    }
    var built := new PluginBase(f.id, f.backend, f.isCore, f.load, state.value.status);
    return Some(built);
  }

  /** One plugin.json, put into its directory's place. */
  method AddPlugin(before: Plugins, f: Found, ghost found: seq<Found>) returns (plugins: Plugins)
    requires DistinctObjects(before) && AllKept(before, found) && AllBuilt(before, found)
    ensures DistinctObjects(plugins) && forall p :: p in plugins ==> (p in before && plugins[p] == before[p]) || fresh(plugins[p])
    ensures AllKept(plugins, found + [f]) && AllBuilt(plugins, found + [f])
  {
    forall p
      ensures Counting(found + [f], p) == if f.dir == p && !BadAddress(f) then Some(|found|) else Counting(found, p)
    {
      OneMoreFound(found, f, p);
    }
    plugins := before;
    var plugin := LoadPlugin(f);
    if plugin.Some? {
      plugins := plugins[f.dir := plugin.value];
    }
  }

  /** The first pass: a plugin for each directory, unless its signature state is an error. */
  method FirstPass(found: seq<Found>) returns (plugins: Plugins)
    ensures DistinctObjects(plugins) && forall p :: p in plugins ==> fresh(plugins[p])
    ensures AllKept(plugins, found) && AllBuilt(plugins, found)
  {
    plugins := map[];
    ghost var seen: seq<Found> := [];
    for k := 0 to |found|
      invariant DistinctObjects(plugins) && forall p :: p in plugins ==> fresh(plugins[p])
      invariant seen == found[..k] && AllKept(plugins, seen) && AllBuilt(plugins, seen)
    {
      plugins := AddPlugin(plugins, found[k], seen);
      seen := seen + [found[k]];
    }
    assert seen == found;
  }

  /** The root of the plugin at `p`, if it has one. */
  ghost function RootOf(dirs: set<Path>, p: Path): Option<Path> {
    if exists r :: IsRootOf(dirs, p, r) then (var r :| IsRootOf(dirs, p, r); Some(r)) else None
  }

  /**
   * Whose manifest decides about the plugin at `p`: its own if it is vouched for, core or in no other plugin, and its
   * root's otherwise.
   */
  ghost function Deciding(dirs: set<Path>, found: seq<Found>, p: Path): Option<nat> {
    match Counting(found, p)
    case None => None
    case Some(own) =>
      if Vouched(found[own]) || found[own].isCore || RootOf(dirs, p).None? then Some(own)
      else Counting(found, RootOf(dirs, p).value)
  }

  /** A plugin to be let in: vouched for by the manifest that decides, or without one there and allowed to be. */
  ghost predicate Deserved(policy: Policy, dirs: set<Path>, found: seq<Found>, p: Path, id: string) {
    match Deciding(dirs, found, p)
    case None => false
    case Some(i) => Vouched(found[i]) || (Unmanifested(found[i]) && AllowsUnsigned(policy, id))
  }

  /** Exactly the visited backend plugins that do not deserve to be let in have their errors recorded. */
  ghost predicate Justified(policy: Policy, plugins: Plugins, found: seq<Found>, visited: set<Path>, errors: map<string, SignatureError>)
    requires visited <= plugins.Keys
  {
    && (forall p :: p in visited && plugins[p].backend && !Deserved(policy, plugins.Keys, found, p, plugins[p].id) ==> plugins[p].id in errors)
    && (forall id :: id in errors ==>
          exists p :: p in visited && plugins[p].id == id && plugins[p].backend && !Deserved(policy, plugins.Keys, found, p, id))
  }

  /**
   * Both passes. What is found is kept unless an address does not parse. The second pass never panics; where signatures
   * are required, it records exactly the visited backend plugins that do not deserve to be let in, and nothing else
   * anywhere; and it visits all unless registering one that was let in fails for good.
   */
  method ScanDirectory(policy: Policy, found: seq<Found>)
    returns (end: ScanEnd, plugins: Plugins, visited: set<Path>, errors: map<string, SignatureError>)
    ensures AllKept(plugins, found) && visited <= plugins.Keys
    ensures !end.Panicked? && (end.Done? ==> visited == plugins.Keys)
    ensures end.Failed? ==> exists p :: p in visited && plugins[p].load == Fatal
    ensures if policy.requireSigned then Justified(policy, plugins, found, visited, errors) else errors == map[]
  {
    plugins := FirstPass(found);
    ghost var first := Statuses(plugins);
    assert forall p :: p in plugins ==> BuiltFrom(plugins[p], found[Counting(found, p).value]);
    assert StartsFrom(first, found);
    end, visited, errors := Scan(policy, plugins);
    if policy.requireSigned {
      RecordedIsJustified(policy, plugins, found, first, visited, errors);
    }
  }

  /** The statuses of the first pass, told by what counts for each directory. */
  ghost predicate StartsFrom(first: map<Path, Status>, found: seq<Found>) {
    && (forall p :: p in first <==> Counting(found, p).Some?)
    && forall p :: p in first ==> StatusOf(first[p], found[Counting(found, p).value])
  }

  ghost predicate StatusOf(status: Status, f: Found) {
    status != Internal && (status == Valid <==> Vouched(f)) && (status == Unsigned <==> Unmanifested(f))
  }

  lemma RecordedIsJustified(policy: Policy, plugins: Plugins, found: seq<Found>, first: map<Path, Status>, visited: set<Path>, errors: map<string, SignatureError>)
    requires first.Keys == plugins.Keys && visited <= plugins.Keys && policy.requireSigned
    requires StartsFrom(first, found) && AllKept(plugins, found)
    requires Records(plugins, Verdicts(policy, plugins, first), visited, errors)
    ensures Justified(policy, plugins, found, visited, errors)
  {
    var verdicts := Verdicts(policy, plugins, first);
    forall p | p in visited
      ensures verdicts[p].Refused? <==> plugins[p].backend && !Deserved(policy, plugins.Keys, found, p, plugins[p].id)
    {
      if plugins[p].backend {
        AcceptedIffDeserved(policy, plugins, found, first, p);
      }
    }
  }

  /** What decides is there, and the final status is the one that comes of it. */
  lemma DecidingStatus(plugins: Plugins, found: seq<Found>, first: map<Path, Status>, p: Path)
    requires p in plugins && first.Keys == plugins.Keys && StartsFrom(first, found) && AllKept(plugins, found)
    ensures Deciding(first.Keys, found, p).Some?
    ensures StatusOf(FinalStatus(first, p, plugins[p].isCore), found[Deciding(first.Keys, found, p).value])
  {
    var own := Counting(found, p).value;
    match RootOf(first.Keys, p)
    case None =>
    case Some(r) =>
      RootKeepsStatus(first, p, r, false);
  }

  lemma AcceptedIffDeserved(policy: Policy, plugins: Plugins, found: seq<Found>, first: map<Path, Status>, p: Path)
    requires p in plugins && first.Keys == plugins.Keys && policy.requireSigned && plugins[p].backend
    requires StartsFrom(first, found) && AllKept(plugins, found)
    ensures FinalVerdict(policy, plugins, first, p) == Accepted <==> Deserved(policy, plugins.Keys, found, p, plugins[p].id)
    ensures FinalVerdict(policy, plugins, first, p) != Panic
  {
    DecidingStatus(plugins, found, first, p);
  }
}
