/**
 * What is kept per data source (pkg/models/datasource_cache.go): decrypted secrets and HTTP transports, each under
 * the data source's id together with the time of its last update.
 */
module DataSourceCache {
  import opened Prelude

  type Values = map<string, string>

  /** The settings that a transport is made from; `headerNames` holds the settings httpHeaderName1, httpHeaderName2, ... */
  datatype Json = Json(tls: map<string, string>, headerNames: map<nat, string>, sigV4Auth: bool, sigV4Region: string)

  datatype DataSource = DataSource(id: int, updated: int, name: string, json: Option<Json>, secure: Values)

  datatype SigV4 = SigV4(accessKey: string, secretKey: string, region: string)

  datatype Transport = Transport(name: string, tls: string, headers: Values, sigV4: Option<SigV4>)

  /** What the caches rely on: decryption, the making of a TLS configuration, and a global setting. */
  datatype Env = Env(decrypt: Values -> Values, tlsConfig: (Option<Json>, Values) -> Result<string, string>, sigV4Enabled: bool)

  // ---------------------------------------------------------------- custom headers

  function Decimal(n: nat): string {
    (if n < 10 then "" else Decimal(n / 10)) + ["0123456789"[n % 10]]
  }

  function ValueKey(index: nat): string {
    "httpHeaderValue" + Decimal(index)
  }

  predicate AllDigits(s: string) {
    forall i :: 0 <= i < |s| ==> '0' <= s[i] <= '9'
  }

  /** What digits spell. */
  function Spelled(s: string): int {
    if s == "" then 0 else 10 * Spelled(s[..|s| - 1]) + (s[|s| - 1] as int - '0' as int)
  }

  lemma OneMoreDigit(front: string, d: nat)
    requires d < 10
    ensures Spelled(front + ["0123456789"[d]]) == 10 * Spelled(front) + d
    ensures AllDigits(front + ["0123456789"[d]]) <==> AllDigits(front)
  {
    var s := front + ["0123456789"[d]];
    assert s[..|s| - 1] == front && "0123456789"[d] as int == 48 + d;
    if AllDigits(s) {
      assert forall i :: 0 <= i < |front| ==> front[i] == s[i];
    }
  }

  lemma {:induction false} DecimalIs(n: nat)
    ensures Decimal(n) != "" && AllDigits(Decimal(n)) && Spelled(Decimal(n)) == n && (Decimal(n)[0] == '0' ==> n == 0)
  {
    if n >= 10 {
      DecimalIs(n / 10);
    }
    OneMoreDigit(if n < 10 then "" else Decimal(n / 10), n % 10);
  }

  lemma DigitOf(c: char) returns (d: nat)
    requires '0' <= c <= '9'
    ensures d < 10 && c == "0123456789"[d]
  {
    d := c as int - '0' as int;
  }

  lemma {:induction false} DecimalIsUnique(s: string)
    requires s != "" && AllDigits(s) && (s[0] == '0' ==> |s| == 1)
    ensures Spelled(s) >= 0 && Decimal(Spelled(s)) == s && (Spelled(s) == 0 ==> s == "0")
  {
    var front := s[..|s| - 1];
    var d := DigitOf(s[|s| - 1]);
    assert s == front + ["0123456789"[d]];
    OneMoreDigit(front, d);
    if front != "" {
      DecimalIsUnique(front);
      TensAndOnes(Spelled(front), d);
    }
  }

  lemma TensAndOnes(a: nat, d: nat)
    requires d < 10
    ensures (10 * a + d) / 10 == a && (10 * a + d) % 10 == d
  {
  }

  /** The setting that holds the value of header `index`: the word and the number in decimal, without leading zeros. */
  lemma ValueKeyIs(key: string, index: nat)
    ensures key == ValueKey(index)
       <==> && |key| > 15 && key[..15] == "httpHeaderValue" && AllDigits(key[15..])
            && (key[15] == '0' ==> |key| == 16) && Spelled(key[15..]) == index
  {
    DecimalIs(index);
    assert ValueKey(index)[..15] == "httpHeaderValue" && ValueKey(index)[15..] == Decimal(index);
    if |key| > 15 && key[..15] == "httpHeaderValue" && AllDigits(key[15..]) && (key[15] == '0' ==> |key| == 16) && Spelled(key[15..]) == index {
      DecimalIsUnique(key[15..]);
      assert key == key[..15] + key[15..];
    }
  }

  function NameAt(names: map<nat, string>, index: nat): string {
    if index in names then names[index] else ""
  }

  /** Headers 1 to `n`, a later one of the same name replacing an earlier one. */
  function Headers(names: map<nat, string>, values: Values, n: nat): Values {
    if n == 0 then map[]
    else
      var before := Headers(names, values, n - 1);
      if ValueKey(n) in values then before[NameAt(names, n) := values[ValueKey(n)]] else before
  }

  ghost function From(names: map<nat, string>, index: nat): set<nat> {
    set i | i in names && index <= i
  }

  lemma FromShrinks(names: map<nat, string>, index: nat)
    requires index in names
    ensures |From(names, index + 1)| < |From(names, index)|
  {
    assert From(names, index) == From(names, index + 1) + {index};
  }

  /** The length of the unbroken numbering of headers. */
  function LastHeader(names: map<nat, string>, index: nat): (n: nat)
    ensures index <= n && (forall i :: index < i <= n ==> NameAt(names, i) != "") && NameAt(names, n + 1) == ""
    decreases |From(names, index + 1)|
  {
    if NameAt(names, index + 1) == "" then index
    else
      FromShrinks(names, index + 1);
      LastHeader(names, index + 1)
  }

  function CustomHeaders(env: Env, ds: DataSource): Values {
    match ds.json
    case None => map[]
    case Some(json) => Headers(json.headerNames, env.decrypt(ds.secure), LastHeader(json.headerNames, 0))
  }

  method GetCustomHeaders(env: Env, ds: DataSource) returns (headers: Values)
    ensures headers == CustomHeaders(env, ds)
  {
    headers := map[];
    if ds.json.None? {
      return;
    }
    var names := ds.json.value.headerNames;
    var decrypted := env.decrypt(ds.secure);
    var index := 1;
    while true
      invariant index >= 1 && LastHeader(names, index - 1) == LastHeader(names, 0)
      invariant headers == Headers(names, decrypted, index - 1)
      decreases |From(names, index)|
    {
      var key := NameAt(names, index);
      if key == "" {
        break;
      }
      if ValueKey(index) in decrypted {
        headers := headers[key := decrypted[ValueKey(index)]];
      }
      FromShrinks(names, index);
      index := index + 1;
    }
  }

  /** The header numbered `i` is what names `k`, with the value `v`, among the first `n`. */
  ghost predicate Decides(names: map<nat, string>, values: Values, n: nat, i: nat, k: string, v: string) {
    && 1 <= i <= n && NameAt(names, i) == k
    && ValueKey(i) in values && values[ValueKey(i)] == v
    && forall j :: i < j <= n && NameAt(names, j) == k ==> ValueKey(j) !in values
  }

  lemma {:induction false} HeaderIsDecided(names: map<nat, string>, values: Values, n: nat, k: string) returns (i: nat)
    requires k in Headers(names, values, n)
    ensures Decides(names, values, n, i, k, Headers(names, values, n)[k])
  {
    if NameAt(names, n) == k && ValueKey(n) in values {
      i := n;
    } else {
      i := HeaderIsDecided(names, values, n - 1, k);
      StillDecides(names, values, n - 1, i, k, Headers(names, values, n - 1)[k]);
    }
  }

  lemma StillDecides(names: map<nat, string>, values: Values, n: nat, i: nat, k: string, v: string)
    requires Decides(names, values, n, i, k, v) && !(NameAt(names, n + 1) == k && ValueKey(n + 1) in values)
    ensures Decides(names, values, n + 1, i, k, v)
  {
  }

  lemma {:induction false} DecidedIsHeader(names: map<nat, string>, values: Values, n: nat, i: nat, k: string, v: string)
    requires Decides(names, values, n, i, k, v)
    ensures k in Headers(names, values, n) && Headers(names, values, n)[k] == v
  {
    if i < n {
      DecidedIsHeader(names, values, n - 1, i, k, v);
    }
  }

  lemma HeadersAre(names: map<nat, string>, values: Values, n: nat, k: string, v: string)
    ensures k in Headers(names, values, n) && Headers(names, values, n)[k] == v
       <==> exists i: nat :: Decides(names, values, n, i, k, v)
  {
    if k in Headers(names, values, n) {
      var _ := HeaderIsDecided(names, values, n, k);
    }
    if i: nat :| Decides(names, values, n, i, k, v) {
      DecidedIsHeader(names, values, n, i, k, v);
    }
  }

  /**
   * The headers of a data source: of the settings numbered 1, 2, ... up to the first gap, each that has a secret
   * value, the last one of a name deciding.
   */
  lemma CustomHeadersAre(env: Env, ds: DataSource, last: nat, k: string, v: string)
    requires ds.json.Some?
    requires var names := ds.json.value.headerNames;
             (forall i :: 1 <= i <= last ==> NameAt(names, i) != "") && NameAt(names, last + 1) == ""
    ensures k in CustomHeaders(env, ds) && CustomHeaders(env, ds)[k] == v
       <==> exists i: nat :: Decides(ds.json.value.headerNames, env.decrypt(ds.secure), last, i, k, v)
  {
    var names := ds.json.value.headerNames;
    assert LastHeader(names, 0) == last;
    HeadersAre(names, env.decrypt(ds.secure), last, k, v);
  }

  // ---------------------------------------------------------------- what the caches stand for

  function Get(values: Values, key: string): string {
    if key in values then values[key] else ""
  }

  /** A transport made from a data source, with the given secrets for request signing. */
  function Made(env: Env, ds: DataSource, signing: Values): Result<Transport, string> {
    match env.tlsConfig(ds.json, env.decrypt(ds.secure))
    case Err(e) => Err(e)
    case Ok(tls) =>
      var sigV4 := if Signs(env, ds)
                   then Some(SigV4(Get(signing, "sigV4AccessKey"), Get(signing, "sigV4SecretKey"), ds.json.value.sigV4Region))
                   else None;
      Ok(Transport(ds.name, tls, CustomHeaders(env, ds), sigV4))
  }

  /** What is under a key, or nothing. */
  ghost predicate Holds(values: Values, key: string, v: string) {
    if key in values then values[key] == v else v == ""
  }

  /** A transport as it should be: each part from its own setting or secret. */
  ghost predicate Carries(env: Env, ds: DataSource, signing: Values, t: Transport) {
    && t.name == ds.name && env.tlsConfig(ds.json, env.decrypt(ds.secure)) == Ok(t.tls)
    && (ds.json.None? ==> t.headers == map[] && t.sigV4.None?)
    && (ds.json.Some? ==> CarriesHeaders(ds.json.value.headerNames, env.decrypt(ds.secure), t.headers))
    && (t.sigV4.Some? <==> ds.json.Some? && ds.json.value.sigV4Auth && env.sigV4Enabled)
    && (t.sigV4.Some? ==>
          && Holds(signing, "sigV4AccessKey", t.sigV4.value.accessKey) && Holds(signing, "sigV4SecretKey", t.sigV4.value.secretKey)
          && t.sigV4.value.region == ds.json.value.sigV4Region)
  }

  /** The headers numbered without a gap from 1, each with its secret, the last of a name deciding. */
  ghost predicate CarriesHeaders(names: map<nat, string>, values: Values, headers: Values) {
    exists last: nat :: CarriesUpTo(names, values, headers, last)
  }

  ghost predicate CarriesUpTo(names: map<nat, string>, values: Values, headers: Values, last: nat) {
    && (forall i :: 1 <= i <= last ==> NameAt(names, i) != "") && NameAt(names, last + 1) == ""
    && forall k, v :: Decided(names, values, last, k, v) <==> k in headers && headers[k] == v
  }

  ghost predicate Decided(names: map<nat, string>, values: Values, last: nat, k: string, v: string) {
    exists i: nat :: Decides(names, values, last, i, k, v)
  }

  /** What is made is as it should be, and fails only with its TLS configuration. */
  lemma MadeCarries(env: Env, ds: DataSource, signing: Values)
    ensures var made := Made(env, ds, signing);
            if made.Err? then env.tlsConfig(ds.json, env.decrypt(ds.secure)) == Err(made.error) else Carries(env, ds, signing, made.value)
  {
    if ds.json.Some? {
      HeadersCarried(env, ds);
    }
  }

  lemma HeadersCarried(env: Env, ds: DataSource)
    requires ds.json.Some?
    ensures CarriesHeaders(ds.json.value.headerNames, env.decrypt(ds.secure), CustomHeaders(env, ds))
  {
    var names, values, headers := ds.json.value.headerNames, env.decrypt(ds.secure), CustomHeaders(env, ds);
    var last := LastHeader(names, 0);
    forall k, v
      ensures Decided(names, values, last, k, v) <==> k in headers && headers[k] == v
    {
      CustomHeadersAre(env, ds, last, k, v);
    }
    assert CarriesUpTo(names, values, headers, last);
  }

  predicate Signs(env: Env, ds: DataSource) {
    ds.json.Some? && ds.json.value.sigV4Auth && env.sigV4Enabled
  }

  datatype Entry<+V> = Entry(updated: int, value: V)

  datatype State = State(secrets: map<int, Entry<Values>>, transports: map<int, Entry<Transport>>)

  predicate Hit<V>(cache: map<int, Entry<V>>, ds: DataSource) {
    ds.id in cache && cache[ds.id].updated == ds.updated
  }

  datatype Op = Read(ds: DataSource) | Connect(ds: DataSource) | Clear

  datatype Answer = Secrets(values: Values) | Link(transport: Result<Transport, string>) | Cleared

  /** What an operation answers where nothing is cached. */
  function Fresh(env: Env, op: Op): Answer {
    match op
    case Read(ds) => Secrets(env.decrypt(ds.secure))
    case Connect(ds) => Link(Made(env, ds, env.decrypt(ds.secure)))
    case Clear => Cleared
  }

  function ReadStep(env: Env, st: State, ds: DataSource): (State, Values) {
    if Hit(st.secrets, ds) then (st, st.secrets[ds.id].value)
    else
      var values := env.decrypt(ds.secure);
      (st.(secrets := st.secrets[ds.id := Entry(ds.updated, values)]), values)
  }

  function ConnectStep(env: Env, st: State, ds: DataSource): (State, Result<Transport, string>) {
    if Hit(st.transports, ds) then (st, Ok(st.transports[ds.id].value))
    else if env.tlsConfig(ds.json, env.decrypt(ds.secure)).Err? then (st, Made(env, ds, map[]))
    else
      var (st1, signing) := if Signs(env, ds) then ReadStep(env, st, ds) else (st, map[]);
      var made := Made(env, ds, signing);
      (st1.(transports := st1.transports[ds.id := Entry(ds.updated, made.value)]), made)
  }

  function Step(env: Env, st: State, op: Op): (State, Answer) {
    match op
    case Read(ds) => var (next, values) := ReadStep(env, st, ds); (next, Secrets(values))
    case Connect(ds) => var (next, transport) := ConnectStep(env, st, ds); (next, Link(transport))
    case Clear => (st.(secrets := map[]), Cleared)
  }

  class Caches {
    const env: Env
    var secrets: map<int, Entry<Values>>
    var transports: map<int, Entry<Transport>>

    function Now(): State
      reads this
    {
      State(secrets, transports)
    }

    constructor (env: Env)
      ensures this.env == env && Now() == State(map[], map[])
    {
      this.env := env;
      secrets, transports := map[], map[];
    }

    method DecryptedValues(ds: DataSource) returns (json: Values)
      modifies this
      ensures (Now(), json) == ReadStep(env, old(Now()), ds)
    {
      if ds.id in secrets && ds.updated == secrets[ds.id].updated {
        return secrets[ds.id].value;
      }
      json := env.decrypt(ds.secure);
      secrets := secrets[ds.id := Entry(ds.updated, json)];
    }

    method ClearDSDecryptionCache()
      modifies this
      ensures Now() == old(Now()).(secrets := map[])
    {
      secrets := map[];
    }

    method GetHttpTransport(ds: DataSource) returns (transport: Result<Transport, string>)
      modifies this
      ensures (Now(), transport) == ConnectStep(env, old(Now()), ds)
      ensures transport.Ok? && !(ds.id in old(transports) && old(transports)[ds.id].updated == ds.updated)
              ==> exists signing :: Carries(env, ds, signing, transport.value)
                                    && (transport.value.sigV4.Some? ==> secrets[ds.id := Entry(ds.updated, signing)] == secrets)
    {
      if ds.id in transports && ds.updated == transports[ds.id].updated {
        return Ok(transports[ds.id].value);
      }
      var tls := env.tlsConfig(ds.json, env.decrypt(ds.secure));
      if tls.Err? {
        return Err(tls.error);
      }
      var headers := GetCustomHeaders(env, ds);
      var sigV4 := None;
      if ds.json.Some? && ds.json.value.sigV4Auth && env.sigV4Enabled {
        var decrypted := DecryptedValues(ds);
        sigV4 := Some(SigV4(Get(decrypted, "sigV4AccessKey"), Get(decrypted, "sigV4SecretKey"), ds.json.value.sigV4Region));
      }
      var made := Transport(ds.name, tls.value, headers, sigV4);
      transports := transports[ds.id := Entry(ds.updated, made)];
      MadeCarries(env, ds, if sigV4.Some? then secrets[ds.id].value else map[]);
      return Ok(made);
    }

    /** A run of calls, one after the other. */
    method Serve(ops: seq<Op>) returns (answers: seq<Answer>)
      modifies this
      ensures answers == Answers(env, old(Now()), ops)
    {
      answers := [];
      for i := 0 to |ops|
        invariant Now() == After(env, old(Now()), ops[..i])
        invariant answers == Answers(env, old(Now()), ops[..i])
      {
        assert ops[..i + 1][..i] == ops[..i];
        match ops[i] {
          case Read(ds) =>
            var values := DecryptedValues(ds);
            answers := answers + [Secrets(values)];
          case Connect(ds) =>
            var transport := GetHttpTransport(ds);
            answers := answers + [Link(transport)];
          case Clear =>
            ClearDSDecryptionCache();
            answers := answers + [Cleared];
        }
      }
      assert ops[..|ops|] == ops;
    }
  }

  function After(env: Env, st: State, ops: seq<Op>): State {
    if ops == [] then st else Step(env, After(env, st, ops[..|ops| - 1]), ops[|ops| - 1]).0
  }

  function Answers(env: Env, st: State, ops: seq<Op>): (answers: seq<Answer>)
    ensures |answers| == |ops|
  {
    if ops == [] then []
    else
      var front := ops[..|ops| - 1];
      Answers(env, st, front) + [Step(env, After(env, st, front), ops[|ops| - 1]).1]
  }

  // ---------------------------------------------------------------- both caches agree with no cache

  ghost predicate Uses(ops: seq<Op>, ds: DataSource) {
    Read(ds) in ops || Connect(ds) in ops
  }

  /** Among the data sources in use, the id and the time of the last update determine all the rest. */
  ghost predicate Determined(ops: seq<Op>) {
    forall a, b :: Uses(ops, a) && Uses(ops, b) && a.id == b.id && a.updated == b.updated ==> a == b
  }

  ghost predicate SecretsFrom(env: Env, st: State, ops: seq<Op>) {
    forall id :: id in st.secrets ==> exists ds ::
      Uses(ops, ds) && ds.id == id && st.secrets[id] == Entry(ds.updated, env.decrypt(ds.secure))
  }

  ghost predicate TransportsFrom(env: Env, st: State, ops: seq<Op>) {
    forall id :: id in st.transports ==> exists ds ::
      && Uses(ops, ds) && ds.id == id && st.transports[id].updated == ds.updated
      && Made(env, ds, env.decrypt(ds.secure)) == Ok(st.transports[id].value)
  }

  /** One step from a state in which everything cached is fresh. */
  lemma FreshStep(env: Env, st: State, front: seq<Op>, op: Op)
    requires Determined(front + [op])
    requires SecretsFrom(env, st, front) && TransportsFrom(env, st, front)
    ensures Step(env, st, op).1 == Fresh(env, op)
    ensures SecretsFrom(env, Step(env, st, op).0, front + [op]) && TransportsFrom(env, Step(env, st, op).0, front + [op])
  {
    var ops := front + [op];
    assert forall ds :: Uses(front, ds) ==> Uses(ops, ds);
    assert op in ops;
    if !op.Clear? {
      assert Uses(ops, op.ds);
    }
  }

  /**
   * In any run of reads, connections and clears, every answer is what would be computed without the caches, given
   * that the id and the time of the last update determine a data source.
   */
  lemma {:induction false} AnswersAreFresh(env: Env, ops: seq<Op>)
    requires Determined(ops)
    ensures forall i :: 0 <= i < |ops| ==> Answers(env, State(map[], map[]), ops)[i] == Fresh(env, ops[i])
    ensures SecretsFrom(env, After(env, State(map[], map[]), ops), ops)
    ensures TransportsFrom(env, After(env, State(map[], map[]), ops), ops)
  {
    if ops != [] {
      var front, op := ops[..|ops| - 1], ops[|ops| - 1];
      assert ops == front + [op];
      assert forall ds :: Uses(front, ds) ==> Uses(ops, ds);
      AnswersAreFresh(env, front);
      FreshStep(env, After(env, State(map[], map[]), front), front, op);
    }
  }

  // ---------------------------------------------------------------- exactly when secrets are fresh

  /** The state before operation `n` of a run. */
  ghost function Before(env: Env, ops: seq<Op>, n: nat): State
    requires n <= |ops|
  {
    After(env, State(map[], map[]), ops[..n])
  }

  /** Operation `k` looks secrets up: it is a read, or a connection that makes a signing transport. */
  ghost predicate Reads(env: Env, ops: seq<Op>, k: nat)
    requires k < |ops|
  {
    match ops[k]
    case Read(_) => true
    case Connect(ds) =>
      !Hit(Before(env, ops, k).transports, ds) && env.tlsConfig(ds.json, env.decrypt(ds.secure)).Ok? && Signs(env, ds)
    case Clear => false
  }

  /** The secrets that operation `k` gets. */
  ghost function Got(env: Env, ops: seq<Op>, k: nat): Values
    requires k < |ops| && Reads(env, ops, k)
  {
    ReadStep(env, Before(env, ops, k), ops[k].ds).1
  }

  /** All lookups of secrets get what decrypting would. */
  ghost predicate SecretsFresh(env: Env, ops: seq<Op>) {
    forall k: nat :: k < |ops| && Reads(env, ops, k) ==> Got(env, ops, k) == env.decrypt(ops[k].ds.secure)
  }

  /** A read answers what it gets, and a connection that looks secrets up signs with what it gets. */
  lemma AnswersUseGot(env: Env, ops: seq<Op>, k: nat)
    requires k < |ops| && Reads(env, ops, k)
    ensures Answers(env, State(map[], map[]), ops)[k]
         == if ops[k].Read? then Secrets(Got(env, ops, k)) else Link(Made(env, ops[k].ds, Got(env, ops, k)))
  {
    AnswerAt(env, State(map[], map[]), ops, k);
  }

  lemma {:induction false} AnswerAt(env: Env, st: State, ops: seq<Op>, j: nat)
    requires j < |ops|
    ensures Answers(env, st, ops)[j] == Step(env, After(env, st, ops[..j]), ops[j]).1
  {
    var front := ops[..|ops| - 1];
    if j < |front| {
      assert front[..j] == ops[..j];
      AnswerAt(env, st, front, j);
    }
  }

  /** What an operation does to the secrets. */
  lemma NextSecrets(env: Env, ops: seq<Op>, k: nat)
    requires k < |ops|
    ensures Before(env, ops, k + 1).secrets
         == if Reads(env, ops, k) then ReadStep(env, Before(env, ops, k), ops[k].ds).0.secrets
            else if ops[k].Clear? then map[]
            else Before(env, ops, k).secrets
  {
    assert ops[..k + 1][..k] == ops[..k];
  }

  /** Nothing happens to the cached secrets of `ds` from `i` up to `n`: no clear, no lookup after another update. */
  ghost predicate Undisturbed(env: Env, ops: seq<Op>, i: nat, n: nat, ds: DataSource)
    requires n <= |ops|
  {
    forall k: nat :: i <= k < n ==>
      !ops[k].Clear? && (Reads(env, ops, k) && ops[k].ds.id == ds.id ==> ops[k].ds.updated == ds.updated)
  }

  /** Two lookups for one data source at the same time of update, undisturbed in between. */
  ghost predicate Linked(env: Env, ops: seq<Op>, i: nat, j: nat)
    requires i < j < |ops|
  {
    Reads(env, ops, i) && Reads(env, ops, j) && ops[j].ds.id == ops[i].ds.id && Undisturbed(env, ops, i, j + 1, ops[i].ds)
  }

  /** Linked lookups decrypt to the same. */
  ghost predicate LinkedAgree(env: Env, ops: seq<Op>) {
    forall i: nat, j: nat :: i < j < |ops| && Linked(env, ops, i, j) ==> env.decrypt(ops[i].ds.secure) == env.decrypt(ops[j].ds.secure)
  }

  ghost predicate Source(env: Env, ops: seq<Op>, n: nat, id: int, entry: Entry<Values>, i: nat)
    requires n <= |ops|
  {
    && i < n && Reads(env, ops, i) && ops[i].ds.id == id
    && entry == Entry(ops[i].ds.updated, env.decrypt(ops[i].ds.secure))
    && Undisturbed(env, ops, i, n, ops[i].ds)
  }

  /** Everything cached was decrypted at a lookup that nothing has disturbed since. */
  ghost predicate Sourced(env: Env, ops: seq<Op>, n: nat)
    requires n <= |ops|
  {
    forall id :: id in Before(env, ops, n).secrets ==> exists i: nat :: Source(env, ops, n, id, Before(env, ops, n).secrets[id], i)
  }

  lemma SourceStays(env: Env, ops: seq<Op>, n: nat, id: int, entry: Entry<Values>, i: nat)
    requires n < |ops| && Source(env, ops, n, id, entry, i) && !ops[n].Clear?
    requires Reads(env, ops, n) && ops[n].ds.id == id ==> ops[n].ds.updated == entry.updated
    ensures Source(env, ops, n + 1, id, entry, i)
  {
  }

  lemma StepKeepsSourced(env: Env, ops: seq<Op>, n: nat)
    requires n < |ops| && Sourced(env, ops, n)
    ensures Sourced(env, ops, n + 1)
  {
    NextSecrets(env, ops, n);
    var m := n + 1;
    var before, after := Before(env, ops, n).secrets, Before(env, ops, m).secrets;
    forall id | id in after
      ensures exists i: nat :: Source(env, ops, m, id, after[id], i)
    {
      if id in before && after[id] == before[id] && !(Reads(env, ops, n) && ops[n].ds.id == id && ops[n].ds.updated != after[id].updated) {
        var i: nat :| Source(env, ops, n, id, before[id], i);
        SourceStays(env, ops, n, id, before[id], i);
      } else {
        assert Source(env, ops, m, id, after[id], n);
      }
    }
  }

  lemma {:induction false} AlwaysSourced(env: Env, ops: seq<Op>, n: nat)
    requires n <= |ops|
    ensures Sourced(env, ops, n)
  {
    if n == 0 {
      assert ops[..0] == [];
    } else {
      AlwaysSourced(env, ops, n - 1);
      StepKeepsSourced(env, ops, n - 1);
    }
  }

  /** A fresh lookup leaves its own secrets, and they stay until they are disturbed. */
  lemma {:induction false} Kept(env: Env, ops: seq<Op>, i: nat, n: nat)
    requires i < n <= |ops| && Reads(env, ops, i) && Got(env, ops, i) == env.decrypt(ops[i].ds.secure)
    requires Undisturbed(env, ops, i, n, ops[i].ds)
    ensures ops[i].ds.id in Before(env, ops, n).secrets
    ensures Before(env, ops, n).secrets[ops[i].ds.id] == Entry(ops[i].ds.updated, env.decrypt(ops[i].ds.secure))
    decreases n
  {
    NextSecrets(env, ops, n - 1);
    if n > i + 1 {
      assert Undisturbed(env, ops, i, n - 1, ops[i].ds);
      Kept(env, ops, i, n - 1);
    }
  }

  lemma LinkedLookupsAgree(env: Env, ops: seq<Op>, i: nat, j: nat)
    requires i < j < |ops| && SecretsFresh(env, ops) && Linked(env, ops, i, j)
    ensures env.decrypt(ops[i].ds.secure) == env.decrypt(ops[j].ds.secure)
  {
    assert Undisturbed(env, ops, i, j, ops[i].ds);
    Kept(env, ops, i, j);
    assert ops[j].ds.updated == ops[i].ds.updated;
  }

  lemma FreshAt(env: Env, ops: seq<Op>, j: nat)
    requires j < |ops| && Reads(env, ops, j) && LinkedAgree(env, ops)
    ensures Got(env, ops, j) == env.decrypt(ops[j].ds.secure)
  {
    AlwaysSourced(env, ops, j);
    var secrets, id := Before(env, ops, j).secrets, ops[j].ds.id;
    if Hit(secrets, ops[j].ds) {
      var i: nat :| Source(env, ops, j, id, secrets[id], i);
      assert Linked(env, ops, i, j);
    }
  }

  /**
   * In any run of reads, connections and clears: all lookups of secrets are fresh exactly when any two for one data
   * source at the same time of update, with no clear and no lookup at another time of update in between, decrypt to
   * the same.
   */
  lemma SecretsFreshIff(env: Env, ops: seq<Op>)
    ensures SecretsFresh(env, ops) <==> LinkedAgree(env, ops)
  {
    if SecretsFresh(env, ops) {
      forall i: nat, j: nat | i < j < |ops| && Linked(env, ops, i, j)
        ensures env.decrypt(ops[i].ds.secure) == env.decrypt(ops[j].ds.secure)
      {
        LinkedLookupsAgree(env, ops, i, j);
      }
    }
    if LinkedAgree(env, ops) {
      forall j: nat | j < |ops| && Reads(env, ops, j)
        ensures Got(env, ops, j) == env.decrypt(ops[j].ds.secure)
      {
        FreshAt(env, ops, j);
      }
    }
  }

  // ---------------------------------------------------------------- exactly when transports are fresh

  /** What the connection `k` answers. */
  ghost function Connected(env: Env, ops: seq<Op>, k: nat): Result<Transport, string>
    requires k < |ops| && ops[k].Connect?
  {
    ConnectStep(env, Before(env, ops, k), ops[k].ds).1
  }

  ghost function FreshTransport(env: Env, ds: DataSource): Result<Transport, string> {
    Made(env, ds, env.decrypt(ds.secure))
  }

  ghost predicate TransportsFresh(env: Env, ops: seq<Op>) {
    forall k: nat :: k < |ops| && ops[k].Connect? ==> Connected(env, ops, k) == FreshTransport(env, ops[k].ds)
  }

  lemma AnswersAreConnected(env: Env, ops: seq<Op>, k: nat)
    requires k < |ops| && ops[k].Connect?
    ensures Answers(env, State(map[], map[]), ops)[k] == Link(Connected(env, ops, k))
  {
    AnswerAt(env, State(map[], map[]), ops, k);
  }

  /** A connection that signs with secrets it looks up makes what fresh secrets would make. */
  ghost predicate SigningsFresh(env: Env, ops: seq<Op>) {
    forall k: nat :: k < |ops| && ops[k].Connect? && Reads(env, ops, k) ==> Made(env, ops[k].ds, Got(env, ops, k)) == FreshTransport(env, ops[k].ds)
  }

  /** Nothing replaces the transport of `ds` from `i` up to `n`: only a connection that succeeds after another update does. */
  ghost predicate Unreplaced(env: Env, ops: seq<Op>, i: nat, n: nat, ds: DataSource)
    requires n <= |ops|
  {
    forall k: nat :: i <= k < n && ops[k].Connect? && ops[k].ds.id == ds.id && Connected(env, ops, k).Ok? ==> ops[k].ds.updated == ds.updated
  }

  /** A connection that succeeds, and one for the same data source at the same time of update that finds its transport. */
  ghost predicate Shared(env: Env, ops: seq<Op>, i: nat, j: nat)
    requires i < j < |ops|
  {
    && ops[i].Connect? && Connected(env, ops, i).Ok? && ops[j].Connect?
    && ops[j].ds.id == ops[i].ds.id && ops[j].ds.updated == ops[i].ds.updated && Unreplaced(env, ops, i, j, ops[i].ds)
  }

  ghost predicate SharedAgree(env: Env, ops: seq<Op>) {
    forall i: nat, j: nat :: i < j < |ops| && Shared(env, ops, i, j) ==> FreshTransport(env, ops[i].ds) == FreshTransport(env, ops[j].ds)
  }

  /** What an operation does to the transports. */
  lemma NextTransports(env: Env, ops: seq<Op>, k: nat)
    requires k < |ops|
    ensures Before(env, ops, k + 1).transports
         == if ops[k].Connect? && Connected(env, ops, k).Ok?
            then Before(env, ops, k).transports[ops[k].ds.id := Entry(ops[k].ds.updated, Connected(env, ops, k).value)]
            else Before(env, ops, k).transports
  {
    assert ops[..k + 1][..k] == ops[..k];
    if ops[k].Connect? && Hit(Before(env, ops, k).transports, ops[k].ds) {
      var cache := Before(env, ops, k).transports;
      assert cache[ops[k].ds.id := cache[ops[k].ds.id]] == cache;
    }
  }

  ghost predicate Maker(env: Env, ops: seq<Op>, n: nat, id: int, entry: Entry<Transport>, i: nat)
    requires n <= |ops|
  {
    && i < n && ops[i].Connect? && ops[i].ds.id == id && ops[i].ds.updated == entry.updated
    && Connected(env, ops, i) == Ok(entry.value) && !Hit(Before(env, ops, i).transports, ops[i].ds)
    && Unreplaced(env, ops, i, n, ops[i].ds)
  }

  /** Every cached transport was made by a connection, and nothing has replaced it since. */
  ghost predicate AllMade(env: Env, ops: seq<Op>, n: nat)
    requires n <= |ops|
  {
    forall id :: id in Before(env, ops, n).transports ==> exists i: nat :: Maker(env, ops, n, id, Before(env, ops, n).transports[id], i)
  }

  lemma MakerStays(env: Env, ops: seq<Op>, n: nat, id: int, entry: Entry<Transport>, i: nat)
    requires n < |ops| && Maker(env, ops, n, id, entry, i)
    requires ops[n].Connect? && ops[n].ds.id == id && Connected(env, ops, n).Ok? ==> ops[n].ds.updated == entry.updated
    ensures Maker(env, ops, n + 1, id, entry, i)
  {
  }

  lemma StepKeepsMade(env: Env, ops: seq<Op>, n: nat)
    requires n < |ops| && AllMade(env, ops, n)
    ensures AllMade(env, ops, n + 1)
  {
    NextTransports(env, ops, n);
    var m := n + 1;
    var before, after := Before(env, ops, n).transports, Before(env, ops, m).transports;
    forall id | id in after
      ensures exists i: nat :: Maker(env, ops, m, id, after[id], i)
    {
      if ops[n].Connect? && ops[n].ds.id == id && Connected(env, ops, n).Ok? && !Hit(before, ops[n].ds) {
        assert Maker(env, ops, m, id, after[id], n);
      } else {
        var i: nat :| Maker(env, ops, n, id, before[id], i);
        MakerStays(env, ops, n, id, before[id], i);
      }
    }
  }

  lemma {:induction false} AlwaysMade(env: Env, ops: seq<Op>, n: nat)
    requires n <= |ops|
    ensures AllMade(env, ops, n)
  {
    if n == 0 {
      assert ops[..0] == [];
    } else {
      AlwaysMade(env, ops, n - 1);
      StepKeepsMade(env, ops, n - 1);
    }
  }

  /** What is made is fresh, if signing is. */
  lemma MakingIsFresh(env: Env, ops: seq<Op>, k: nat)
    requires SigningsFresh(env, ops) && k < |ops| && ops[k].Connect? && !Hit(Before(env, ops, k).transports, ops[k].ds)
    ensures Connected(env, ops, k) == FreshTransport(env, ops[k].ds)
  {
    if Reads(env, ops, k) {
      assert Connected(env, ops, k) == Made(env, ops[k].ds, Got(env, ops, k));
    }
  }

  lemma {:induction false} TransportStays(env: Env, ops: seq<Op>, i: nat, n: nat)
    requires i < n <= |ops| && ops[i].Connect? && Connected(env, ops, i).Ok? && Unreplaced(env, ops, i, n, ops[i].ds)
    ensures ops[i].ds.id in Before(env, ops, n).transports
    ensures Before(env, ops, n).transports[ops[i].ds.id] == Entry(ops[i].ds.updated, Connected(env, ops, i).value)
    decreases n
  {
    NextTransports(env, ops, n - 1);
    if n > i + 1 {
      TransportStays(env, ops, i, n - 1);
    }
  }

  lemma TransportFreshAt(env: Env, ops: seq<Op>, j: nat)
    requires SigningsFresh(env, ops) && SharedAgree(env, ops) && j < |ops| && ops[j].Connect?
    ensures Connected(env, ops, j) == FreshTransport(env, ops[j].ds)
  {
    var transports, id := Before(env, ops, j).transports, ops[j].ds.id;
    if Hit(transports, ops[j].ds) {
      AlwaysMade(env, ops, j);
      var i: nat :| Maker(env, ops, j, id, transports[id], i);
      MakingIsFresh(env, ops, i);
      assert Shared(env, ops, i, j);
    } else {
      MakingIsFresh(env, ops, j);
    }
  }

  lemma SigningFreshAt(env: Env, ops: seq<Op>, k: nat)
    requires TransportsFresh(env, ops) && k < |ops| && ops[k].Connect? && Reads(env, ops, k)
    ensures Made(env, ops[k].ds, Got(env, ops, k)) == FreshTransport(env, ops[k].ds)
  {
    assert Connected(env, ops, k) == Made(env, ops[k].ds, Got(env, ops, k));
  }

  /**
   * In any run of reads, connections and clears: all connections get fresh transports exactly when those that sign with
   * secrets they look up make what fresh secrets would make, and any two for one data source at the same time of update,
   * with no success at another time of update in between, would freshly be given the same. Clearing does not matter.
   */
  lemma TransportsFreshIff(env: Env, ops: seq<Op>)
    ensures TransportsFresh(env, ops) <==> SigningsFresh(env, ops) && SharedAgree(env, ops)
  {
    if TransportsFresh(env, ops) {
      forall k: nat | k < |ops| && ops[k].Connect? && Reads(env, ops, k)
        ensures Made(env, ops[k].ds, Got(env, ops, k)) == FreshTransport(env, ops[k].ds)
      {
        SigningFreshAt(env, ops, k);
      }
      forall i: nat, j: nat | i < j < |ops| && Shared(env, ops, i, j)
        ensures FreshTransport(env, ops[i].ds) == FreshTransport(env, ops[j].ds)
      {
        TransportStays(env, ops, i, j);
      }
    }
    if SigningsFresh(env, ops) && SharedAgree(env, ops) {
      forall j: nat | j < |ops| && ops[j].Connect?
        ensures Connected(env, ops, j) == FreshTransport(env, ops[j].ds)
      {
        TransportFreshAt(env, ops, j);
      }
    }
  }
}
