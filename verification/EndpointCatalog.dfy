/** The endpoint catalog: a lazy per-server cache over one frozen snapshot
    (src/endpoints.rs:206-359, src/endpoints.rs:406-682). */
module EndpointCatalog {
  import opened Prelude
  import opened Text

  /** What libraries decide about a string: the URL parser with the literal-HTTPS checks, and
      the HTTP header syntax. They stay parameters of the model. */
  datatype Lib = Lib(baseUrlOk: string -> bool, headerNameOk: string -> bool, headerValueOk: string -> bool,
    queryOk: string -> bool)

  datatype AuthScheme = NoAuth | BearerAuth | HeaderAuth(name: string) | QueryAuth

  datatype Config = Config(baseUrl: Option<string>, auth: AuthScheme)

  datatype Auth = AuthNone | Bearer(token: string) | Header(name: string, value: string) | Query(query: string)

  datatype Endpoint = Endpoint(baseUrl: string, auth: Auth)

  datatype Error =
    | ServerMissing | WrongWrapper | NotPermitted | BadServerOptions
    | MappingMissing | MappingHidden | BadMapping | CredentialMissing | NoBaseUrl
    | Unreachable                    // the connection could not be made, or a query failed

  type Options = map<string, string>

  // ----- options -----

  /** `parse_options`: every option is name=value and no name repeats. */
  function ParsedOptions(options: seq<string>): Option<Options> {
    if options == [] then Some(map[])
    else
      var last := SplitOnce(options[|options| - 1], "=");
      match ParsedOptions(options[..|options| - 1])
      case None => None
      case Some(front) =>
        if last.None? || last.value.0 in front then None else Some(front[last.value.0 := last.value.1])
  }

  lemma {:induction false} ParsedPrefix(options: seq<string>, k: nat)
    requires k <= |options| && ParsedOptions(options).Some?
    ensures ParsedOptions(options[..k]).Some?
  {
    if k == |options| {
      assert options[..k] == options;
    } else {
      ParsedPrefix(options[..|options| - 1], k);
      assert options[..|options| - 1][..k] == options[..k];
    }
  }

  method ParseOptions(options: seq<string>) returns (r: Option<Options>)
    ensures r == ParsedOptions(options)
  {
    hide SplitOnce;
    var parsed: Options := map[];
    assert options[..0] == [];
    for i := 0 to |options|
      invariant ParsedOptions(options[..i]) == Some(parsed)
    {
      var option := SplitOnce(options[i], "=");
      assert options[..i + 1][..i] == options[..i];
      if option.None? || option.value.0 in parsed {
        if ParsedOptions(options).Some? { ParsedPrefix(options, i + 1); }
        return None;
      }
      parsed := parsed[option.value.0 := option.value.1];
    }
    assert options[..|options|] == options;
    r := Some(parsed);
  }

  /** The parsed map holds exactly the written pairs, each name once. */
  lemma {:induction false} ParsedOptionsHold(options: seq<string>, name: string)
    requires ParsedOptions(options).Some?
    ensures name in ParsedOptions(options).value <==>
            exists i :: 0 <= i < |options| && SplitOnce(options[i], "=").Some?
              && SplitOnce(options[i], "=").value.0 == name
    ensures forall i, j :: 0 <= i < j < |options| ==>
              SplitOnce(options[i], "=").Some? && SplitOnce(options[j], "=").Some? &&
              SplitOnce(options[i], "=").value.0 != SplitOnce(options[j], "=").value.0
    ensures forall i :: 0 <= i < |options| ==>
              SplitOnce(options[i], "=").Some? && SplitOnce(options[i], "=").value.0 in ParsedOptions(options).value &&
              ParsedOptions(options).value[SplitOnce(options[i], "=").value.0] == SplitOnce(options[i], "=").value.1
  {
    hide SplitOnce;
    if options != [] {
      var n := |options| - 1;
      var front := options[..n];
      ParsedOptionsHold(front, name);
      ParsedOptionsHold(front, SplitOnce(options[n], "=").value.0);
      assert forall i :: 0 <= i < n ==> front[i] == options[i];
    }
  }

  function Required(options: Options, name: string): Option<string> {
    if name in options && options[name] != "" then Some(options[name]) else None
  }

  /** `EndpointConfig::from_options` */
  function ConfigOf(lib: Lib, options: seq<string>): Option<Config> {
    match ParsedOptions(options)
    case None => None
    case Some(o) =>
      if exists name :: name in o && name !in {"base_url", "auth_scheme", "header_name"} then None
      else if "base_url" in o && (o["base_url"] == "" || !lib.baseUrlOk(o["base_url"])) then None
      else
        var baseUrl := if "base_url" in o then Some(o["base_url"]) else None;
        var scheme := Required(o, "auth_scheme");
        var auth :=
          if scheme == Some("none") then Some(NoAuth)
          else if scheme == Some("bearer") then Some(BearerAuth)
          else if scheme == Some("query") then Some(QueryAuth)
          else if scheme == Some("header") && Required(o, "header_name").Some? && lib.headerNameOk(o["header_name"])
          then Some(HeaderAuth(o["header_name"]))
          else None;
        if auth.None? then None
        else if !auth.value.HeaderAuth? && "header_name" in o then None
        else if baseUrl.None? && !auth.value.NoAuth? then None
        else Some(Config(baseUrl, auth.value))
  }

  const SECRET_PREFIX := "secret."

  predicate IsSecretName(name: string) { SECRET_PREFIX <= name }

  function SecretKey(name: string): (key: string)
    requires IsSecretName(name)
    ensures SECRET_PREFIX + key == name
  {
    name[|SECRET_PREFIX|..]
  }

  predicate IsControl(c: char) { c < ' ' || 0x7F <= c as int < 0xA0 }

  predicate SecretKeyOk(key: string) {
    key != "" && '=' !in key && forall i :: 0 <= i < |key| ==> !IsControl(key[i])
  }

  predicate MappingOptionOk(lib: Lib, name: string, value: string) {
    if IsSecretName(name) then SecretKeyOk(SecretKey(name))
    else
      && value != ""
      && (if name == "token" then lib.headerValueOk(value) && forall i :: 0 <= i < |value| ==> '!' <= value[i] <= '~'
          else if name == "header_value" then lib.headerValueOk(value)
          else name == "query_string" && lib.queryOk(value))
  }

  /** `validate_mapping_options` */
  predicate MappingOk(lib: Lib, options: seq<string>) {
    var o := ParsedOptions(options);
    o.Some? && forall name :: name in o.value ==> MappingOptionOk(lib, name, o.value[name])
  }

  // ----- the server's catalog, and direct lookups in it -----

  datatype ServerRow = ServerRow(oid: int, ourWrapper: bool, usage: bool, options: seq<string>)

  /** A committed state: servers by name, and the submitting role's own mappings by server;
      a mapping's options may be hidden from the role. */
  datatype Store = Store(servers: map<string, ServerRow>, mappings: map<int, Option<seq<string>>>)

  datatype Loaded = Loaded(oid: int, config: Config)

  function DirectServer(lib: Lib, s: Store, server: string): Result<Loaded, Error> {
    if server !in s.servers then Err(ServerMissing)
    else
      var row := s.servers[server];
      if !row.ourWrapper then Err(WrongWrapper)
      else if !row.usage then Err(NotPermitted)
      else
        match ConfigOf(lib, row.options)
        case None => Err(BadServerOptions)
        case Some(config) => Ok(Loaded(row.oid, config))
  }

  function MappingOf(lib: Lib, s: Store, oid: int): Result<seq<string>, Error> {
    if oid !in s.mappings then Err(MappingMissing)
    else
      match s.mappings[oid]
      case None => Err(MappingHidden)
      case Some(options) => if MappingOk(lib, options) then Ok(options) else Err(BadMapping)
  }

  function DirectMapping(lib: Lib, s: Store, server: string): Result<seq<string>, Error> {
    match DirectServer(lib, s, server)
    case Err(e) => Err(e)
    case Ok(loaded) => MappingOf(lib, s, loaded.oid)
  }

  function SecretKeys(options: Options): (keys: set<string>)
    ensures forall key :: key in keys ==> SECRET_PREFIX + key in options
  {
    set name | name in options && IsSecretName(name) :: SecretKey(name)
  }

  function SecretsOf(options: Options): map<string, string> {
    map key | key in SecretKeys(options) :: options[SECRET_PREFIX + key]
  }

  lemma SecretsOfHold(options: Options, key: string)
    ensures key in SecretsOf(options) <==> SECRET_PREFIX + key in options
    ensures key in SecretsOf(options) ==> SecretsOf(options)[key] == options[SECRET_PREFIX + key]
  {
    var name := SECRET_PREFIX + key;
    assert IsSecretName(name);
    assert SecretKey(name) == key;
  }

  /** The named secrets of a mapping are exactly the options written `secret.<key>=<value>`. */
  lemma SecretsAreWritten(options: seq<string>, key: string, value: string)
    requires ParsedOptions(options).Some? && '=' !in key
    ensures (key in SecretsOf(ParsedOptions(options).value) && SecretsOf(ParsedOptions(options).value)[key] == value)
            <==> SECRET_PREFIX + key + "=" + value in options
  {
    var o, name := ParsedOptions(options).value, SECRET_PREFIX + key;
    var written := name + "=" + value;
    SecretsOfHold(o, key);
    ParsedOptionsHold(options, name);
    SplitOnceAtToken(name, value, "=", '=');
    if written in options {
      var i :| 0 <= i < |options| && options[i] == written;
    }
    if name in o {
      var i :| 0 <= i < |options| && SplitOnce(options[i], "=").Some? && SplitOnce(options[i], "=").value.0 == name;
      assert options[i] == name + "=" + o[name];
    }
  }

  function DirectSecrets(lib: Lib, s: Store, server: string): Result<map<string, string>, Error> {
    match DirectMapping(lib, s, server)
    case Err(e) => Err(e)
    case Ok(options) =>
      match ParsedOptions(options)
      case None => Err(BadMapping)
      case Some(o) => Ok(SecretsOf(o))
  }

  function StripQuestionMark(q: string): string { if q != "" && q[0] == '?' then q[1..] else q }

  /** `resolve_auth` for a scheme that needs a credential. */
  function AuthOf(lib: Lib, scheme: AuthScheme, mapping: seq<string>): Result<Auth, Error>
    requires !scheme.NoAuth?
  {
    if !MappingOk(lib, mapping) then Err(BadMapping)
    else
      var o := ParsedOptions(mapping).value;
      match scheme
      case BearerAuth =>
        if Required(o, "token").None? then Err(CredentialMissing) else Ok(Bearer(o["token"]))
      case HeaderAuth(name) =>
        if Required(o, "header_value").None? then Err(CredentialMissing) else Ok(Header(name, o["header_value"]))
      case QueryAuth =>
        if Required(o, "query_string").None? then Err(CredentialMissing)
          else Ok(Query(StripQuestionMark(o["query_string"])))
  }

  function DirectEndpoint(lib: Lib, s: Store, server: string): Result<Endpoint, Error> {
    match DirectServer(lib, s, server)
    case Err(e) => Err(e)
    case Ok(loaded) =>
      if loaded.config.baseUrl.None? then Err(NoBaseUrl)
      else if loaded.config.auth.NoAuth? then Ok(Endpoint(loaded.config.baseUrl.value, AuthNone))
      else
        match MappingOf(lib, s, loaded.oid)
        case Err(e) => Err(e)
        case Ok(mapping) =>
          match AuthOf(lib, loaded.config.auth, mapping)
          case Err(e) => Err(e)
          case Ok(auth) => Ok(Endpoint(loaded.config.baseUrl.value, auth))
  }

  // ----- the catalog object -----

  /** The database as other sessions change it, and the permits for user connections. */
  class World {
    var store: Store
    var permits: nat
    var connections: nat       // open connections of the catalog's user
    ghost var faults: nat      // timeouts, lost connections and failed queries so far

    constructor (store: Store, permits: nat)
      ensures this.store == store && this.permits == permits && connections == 0 && faults == 0
    {
      this.store, this.permits, connections, faults := store, permits, 0, 0;
    }

    /** Other sessions commit whatever they like. */
    method Commits()
      modifies this`store
    {
      store := *;
    }

    /** Whether the next request to the database or the semaphore fails. */
    method Fails() returns (fails: bool)
      modifies this`faults
      ensures faults == old(faults) + (if fails then 1 else 0)
    {
      fails := *;
      faults := faults + (if fails then 1 else 0);
    }
  }

  datatype CatalogServer = CatalogServer(loaded: Loaded, mapping: Option<seq<string>>)

  class Catalog {
    const lib: Lib
    const world: World
    var connection: Option<Store>          // an open repeatable-read transaction sees this state
    var permit: bool
    var servers: map<string, CatalogServer>
    ghost var frozen: Option<Store>        // the snapshot of the first successful connection
    ghost const budget: nat                // permits of the world, held or free

    ghost predicate Valid()
      reads this, world
    {
      && connection == frozen
      && permit == connection.Some?
      && world.connections == (if connection.Some? then 1 else 0)
      && world.permits + world.connections == budget
      && (servers != map[] ==> frozen.Some?)
      && (forall name :: name in servers ==>
            && DirectServer(lib, frozen.value, name) == Ok(servers[name].loaded)
            && (servers[name].mapping.Some? ==>
                  DirectMapping(lib, frozen.value, name) == Ok(servers[name].mapping.value)))
    }

    constructor (lib: Lib, world: World)
      requires world.connections == 0
      ensures Valid() && this.lib == lib && this.world == world && frozen == None && servers == map[]
      ensures budget == world.permits
    {
      this.lib, this.world := lib, world;
      connection, permit, servers := None, false, map[];
      frozen, budget := None, world.permits;
    }

    /** The snapshot, once taken, is never taken again. */
    twostate predicate Froze()
      reads this, world
    {
      (old(frozen).Some? ==> frozen == old(frozen)) && world.faults >= old(world.faults)
    }

    /** `connection`: on the first success take a permit, connect and freeze a snapshot; a
        failure on the way gives the permit back and leaves no connection. */
    method Connection() returns (r: Result<Store, Error>)
      requires Valid()
      modifies this, world
      ensures Valid() && Froze() && servers == old(servers)
      ensures r.Ok? ==> connection == frozen == Some(r.value) && world.faults == old(world.faults)
      ensures r.Err? ==>
              r.error == Unreachable && connection == old(connection) == None && world.permits == old(world.permits)
      ensures r.Err? ==> world.faults > old(world.faults)
    {
      if connection.None? {
        var timesOut := world.Fails();
        if timesOut {
          return Err(Unreachable);
        }
        if world.permits == 0 {
          world.faults := world.faults + 1;      // nobody gave a permit back in time
          return Err(Unreachable);
        }
        world.permits := world.permits - 1;
        var refused := world.Fails();
        if refused {
          world.permits := world.permits + 1;   // the permit is dropped
          return Err(Unreachable);
        }
        world.connections := world.connections + 1;
        world.Commits();                          // the origin is attested before BEGIN
        var snapshot := world.store;
        var fenced := world.Fails();              // origin fence, identity, installed wrapper
        if fenced {
          world.connections := world.connections - 1;
          world.permits := world.permits + 1;
          return Err(Unreachable);
        }
        connection, permit := Some(snapshot), true;
        frozen := connection;
      }
      r := Ok(connection.value);
    }

    /** `load_server` */
    method LoadServer(server: string) returns (r: Result<Loaded, Error>)
      requires Valid()
      modifies this, world
      ensures Valid() && Froze()
      ensures if world.faults > old(world.faults) then r == Err(Unreachable)
              else frozen.Some? && r == DirectServer(lib, frozen.value, server)
      ensures r.Ok? ==> server in servers && servers[server].loaded == r.value
      ensures r.Ok? && server in old(servers) ==> servers[server] == old(servers[server])
    {
      if server !in servers {
        var connected := Connection();
        if connected.Err? {
          return Err(connected.error);
        }
        var queryFails := world.Fails();
        if queryFails {
          return Err(Unreachable);
        }
        r := DirectServer(lib, connected.value, server);
        if r.Ok? {
          servers := servers[server := CatalogServer(r.value, None)];
        }
      } else {
        r := Ok(servers[server].loaded);
      }
    }

    /** `load_mapping` */
    method LoadMapping(server: string) returns (r: Result<seq<string>, Error>)
      requires Valid()
      modifies this, world
      ensures Valid() && Froze()
      ensures if world.faults > old(world.faults) then r == Err(Unreachable)
              else frozen.Some? && r == DirectMapping(lib, frozen.value, server)
    {
      hide ConfigOf, MappingOf;
      var loaded := LoadServer(server);
      if loaded.Err? {
        return Err(loaded.error);
      }
      if servers[server].mapping.None? {
        var connected := Connection();
        if connected.Err? {
          return Err(Unreachable);
        }
        var queryFails := world.Fails();
        if queryFails {
          return Err(Unreachable);
        }
        var mapping := MappingOf(lib, connected.value, loaded.value.oid);
        if mapping.Err? {
          return Err(mapping.error);
        }
        servers := servers[server := servers[server].(mapping := Some(mapping.value))];
      }
      r := Ok(servers[server].mapping.value);
    }

    /** `resolve_named_secrets` */
    method ResolveNamedSecrets(server: string) returns (r: Result<map<string, string>, Error>)
      requires Valid()
      modifies this, world
      ensures Valid() && Froze()
      ensures if world.faults > old(world.faults) then r == Err(Unreachable)
              else frozen.Some? && r == DirectSecrets(lib, frozen.value, server)
    {
      var mapping := LoadMapping(server);
      if mapping.Err? {
        return Err(mapping.error);
      }
      var options := ParseOptions(mapping.value);
      if options.None? {
        return Err(BadMapping);
      }
      r := Ok(SecretsOf(options.value));
    }

    /** `resolve_endpoint` */
    method ResolveEndpoint(server: string) returns (r: Result<Endpoint, Error>)
      requires Valid()
      modifies this, world
      ensures Valid() && Froze()
      ensures if world.faults > old(world.faults) then r == Err(Unreachable)
              else frozen.Some? && r == DirectEndpoint(lib, frozen.value, server)
    {
      hide ConfigOf, MappingOf, MappingOk, Valid;
      var loaded := LoadServer(server);
      if loaded.Err? {
        return Err(loaded.error);
      }
      var config := loaded.value.config;
      if config.baseUrl.None? {
        return Err(NoBaseUrl);
      }
      if config.auth.NoAuth? {
        return Ok(Endpoint(config.baseUrl.value, AuthNone));
      }
      var mapping := LoadMapping(server);
      if mapping.Err? {
        return Err(mapping.error);
      }
      var auth := AuthOf(lib, config.auth, mapping.value);
      if auth.Err? {
        return Err(auth.error);
      }
      r := Ok(Endpoint(config.baseUrl.value, auth.value));
    }

    /** `close`, and equally dropping the catalog: everything is given back. */
    method Close()
      requires Valid()
      modifies this, world
      ensures connection == None && !permit && world.connections == 0 && world.permits == budget
      ensures world.faults == old(world.faults)
    {
      if connection.Some? {
        world.connections := world.connections - 1;
        connection := None;
      }
      if permit {
        world.permits := world.permits + 1;
        permit := false;
      }
    }
  }

  datatype Question = Secrets(server: string) | EndpointOf(server: string)

  datatype Answer =
    | SecretsAre(secrets: Result<map<string, string>, Error>)
    | EndpointIs(endpoint: Result<Endpoint, Error>)

  function DirectAnswer(lib: Lib, s: Store, q: Question): Answer {
    match q
    case Secrets(server) => SecretsAre(DirectSecrets(lib, s, server))
    case EndpointOf(server) => EndpointIs(DirectEndpoint(lib, s, server))
  }

  lemma DirectIsGiven(lib: Lib, s: Store, q: Question)
    ensures !IsUnreachable(DirectAnswer(lib, s, q))
  {
    hide ConfigOf, MappingOk;
  }

  predicate IsUnreachable(a: Answer) { a == SecretsAre(Err(Unreachable)) || a == EndpointIs(Err(Unreachable)) }

  /** Whatever is asked, in whatever order, and whatever others commit in between: without
      faults every answer is given, and every answer that is given equals a direct lookup in
      one and the same snapshot; in the end connection and permit are given back. */
  method AskAll(lib: Lib, world: World, questions: seq<Question>)
      returns (answers: seq<Answer>, ghost snapshot: Option<Store>)
    requires world.connections == 0
    modifies world
    ensures |answers| == |questions|
    ensures forall i :: 0 <= i < |answers| ==>
              IsUnreachable(answers[i])
                || (snapshot.Some? && answers[i] == DirectAnswer(lib, snapshot.value, questions[i]))
    ensures world.faults == old(world.faults) ==> forall i :: 0 <= i < |answers| ==> !IsUnreachable(answers[i])
    ensures world.connections == 0 && world.permits == old(world.permits)
  {
    hide DirectSecrets, DirectEndpoint, DirectServer, DirectMapping;
    var catalog := new Catalog(lib, world);
    answers := [];
    for k := 0 to |questions|
      invariant catalog.Valid() && fresh(catalog) && catalog.world == world && catalog.lib == lib
      invariant catalog.budget == old(world.permits) && |answers| == k && world.faults >= old(world.faults)
      invariant world.faults == old(world.faults) ==> forall i :: 0 <= i < k ==> !IsUnreachable(answers[i])
      invariant forall i :: 0 <= i < k ==>
                  IsUnreachable(answers[i]) ||
                  (catalog.frozen.Some? && answers[i] == DirectAnswer(lib, catalog.frozen.value, questions[i]))
    {
      world.Commits();
      ghost var faults := world.faults;
      match questions[k] {
        case Secrets(server) =>
          var secrets := catalog.ResolveNamedSecrets(server);
          answers := answers + [SecretsAre(secrets)];
        case EndpointOf(server) =>
          var endpoint := catalog.ResolveEndpoint(server);
          answers := answers + [EndpointIs(endpoint)];
      }
      if world.faults == faults { DirectIsGiven(lib, catalog.frozen.value, questions[k]); }
    }
    snapshot := catalog.frozen;
    catalog.Close();
  }
}
