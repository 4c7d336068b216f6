/** What a server's and a user mapping's option strings yield, without the intermediate
    configuration (src/endpoints.rs:220-359, src/endpoints.rs:406-431,
    src/endpoints.rs:560-682, src/secrets.rs:9-14). */
module EndpointLaws {
  import opened Prelude
  import opened Text
  import opened EndpointCatalog

  // ----- which option lists parse -----

  /** Every option is written name=value, and no name twice. */
  predicate AllNamed(options: seq<string>) {
    && (forall i :: 0 <= i < |options| ==> '=' in options[i])
    && (forall i, j :: 0 <= i < j < |options| ==> NameOf(options[i]) != NameOf(options[j]))
  }

  /** What stands before the first equals sign. */
  function NameOf(option: string): string {
    if option == "" || option[0] == '=' then "" else [option[0]] + NameOf(option[1..])
  }

  lemma {:induction false} NameOfIs(option: string)
    ensures '=' !in NameOf(option) && NameOf(option) <= option
    ensures '=' in option ==> |NameOf(option)| < |option| && option[|NameOf(option)|] == '='
    ensures '=' !in option ==> NameOf(option) == option
  {
    if option != "" && option[0] != '=' {
      NameOfIs(option[1..]);
      assert option == [option[0]] + option[1..];
    }
  }

  lemma SplitsAtName(option: string)
    ensures SplitOnce(option, "=").Some? <==> '=' in option
    ensures '=' in option ==> SplitOnce(option, "=").value.0 == NameOf(option)
  {
    NameOfIs(option);
    var n := |NameOf(option)|;
    if '=' in option {
      assert option == NameOf(option) + "=" + option[n + 1..];
      SplitOnceAtToken(NameOf(option), option[n + 1..], "=", '=');
    } else {
      NoneInToken(option, "=", '=');
    }
  }

  /** The options parse exactly then. */
  lemma {:induction false} ParsesExactly(options: seq<string>)
    ensures ParsedOptions(options).Some? <==> AllNamed(options)
  {
    hide SplitOnce, NameOf;
    if options != [] {
      var n := |options| - 1;
      var front := options[..n];
      ParsesExactly(front);
      SplitsAtName(options[n]);
      forall i | 0 <= i < n ensures front[i] == options[i] { SplitsAtName(options[i]); }
      if ParsedOptions(front).Some? && '=' in options[n] {
        ParsedOptionsHold(front, NameOf(options[n]));
        forall i | 0 <= i < n ensures SplitOnce(front[i], "=").Some?
          && SplitOnce(front[i], "=").value.0 == NameOf(front[i]) {
          SplitsAtName(front[i]);
        }
      }
    }
  }

  // ----- servers -----

  /** The server options are acceptable: only the three names, a literal URL if one is given, one of
      the four schemes, a header name exactly for the header scheme, and a URL for all but none. */
  predicate ServerOptionsOk(lib: Lib, options: seq<string>) {
    ParsedOptions(options).Some? &&
    var o := ParsedOptions(options).value;
    && o.Keys <= {"base_url", "auth_scheme", "header_name"}
    && ("base_url" in o ==> o["base_url"] != "" && lib.baseUrlOk(o["base_url"]))
    && "auth_scheme" in o && o["auth_scheme"] in {"none", "bearer", "header", "query"}
    && ("header_name" in o <==> o["auth_scheme"] == "header")
    && (o["auth_scheme"] == "header" ==> o["header_name"] != "" && lib.headerNameOk(o["header_name"]))
    && (o["auth_scheme"] != "none" ==> "base_url" in o)
  }

  lemma ConfigExactly(lib: Lib, options: seq<string>)
    ensures ConfigOf(lib, options).Some? <==> ServerOptionsOk(lib, options)
    ensures ConfigOf(lib, options).Some? ==>
              var o, config := ParsedOptions(options).value, ConfigOf(lib, options).value;
              && config.baseUrl == (if "base_url" in o then Some(o["base_url"]) else None)
              && (o["auth_scheme"] == "none" ==> config.auth == NoAuth)
              && (o["auth_scheme"] == "bearer" ==> config.auth == BearerAuth)
              && (o["auth_scheme"] == "header" ==> config.auth == HeaderAuth(o["header_name"]))
              && (o["auth_scheme"] == "query" ==> config.auth == QueryAuth)
  {
    hide ParsedOptions;
  }

  /** A server is found exactly if it exists, uses the wrapper, the role has USAGE, and its options
      are acceptable; and the first of these that fails is the error. */
  lemma ServerExactly(lib: Lib, s: Store, server: string)
    ensures var r := DirectServer(lib, s, server);
            if server !in s.servers then r == Err(ServerMissing)
            else if !s.servers[server].ourWrapper then r == Err(WrongWrapper)
            else if !s.servers[server].usage then r == Err(NotPermitted)
            else if !ServerOptionsOk(lib, s.servers[server].options) then r == Err(BadServerOptions)
            else r.Ok? && r.value.oid == s.servers[server].oid
  {
    if server in s.servers { ConfigExactly(lib, s.servers[server].options); }
    hide ConfigOf, ServerOptionsOk;
  }

  // ----- user mappings -----

  predicate HasControl(s: string) {
    exists i :: 0 <= i < |s| && (s[i] as int <= 31 || 127 <= s[i] as int <= 159)
  }

  /** The mapping options are acceptable: secrets under nonempty keys without equals or control
      characters, and nonempty credentials of the three kinds. */
  predicate MappingOptionsOk(lib: Lib, options: seq<string>) {
    ParsedOptions(options).Some? &&
    var o := ParsedOptions(options).value;
    forall name :: name in o ==>
      if "secret." <= name then
        |name| > 7 && '=' !in name[7..] && !HasControl(name[7..])
      else
        && name in {"token", "header_value", "query_string"} && o[name] != ""
        && (name in {"token", "header_value"} ==> lib.headerValueOk(o[name]))
        && (name == "token" ==> forall i :: 0 <= i < |o[name]| ==> 33 <= o[name][i] as int <= 126)
        && (name == "query_string" ==> lib.queryOk(o[name]))
  }

  lemma MappingOptionExactly(lib: Lib, name: string, value: string)
    ensures MappingOptionOk(lib, name, value) <==>
              if "secret." <= name then |name| > 7 && '=' !in name[7..] && !HasControl(name[7..])
              else
                && name in {"token", "header_value", "query_string"} && value != ""
                && (name in {"token", "header_value"} ==> lib.headerValueOk(value))
                && (name == "token" ==> forall i :: 0 <= i < |value| ==> 33 <= value[i] as int <= 126)
                && (name == "query_string" ==> lib.queryOk(value))
  {
    if "secret." <= name {
      assert SecretKey(name) == name[7..];
    }
  }

  lemma MappingExactly(lib: Lib, options: seq<string>)
    ensures MappingOk(lib, options) <==> MappingOptionsOk(lib, options)
  {
    hide ParsedOptions, MappingOptionOk, HasControl;
    if ParsedOptions(options).Some? {
      var o := ParsedOptions(options).value;
      forall name | name in o { MappingOptionExactly(lib, name, o[name]); }
    }
  }

  // ----- endpoints -----

  /** The option the scheme takes its credential from. */
  function CredentialOption(scheme: string): string {
    if scheme == "bearer" then "token" else if scheme == "header" then "header_value" else "query_string"
  }

  /** The credential a written scheme yields. */
  predicate AuthIs(server: Options, mapping: Options, auth: Auth)
    requires "auth_scheme" in server
  {
    var scheme := server["auth_scheme"];
    && (scheme == "none" <==> auth == AuthNone)
    && (scheme == "bearer" ==> "token" in mapping && auth == Bearer(mapping["token"]))
    && (scheme == "header" ==>
          "header_name" in server && "header_value" in mapping &&
          auth == Header(server["header_name"], mapping["header_value"]))
    && (scheme == "query" ==>
          "query_string" in mapping &&
          ((auth == Query(mapping["query_string"]) && !("?" <= mapping["query_string"])) ||
           (auth.Query? && mapping["query_string"] == "?" + auth.query)))
  }

  /** An endpoint without credentials needs the server and its URL only. */
  lemma PlainEndpointExactly(lib: Lib, s: Store, server: string)
    requires DirectServer(lib, s, server).Ok?
    requires ParsedOptions(s.servers[server].options).value["auth_scheme"] == "none"
    ensures var o := ParsedOptions(s.servers[server].options).value;
            DirectEndpoint(lib, s, server) ==
              if "base_url" in o then Ok(Endpoint(o["base_url"], AuthNone)) else Err(NoBaseUrl)
  {
    ConfigExactly(lib, s.servers[server].options);
    hide ConfigOf, ParsedOptions, MappingOf, AuthOf;
  }

  /** Any other needs a visible and acceptable mapping of the role with the scheme's credential; then
      the URL is the server's, and the credential is the mapping's, in the place the scheme says. */
  lemma EndpointExactly(lib: Lib, s: Store, server: string)
    requires DirectServer(lib, s, server).Ok?
    requires ParsedOptions(s.servers[server].options).value["auth_scheme"] != "none"
    ensures var o, oid, r := ParsedOptions(s.servers[server].options).value, s.servers[server].oid,
            DirectEndpoint(lib, s, server);
            if oid !in s.mappings then r == Err(MappingMissing)
            else if s.mappings[oid] == None then r == Err(MappingHidden)
            else if !MappingOptionsOk(lib, s.mappings[oid].value) then r == Err(BadMapping)
            else
              var m := ParsedOptions(s.mappings[oid].value).value;
              if CredentialOption(o["auth_scheme"]) !in m then r == Err(CredentialMissing)
              else r.Ok? && "base_url" in o && r.value.baseUrl == o["base_url"] && AuthIs(o, m, r.value.auth)
  {
    var options, oid := s.servers[server].options, s.servers[server].oid;
    ServerLoads(lib, s, server);
    ServerParses(lib, options);
    ConfigExactly(lib, options);
    MappingFound(lib, s, oid);
    hide DirectServer, ConfigOf, ParsedOptions, MappingOk, MappingOptionsOk, MappingOf, AuthOf, ServerOptionsOk, AuthIs;
    if MappingOf(lib, s, oid).Ok? {
      CredentialIsTaken(lib, options, MappingOf(lib, s, oid).value);
    }
  }

  lemma MappingFound(lib: Lib, s: Store, oid: int)
    ensures var r := MappingOf(lib, s, oid);
            if oid !in s.mappings then r == Err(MappingMissing)
            else if s.mappings[oid] == None then r == Err(MappingHidden)
            else if !MappingOptionsOk(lib, s.mappings[oid].value) then r == Err(BadMapping)
            else r.Ok? && r.value == s.mappings[oid].value && MappingOk(lib, r.value) && ParsedOptions(r.value).Some?
  {
    if oid in s.mappings && s.mappings[oid].Some? {
      MappingExactly(lib, s.mappings[oid].value);
      if MappingOk(lib, s.mappings[oid].value) { MappingParses(lib, s.mappings[oid].value); }
    }
    hide MappingOk, MappingOptionsOk, ParsedOptions;
  }

  lemma CredentialIsTaken(lib: Lib, server: seq<string>, mapping: seq<string>)
    requires ServerOptionsOk(lib, server) && ConfigOf(lib, server).Some? && MappingOk(lib, mapping)
    requires ParsedOptions(mapping).Some? && ParsedOptions(server).value["auth_scheme"] != "none"
    ensures !ConfigOf(lib, server).value.auth.NoAuth?
    ensures var o, m, r := ParsedOptions(server).value, ParsedOptions(mapping).value,
            AuthOf(lib, ConfigOf(lib, server).value.auth, mapping);
            if CredentialOption(o["auth_scheme"]) !in m then r == Err(CredentialMissing)
            else r.Ok? && AuthIs(o, m, r.value)
  {
    ConfigExactly(lib, server);
    hide ConfigOf, ParsedOptions, MappingOk, AuthOf;
    AuthExactly(lib, ConfigOf(lib, server).value.auth, mapping);
  }

  lemma ServerLoads(lib: Lib, s: Store, server: string)
    requires DirectServer(lib, s, server).Ok?
    ensures server in s.servers && ConfigOf(lib, s.servers[server].options).Some?
    ensures DirectServer(lib, s, server).value ==
            Loaded(s.servers[server].oid, ConfigOf(lib, s.servers[server].options).value)
  {
    hide ConfigOf;
  }

  lemma MappingParses(lib: Lib, options: seq<string>)
    requires MappingOk(lib, options)
    ensures ParsedOptions(options).Some?
  {
  }

  lemma ServerParses(lib: Lib, options: seq<string>)
    requires ConfigOf(lib, options).Some?
    ensures ParsedOptions(options).Some?
    ensures var o := ParsedOptions(options).value;
            && "auth_scheme" in o && o["auth_scheme"] in {"none", "bearer", "header", "query"}
            && (o["auth_scheme"] != "none" ==> "base_url" in o)
            && ("header_name" in o <==> o["auth_scheme"] == "header")
  {
    ConfigExactly(lib, options);
  }

  lemma AuthExactly(lib: Lib, scheme: AuthScheme, mapping: seq<string>)
    requires !scheme.NoAuth? && MappingOk(lib, mapping)
    ensures var m, r := ParsedOptions(mapping).value, AuthOf(lib, scheme, mapping);
            match scheme
            case BearerAuth =>
              if "token" in m then r.Ok? && r.value == Bearer(m["token"]) else r.Err? && r.error == CredentialMissing
            case HeaderAuth(header) =>
              if "header_value" in m then r.Ok? && r.value == Header(header, m["header_value"])
              else r.Err? && r.error == CredentialMissing
            case QueryAuth =>
              if "query_string" !in m then r.Err? && r.error == CredentialMissing
              else if "?" <= m["query_string"] then r.Ok? && r.value == Query(m["query_string"][1..])
              else r.Ok? && r.value == Query(m["query_string"])
  {
    hide ParsedOptions;
    var m := ParsedOptions(mapping).value;
    if "token" in m { CredentialIsNotEmpty(lib, "token", m["token"]); }
    if "header_value" in m { CredentialIsNotEmpty(lib, "header_value", m["header_value"]); }
    if "query_string" in m { CredentialIsNotEmpty(lib, "query_string", m["query_string"]); }
  }

  lemma CredentialIsNotEmpty(lib: Lib, name: string, value: string)
    requires name in {"token", "header_value", "query_string"} && MappingOptionOk(lib, name, value)
    ensures value != "" && ("?" <= value <==> value[0] == '?')
  {
    assert name[0] != 's' && "secret."[0] == 's';
    MappingOptionExactly(lib, name, value);
  }

  /** Named secrets need the server, and a visible and acceptable mapping of the role. */
  lemma SecretsExactly(lib: Lib, s: Store, server: string)
    requires DirectServer(lib, s, server).Ok?
    ensures var oid, r := s.servers[server].oid, DirectSecrets(lib, s, server);
            if oid !in s.mappings then r == Err(MappingMissing)
            else if s.mappings[oid] == None then r == Err(MappingHidden)
            else if !MappingOptionsOk(lib, s.mappings[oid].value) then r == Err(BadMapping)
            else
              var options := s.mappings[oid].value;
              r.Ok? && forall key, value :: '=' !in key ==>
                ((key in r.value && r.value[key] == value) <==> "secret." + key + "=" + value in options)
  {
    var oid := s.servers[server].oid;
    if oid in s.mappings && s.mappings[oid].Some? {
      var options := s.mappings[oid].value;
      MappingExactly(lib, options);
      if MappingOk(lib, options) {
        forall key, value | '=' !in key
          ensures (key in SecretsOf(ParsedOptions(options).value)
                  && SecretsOf(ParsedOptions(options).value)[key] == value)
                  <==> "secret." + key + "=" + value in options
        {
          SecretsAreWritten(options, key, value);
        }
      }
    }
    hide ConfigOf, ParsedOptions, MappingOk, MappingOptionsOk, SecretsOf;
  }
}
