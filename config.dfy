/** The configuration logic of src/config.ts that runs after schema
    validation: user access rules, the normalisation done by `loadConfig`,
    the appservice registration and the registration-token shape check. */
module Config {
  import opened Wrappers
  import opened JsString
  import opened JsonSchema

  datatype RuleAction = DENY | USE | FULL

  datatype RegexRule = RegexRule(regex: string, action: RuleAction)

  /** Rule `i` is the first in list order whose regex matches `mxid`. */
  ghost predicate FirstMatchAt(rules: seq<RegexRule>, mxid: string, matches: (string, string) -> bool, i: int) {
    0 <= i < |rules| && matches(rules[i].regex, mxid)
    && forall k | 0 <= k < i :: !matches(rules[k].regex, mxid)
  }

  /** `getUserAction`: the action of the first rule whose regex matches the
      MXID, or FULL when none does. `matches(regex, mxid)` stands for
      `mxid.match(regex)` finding a match. */
  method GetUserAction(rules: seq<RegexRule>, mxid: string, matches: (string, string) -> bool) returns (action: RuleAction)
    ensures (exists i | 0 <= i < |rules| :: FirstMatchAt(rules, mxid, matches, i) && action == rules[i].action)
            || ((forall i | 0 <= i < |rules| :: !matches(rules[i].regex, mxid)) && action == FULL)
  {
    var i := 0;
    while i < |rules|
      invariant 0 <= i <= |rules|
      invariant forall k | 0 <= k < i :: !matches(rules[k].regex, mxid)
    {
      if matches(rules[i].regex, mxid) {
        assert FirstMatchAt(rules, mxid, matches, i);
        return rules[i].action;
      }
      i := i + 1;
    }
    return FULL;
  }

  // The configuration schema `IConfigData`, with the `IRegexRules`
  // reference written in place.

  const RuleSchema: Schema :=
    Typed(TObject).(
      properties := map["regex" := Typed(TString),
                        "action" := Typed(TString).(enumOf := Some([JString("DENY"), JString("USE"), JString("FULL")]))],
      required := ["regex", "action"])

  const BridgeSchema: Schema :=
    Typed(TObject).(
      properties := map["port" := Typed(TNumber), "bindAddress" := Typed(TString),
                        "homeserverName" := Typed(TString), "homeserverUrl" := Typed(TString)],
      required := ["port", "bindAddress", "homeserverName", "homeserverUrl"])

  const HttpServerSchema: Schema :=
    Typed(TObject).(
      properties := map["port" := Typed(TNumber), "bindAddress" := Typed(TString), "publicBaseURL" := Typed(TString)],
      required := ["port", "bindAddress", "publicBaseURL"])

  const PermissionsSchema: Schema :=
    Typed(TObject).(
      properties := map["modules" := Typed(TArray).(items := Some(Typed(TString)), nullable := true),
                        "user_rules" := Typed(TArray).(items := Some(RuleSchema))],
      nullable := true)

  const DatabaseSchema: Schema := Typed(TObject).(properties := map["filename" := Typed(TString)], required := ["filename"])

  const LoggingSchema: Schema :=
    Typed(TObject).(
      properties := map["level" := Typed(TString).(
                          enumOf := Some([JString("TRACE"), JString("DEBUG"), JString("INFO"), JString("WARN"), JString("ERROR")]),
                          nullable := true)],
      nullable := true)

  /** The schema as written: only `bridge` and `database` are required. */
  const ConfigSchema: Schema :=
    Typed(TObject).(
      properties := map["bridge" := BridgeSchema, "httpserver" := HttpServerSchema, "permissions" := PermissionsSchema,
                        "database" := DatabaseSchema, "logging" := LoggingSchema],
      required := ["bridge", "database"])

  /** A `logging:` or `permissions:` key with no value is null, which the
      schema accepts: both sections are nullable. */
  lemma NullSectionsValidate()
    ensures Validates(LoggingSchema, JNull) && Validates(PermissionsSchema, JNull)
  {
  }

  // `loadConfig` reads `httpserver.publicBaseURL` right after validation,
  // but the schema lets `httpserver` be left out, so such a file passes
  // validation and then fails with a TypeError instead of a schema error.

  /** A file with the two required sections and no `httpserver`. */
  const NoHttpServer: Json := JObject(map["bridge" := SampleBridge, "database" := SampleDatabase])

  const SampleBridge: Json :=
    JObject(map["port" := JNumber(9000), "bindAddress" := JString("0.0.0.0"),
                "homeserverName" := JString("hs"), "homeserverUrl" := JString("http://hs")])

  const SampleDatabase: Json := JObject(map["filename" := JString("db")])

  lemma SampleBridgeValidates()
    ensures Validates(BridgeSchema, SampleBridge)
  {
    var b, p := SampleBridge.fields, BridgeSchema.properties;
    assert b.Keys == p.Keys;
    forall n | n in p && n in b
      ensures Validates(p[n], b[n])
    {
      if n == "port" {
        assert p[n] == Typed(TNumber) && b[n] == JNumber(9000);
      } else if n == "bindAddress" {
        assert p[n] == Typed(TString) && b[n] == JString("0.0.0.0");
      } else if n == "homeserverName" {
        assert p[n] == Typed(TString) && b[n] == JString("hs");
      } else {
        assert p[n] == Typed(TString) && b[n] == JString("http://hs");
      }
    }
    assert forall n | n in BridgeSchema.required :: n in p;
  }

  lemma SampleDatabaseValidates()
    ensures Validates(DatabaseSchema, SampleDatabase)
  {
    var f, p := SampleDatabase.fields, DatabaseSchema.properties;
    assert f.Keys == p.Keys == {"filename"};
    assert Validates(p["filename"], f["filename"]);
  }

  lemma NoHttpServerValidates()
    ensures Validates(ConfigSchema, NoHttpServer)
    ensures "httpserver" !in NoHttpServer.fields
  {
    SampleBridgeValidates();
    SampleDatabaseValidates();
    var f, p := NoHttpServer.fields, ConfigSchema.properties;
    assert f.Keys == {"bridge", "database"};
    assert p["bridge"] == BridgeSchema && p["database"] == DatabaseSchema;
    assert forall n | n in f :: n == "bridge" || n == "database";
  }

  /** The evidently intended schema, with `httpserver` required as the
      `IConfigData` interface declares it. */
  const IntendedConfigSchema: Schema := ConfigSchema.(required := ["bridge", "httpserver", "database"])

  /** Under the intended schema every valid file has the URL `loadConfig`
      reads. */
  lemma IntendedConfigHasUrl(j: Json)
    requires Validates(IntendedConfigSchema, j)
    ensures j.JObject? && "httpserver" in j.fields
    ensures var h := j.fields["httpserver"];
            h.JObject? && StringField(h.fields, "publicBaseURL")
  {
    assert "httpserver" in IntendedConfigSchema.required;
    assert IntendedConfigSchema.properties["httpserver"] == HttpServerSchema;
    var h := j.fields["httpserver"];
    assert Validates(HttpServerSchema, h);
    assert "publicBaseURL" in HttpServerSchema.required;
    assert HttpServerSchema.properties["publicBaseURL"] == Typed(TString);
    TypedAccepts(TString, h.fields["publicBaseURL"]);
  }

  /** Both schemas agree on every file that has an `httpserver`. */
  lemma SchemasAgreeWithHttpServer(j: Json)
    requires j.JObject? && "httpserver" in j.fields
    ensures Validates(IntendedConfigSchema, j) <==> Validates(ConfigSchema, j)
  {
  }

  datatype LogLevel = TRACE | DEBUG | INFO | WARN | ERROR

  /** A key the parsed YAML leaves out, sets to null, or gives a value. */
  datatype Field<T> = Absent | Null | Given(value: T)

  datatype BridgeSection = BridgeSection(port: int, bindAddress: string, homeserverName: string, homeserverUrl: string)

  datatype HttpSection = HttpSection(port: int, bindAddress: string, publicBaseURL: string)

  /** `permissions` as the schema admits it: `modules` may be null,
      `user_rules` may only be left out. */
  datatype RawPermissions = RawPermissions(modules: Field<seq<string>>, userRules: Option<seq<RegexRule>>)

  datatype RawLogging = RawLogging(level: Field<LogLevel>)

  /** A parsed configuration that passed schema validation. The schema does
      not list `httpserver` as required, so it may be missing. */
  datatype RawConfig = RawConfig(
    bridge: BridgeSection,
    httpserver: Option<HttpSection>,
    permissions: Field<RawPermissions>,
    database: string,  // database.filename
    logging: Field<RawLogging>)

  /** `modules` is None when the file set it to null: `Object.assign` keeps
      the null over the default. */
  datatype Permissions = Permissions(modules: Option<seq<string>>, userRules: seq<RegexRule>)

  datatype CompleteConfig = CompleteConfig(
    bridge: BridgeSection,
    httpserver: HttpSection,
    permissions: Permissions,
    database: string,
    level: LogLevel)

  datatype ConfigError =
    | HttpServerMissing  // the TypeError from reading `publicBaseURL` of undefined
    | NotHttpUrl         // 'Public base URL for the HTTP server must be HTTP or HTTPS'

  predicate IsHttpUrl(url: string) {
    StartsWith(url, "http://") || StartsWith(url, "https://")
  }

  /** The post-validation part of `loadConfig`, one step per statement of the
      source: the URL check, the trailing-slash fix, the permission defaults
      and the logging default. */
  method LoadConfig(raw: RawConfig) returns (r: Result<CompleteConfig, ConfigError>)
    ensures raw.httpserver.None? ==> r == Failure(HttpServerMissing)
    ensures raw.httpserver.Some? && !IsHttpUrl(raw.httpserver.value.publicBaseURL) ==> r == Failure(NotHttpUrl)
    ensures raw.httpserver.Some? && IsHttpUrl(raw.httpserver.value.publicBaseURL) ==> r.Success?
    ensures r.Success? ==>
              var url, c := raw.httpserver.value.publicBaseURL, r.value;
              EndsWith(c.httpserver.publicBaseURL, "/")
              && (EndsWith(url, "/") ==> c.httpserver.publicBaseURL == url)
              && (!EndsWith(url, "/") ==> c.httpserver.publicBaseURL == url + "/")
              && c.httpserver.port == raw.httpserver.value.port
              && c.httpserver.bindAddress == raw.httpserver.value.bindAddress
              && c.bridge == raw.bridge && c.database == raw.database
    ensures r.Success? && !raw.permissions.Given? ==> r.value.permissions == Permissions(Some([]), [])
    ensures r.Success? && raw.permissions.Given? ==>
              var p, q := raw.permissions.value, r.value.permissions;
              (p.modules.Given? ==> q.modules == Some(p.modules.value))
              && (p.modules.Null? ==> q.modules.None?)
              && (p.modules.Absent? ==> q.modules == Some([]))
              && (p.userRules.Some? ==> q.userRules == p.userRules.value)
              && (p.userRules.None? ==> q.userRules == [])
    ensures r.Success? ==>
              if raw.logging.Given? && raw.logging.value.level.Given? then r.value.level == raw.logging.value.level.value
              else r.value.level == INFO
  {
    if raw.httpserver.None? {
      return Failure(HttpServerMissing);
    }
    var http := raw.httpserver.value;
    var pburl := http.publicBaseURL;
    if !StartsWith(pburl, "http://") && !StartsWith(pburl, "https://") {
      return Failure(NotHttpUrl);
    }
    if !EndsWith(pburl, "/") {
      http := http.(publicBaseURL := http.publicBaseURL + "/");
      assert http.publicBaseURL[|http.publicBaseURL| - 1..] == "/";
    }
    // Object.assign({ modules: [], user_rules: [] }, config.permissions || {})
    var supplied := if raw.permissions.Given? then raw.permissions.value else RawPermissions(Absent, None);
    var modules := match supplied.modules
      case Absent => Some([])
      case Null => None
      case Given(m) => Some(m);
    var userRules := if supplied.userRules.Some? then supplied.userRules.value else [];
    // config.logging = config.logging || {}; level = level || 'INFO'
    var logging := if raw.logging.Given? then raw.logging.value else RawLogging(Absent);
    var level := if logging.level.Given? then logging.level.value else INFO;
    return Success(CompleteConfig(raw.bridge, http, Permissions(modules, userRules), raw.database, level));
  }

  datatype RegOpts = RegOpts(id: string, url: string, prefix: string)

  datatype Namespace = Namespace(exclusive: bool, regex: string)

  datatype Registration = Registration(
    id: string,
    url: string,
    asToken: string,
    hsToken: string,
    senderLocalpart: string,
    users: seq<Namespace>,
    aliases: seq<Namespace>,
    rooms: seq<Namespace>,
    protocols: seq<string>,
    rateLimited: bool)

  /** `prefix.replace('.', '\\.')`: a string pattern replaces only its first
      occurrence. */
  function EscapeFirstDot(prefix: string): string {
    ReplaceFirst(prefix, '.', "\\.")
  }

  /** `createRegistration`; the two tokens come from `Str.random(64)` and are
      parameters here. */
  function CreateRegistration(opts: RegOpts, asToken: string, hsToken: string): Registration {
    Registration(opts.id, opts.url, asToken, hsToken, opts.prefix,
                 [Namespace(true, "@" + EscapeFirstDot(opts.prefix) + ".*")], [], [], [], false)
  }

  /** The registration claims, exclusively, the user IDs of the prefix: a
      prefix without a dot goes into the regex as is; otherwise its first dot
      is escaped and the rest, later dots included, goes in unchanged. */
  lemma {:induction false} RegistrationUserRegex(opts: RegOpts, asToken: string, hsToken: string, a: string, b: string)
    requires '.' !in a
    ensures var reg := CreateRegistration(opts, asToken, hsToken);
            reg.senderLocalpart == opts.prefix && reg.aliases == [] && reg.rooms == []
            && reg.asToken == asToken && reg.hsToken == hsToken && !reg.rateLimited
            && |reg.users| == 1 && reg.users[0].exclusive
            && (opts.prefix == a ==> reg.users[0].regex == "@" + a + ".*")
            && (opts.prefix == a + "." + b ==> reg.users[0].regex == "@" + a + "\\." + b + ".*")
  {
    ReplaceFirstSpec(a, b, '.', "\\.");
  }

  // The escape leaves every later dot a regex wildcard. The corrected
  // escape replaces every dot.

  /** Reading a regex left to right, no `.` is left as a wildcard: each
      backslash escapes the character after it. */
  predicate NoWildcard(r: string)
    decreases |r|
  {
    if r == [] then true
    else if r[0] == '\\' then |r| == 1 || NoWildcard(r[2..])
    else r[0] != '.' && NoWildcard(r[1..])
  }

  lemma FirstDotOnlyLeavesWildcard()
    ensures EscapeFirstDot("a.b.c") == "a\\.b.c"
    ensures !NoWildcard(EscapeFirstDot("a.b.c"))
  {
    ReplaceFirstSpec("a", "b.c", '.', "\\.");
    assert "a.b.c" == "a" + ['.'] + "b.c";
    var r := "a\\.b.c";
    assert r[0] == 'a' && r[1..] == "\\.b.c";
    assert r[1..][0] == '\\' && r[1..][2..] == "b.c";
    assert "b.c"[0] == 'b' && "b.c"[1..] == ".c";
    assert !NoWildcard(".c");
  }

  /** The corrected escape: every dot of the prefix. */
  function EscapeDots(prefix: string): string {
    ReplaceAll(prefix, '.', "\\.")
  }

  /** With every dot escaped no wildcard is left, whenever the prefix itself
      holds no backslash. */
  lemma {:induction false} EscapeDotsNoWildcard(prefix: string)
    requires '\\' !in prefix
    ensures NoWildcard(EscapeDots(prefix))
    decreases |prefix|
  {
    if prefix != [] {
      EscapeDotsNoWildcard(prefix[1..]);
      var rest := EscapeDots(prefix[1..]);
      if prefix[0] == '.' {
        assert EscapeDots(prefix) == "\\." + rest;
        assert ("\\." + rest)[2..] == rest;
      } else {
        assert EscapeDots(prefix) == [prefix[0]] + rest;
        assert ([prefix[0]] + rest)[1..] == rest;
      }
    }
  }

  /** The two escapes agree on a prefix with at most one dot. */
  lemma EscapesAgreeOnOneDot(a: string, b: string)
    requires '.' !in a && '.' !in b
    ensures EscapeFirstDot(a) == EscapeDots(a)
    ensures EscapeFirstDot(a + "." + b) == EscapeDots(a + "." + b)
  {
    ReplaceFirstSpec(a, b, '.', "\\.");
    ReplaceAllOnce(a, b, '.', "\\.");
    assert a + "." + b == a + ['.'] + b;
  }

  datatype RegTokens = RegTokens(asToken: string, hsToken: string)

  datatype RegError =
    | PropertyOfNull           // the TypeError from reading `as_token` of null
    | InvalidRegistrationFile  // 'Invalid registration file'

  /** JavaScript `typeof v === 'object'`: objects, arrays and null. */
  predicate TypeofObject(j: Json) {
    j.JObject? || j.JArray? || j.JNull?
  }

  /** The shape check of `loadRegTokens` on the parsed YAML value. */
  function LoadRegTokens(j: Json): (r: Result<RegTokens, RegError>)
    ensures r.Success? <==> j.JObject? && StringField(j.fields, "as_token") && StringField(j.fields, "hs_token")
    ensures r.Success? ==> r.value == RegTokens(j.fields["as_token"].s, j.fields["hs_token"].s)
  {
    if !TypeofObject(j) then Failure(InvalidRegistrationFile)
    else if j.JNull? then Failure(PropertyOfNull)
    else if !(j.JObject? && StringField(j.fields, "as_token")) then Failure(InvalidRegistrationFile)
    else if !StringField(j.fields, "hs_token") then Failure(InvalidRegistrationFile)
    else Success(RegTokens(j.fields["as_token"].s, j.fields["hs_token"].s))
  }

  // `typeof null === 'object'` lets null past the guard, and the property
  // read then throws instead of reporting an invalid file.

  lemma NullEscapesGuard()
    ensures LoadRegTokens(JNull) == Failure(PropertyOfNull)
  {
  }

  /** The corrected check: every rejection reports an invalid file. */
  function LoadRegTokensIntended(j: Json): (r: Result<RegTokens, RegError>)
    ensures r.Failure? ==> r.error == InvalidRegistrationFile
    ensures r.Success? <==> j.JObject? && StringField(j.fields, "as_token") && StringField(j.fields, "hs_token")
    ensures r.Success? ==> r == LoadRegTokens(j)
  {
    if j.JObject? && StringField(j.fields, "as_token") && StringField(j.fields, "hs_token") then
      Success(RegTokens(j.fields["as_token"].s, j.fields["hs_token"].s))
    else Failure(InvalidRegistrationFile)
  }
}
