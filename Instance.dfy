/** lib/instance.js: an instance of the local region. `new` checks the
    name, fqdn and port, starts the instance as master, and builds the four
    queries other instances use to reach it. */
module Instance {
  import opened Wrappers
  import opened JsValues
  import opened JsStrings
  import Query

  /** An instance as configured. */
  datatype InstanceConfig = InstanceConfig(name: Option<string>, fqdn: Option<string>, port: Option<Scalar>)

  /** One of the instance's queries: the validated method and uri, and the
      request options passed along with them. */
  datatype Endpoint = Endpoint(query: Query.QueryDef, timeout: nat, json: bool, hasHeaders: bool,
                               rejectUnauthorized: bool)

  datatype Instance = Instance(
    name: string,
    fqdn: string,
    port: int,
    isMaster: bool,
    masterSince: int,
    isConnected: bool,
    uuid: Option<string>,
    elect: Endpoint,
    sync: Endpoint,
    query: Endpoint,
    all: Endpoint)

  /** The settings `new` reads from `global.msa_settings`. */
  datatype Settings = Settings(protocol: Option<string>, certificateAuthority: Option<string>)

  /** A string that may be undefined, as `+` renders it. */
  function Render(o: Option<string>): string {
    if o.Some? then o.value else "undefined"
  }

  /** The port: 80 when absent; otherwise its integer reading, which must
      lie strictly between 0 and 65535 (10731). */
  function Port(port: Option<Scalar>): (r: Result<int>)
    ensures r.Ok? ==> 0 < r.value < 65535
  {
    if port.None? then Ok(80)
    else
      var p := ParseInt(port.value);
      if p.Int? && p.i > 0 && p.i < 65535 then Ok(p.i) else Err(Code(10731))
  }

  /** `protocol://fqdn:port/` followed by the path. */
  function Uri(settings: Settings, fqdn: string, port: int, path: string): string {
    Render(settings.protocol) + "://" + fqdn + ":" + IntToString(port) + "/" + path
  }

  function MakeEndpoint(verb: string, uri: string, headers: bool, settings: Settings): Result<Endpoint> {
    var q :- Query.New(Query.QueryConfig(Some(verb), Some(uri)));
    Ok(Endpoint(q, 10000, true, headers, settings.certificateAuthority != Some("self-signed")))
  }

  /** `new(base, region)` at time `now`. `others` are the names of the
      region's other instances; `None` is a call without a region, where
      the uniqueness check reads a property of undefined. */
  function New(base: InstanceConfig, others: Option<seq<string>>, now: int, settings: Settings): Result<Instance> {
    if base.name.None? then Err(Code(10711))
    else if others.None? then Err(TypeError)
    else if base.name.value in others.value then Err(Code(10712))
    else if base.fqdn.None? then Err(Code(10721))
    else
      var port :- Port(base.port);
      var fqdn := base.fqdn.value;
      var elect :- MakeEndpoint("POST", Uri(settings, fqdn, port, "elect"), true, settings);
      var sync :- MakeEndpoint("POST", Uri(settings, fqdn, port, "sync"), true, settings);
      var query :- MakeEndpoint("GET", Uri(settings, fqdn, port, "query"), true, settings);
      var all :- MakeEndpoint("GET", Uri(settings, fqdn, port, "all"), false, settings);
      Ok(Instance(base.name.value, fqdn, port, true, now, false, None, elect, sync, query, all))
  }

  /** The checks of `new`, in their order, and when it succeeds. */
  lemma NewChecks(base: InstanceConfig, others: Option<seq<string>>, now: int, settings: Settings)
    ensures base.name.None? ==> New(base, others, now, settings) == Err(Code(10711))
    ensures (base.name.Some? && others.None?) ==> New(base, others, now, settings) == Err(TypeError)
    ensures (base.name.Some? && others.Some? && base.name.value in others.value) ==>
              New(base, others, now, settings) == Err(Code(10712))
    ensures (base.name.Some? && others.Some? && base.name.value !in others.value && base.fqdn.None?) ==>
              New(base, others, now, settings) == Err(Code(10721))
    ensures New(base, others, now, settings).Ok? <==>
              base.name.Some? && others.Some? && base.name.value !in others.value && base.fqdn.Some? &&
              Port(base.port).Ok?
  {
    if base.name.Some? && others.Some? && base.name.value !in others.value && base.fqdn.Some? && Port(base.port).Ok? {
      EndpointsBuild(settings, base.fqdn.value, Port(base.port).value);
    }
  }

  lemma EndpointsBuild(settings: Settings, fqdn: string, port: int)
    ensures MakeEndpoint("POST", Uri(settings, fqdn, port, "elect"), true, settings).Ok?
    ensures MakeEndpoint("POST", Uri(settings, fqdn, port, "sync"), true, settings).Ok?
    ensures MakeEndpoint("GET", Uri(settings, fqdn, port, "query"), true, settings).Ok?
    ensures MakeEndpoint("GET", Uri(settings, fqdn, port, "all"), false, settings).Ok?
  {
    EndpointOf("POST", Uri(settings, fqdn, port, "elect"), true, settings);
    EndpointOf("POST", Uri(settings, fqdn, port, "sync"), true, settings);
    EndpointOf("GET", Uri(settings, fqdn, port, "query"), true, settings);
    EndpointOf("GET", Uri(settings, fqdn, port, "all"), false, settings);
  }

  /** The port defaults to 80 and is accepted exactly when its integer
      reading is strictly between 0 and 65535: 65535 itself is refused. */
  lemma PortBounds(port: Option<Scalar>)
    ensures port.None? ==> Port(port) == Ok(80)
    ensures port.Some? ==>
              (Port(port).Ok? <==> ParseInt(port.value).Int? && 0 < ParseInt(port.value).i < 65535)
    ensures port.Some? && Port(port).Ok? ==> Port(port).value == ParseInt(port.value).i
    ensures Port(Some(Num(65535))) == Err(Code(10731)) && Port(Some(Num(65534))) == Ok(65534)
    ensures Port(Some(Num(0))) == Err(Code(10731))
  {
  }

  /** A new instance claims mastery from `now` and is not yet connected;
      its queries go to `protocol://fqdn:port/` with method POST for
      `elect`/`sync` and GET for `query`/`all`, all with a 10 s timeout,
      headers on all but `all`, and certificates checked unless the
      certificate authority is self-signed. */
  lemma NewFields(base: InstanceConfig, others: Option<seq<string>>, now: int, settings: Settings)
    requires New(base, others, now, settings).Ok?
    ensures var inst := New(base, others, now, settings).value;
            var check := settings.certificateAuthority != Some("self-signed");
            && inst.name == base.name.value && inst.fqdn == base.fqdn.value && inst.port == Port(base.port).value
            && inst.isMaster && inst.masterSince == now && !inst.isConnected && inst.uuid.None?
            && inst.elect == Endpoint(Query.QueryDef("POST", Uri(settings, inst.fqdn, inst.port, "elect")), 10000, true, true, check)
            && inst.sync == Endpoint(Query.QueryDef("POST", Uri(settings, inst.fqdn, inst.port, "sync")), 10000, true, true, check)
            && inst.query == Endpoint(Query.QueryDef("GET", Uri(settings, inst.fqdn, inst.port, "query")), 10000, true, true, check)
            && inst.all == Endpoint(Query.QueryDef("GET", Uri(settings, inst.fqdn, inst.port, "all")), 10000, true, false, check)
  {
    var fqdn, port := base.fqdn.value, Port(base.port).value;
    EndpointOf("POST", Uri(settings, fqdn, port, "elect"), true, settings);
    EndpointOf("POST", Uri(settings, fqdn, port, "sync"), true, settings);
    EndpointOf("GET", Uri(settings, fqdn, port, "query"), true, settings);
    EndpointOf("GET", Uri(settings, fqdn, port, "all"), false, settings);
  }

  lemma EndpointOf(verb: string, uri: string, headers: bool, settings: Settings)
    requires verb == "GET" || verb == "POST"
    ensures MakeEndpoint(verb, uri, headers, settings) ==
              Ok(Endpoint(Query.QueryDef(verb, uri), 10000, true, headers,
                          settings.certificateAuthority != Some("self-signed")))
  {
    assert ToUpper("GET") == "GET";
    assert ToUpper("POST") == "POST";
  }
}
