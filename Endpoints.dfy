/** The HTTP handlers of server.js and app.js — `/query`, `/elect`,
    `/report/:service` and `/current` — as the replies they compute from
    the registries, and the local-instance lookup app.js does at startup. */
module Endpoints {
  import opened Wrappers
  import opened JsValues
  import Service
  import Results
  import Instance
  import Region
  import Action

  // ---------------------------------------------------------------------
  // the local services

  /** The local services, in their order. */
  function Locals(services: seq<Service.Service>): (r: seq<Service.Service>)
    ensures |r| <= |services|
    ensures forall s :: s in r <==> s in services && s.isLocal
  {
    if services == [] then []
    else (if services[0].isLocal then [services[0]] else []) + Locals(services[1..])
  }

  /** Filtering distributes over concatenation, so the local services keep
      the order they have in the registry. */
  lemma {:induction false} LocalsAppend(a: seq<Service.Service>, b: seq<Service.Service>)
    ensures Locals(a + b) == Locals(a) + Locals(b)
    decreases |a|
  {
    if a != [] {
      assert (a + b)[1..] == a[1..] + b;
      LocalsAppend(a[1..], b);
    } else {
      assert a + b == b;
    }
  }

  /** No local service, no entry; only local services, all of them. */
  lemma {:induction false} LocalsExtremes(services: seq<Service.Service>)
    ensures (forall i :: 0 <= i < |services| ==> !services[i].isLocal) ==> Locals(services) == []
    ensures (forall i :: 0 <= i < |services| ==> services[i].isLocal) ==> Locals(services) == services
    decreases |services|
  {
    if services != [] {
      LocalsExtremes(services[1..]);
      assert forall i :: 1 <= i < |services| ==> services[1..][i - 1] == services[i];
      assert [services[0]] + services[1..] == services;
    }
  }

  // ---------------------------------------------------------------------
  // /query (server.js:151-171)

  /** What `/query` says about one service. */
  datatype QueryView = QueryView(name: string, priority: ParsedInt, state: Option<string>,
                                 report: Option<string>, properties: seq<string>)

  /** The `/query` reply: `services` is present only on the master. */
  datatype QueryReply = QueryReply(region: string, isMaster: bool, services: Option<seq<QueryView>>)

  function QueryViewOf(s: Service.Service): QueryView {
    QueryView(s.name, s.priority, s.state, s.report, s.properties)
  }

  /** The `reduce` over the services: a view of each local one, in order. */
  function QueryViews(services: seq<Service.Service>): (r: seq<QueryView>)
    ensures |r| == |Locals(services)|
    ensures forall i :: 0 <= i < |r| ==> r[i] == QueryViewOf(Locals(services)[i])
  {
    if services == [] then []
    else
      var rest := QueryViews(services[1..]);
      if services[0].isLocal then
        assert Locals(services) == [services[0]] + Locals(services[1..]);
        [QueryViewOf(services[0])] + rest
      else
        assert Locals(services) == Locals(services[1..]);
        rest
  }

  /** `/query` on the instance whose region is `regionName`, which is
      master or not. */
  function QueryAnswer(regionName: string, isMaster: bool, services: seq<Service.Service>): QueryReply {
    QueryReply(regionName, isMaster, if isMaster then Some(QueryViews(services)) else None)
  }

  /** The reply names the region and the instance's mastery; a follower
      lists no services, and the master lists a view of every local service
      and of nothing else. */
  lemma QueryAnswerMeaning(regionName: string, isMaster: bool, services: seq<Service.Service>)
    ensures QueryAnswer(regionName, isMaster, services).region == regionName
    ensures QueryAnswer(regionName, isMaster, services).isMaster == isMaster
    ensures QueryAnswer(regionName, isMaster, services).services.Some? <==> isMaster
    ensures isMaster ==> forall s :: s in services && s.isLocal ==>
              QueryViewOf(s) in QueryAnswer(regionName, isMaster, services).services.value
    ensures isMaster ==> forall v :: v in QueryAnswer(regionName, isMaster, services).services.value ==>
              exists s :: s in services && s.isLocal && QueryViewOf(s) == v
  {
    var ls := Locals(services);
    var vs := QueryViews(services);
    forall s | s in services && s.isLocal
      ensures QueryViewOf(s) in vs
    {
      var i :| 0 <= i < |ls| && ls[i] == s;
      assert vs[i] == QueryViewOf(s);
    }
    forall v | v in vs
      ensures exists s :: s in services && s.isLocal && QueryViewOf(s) == v
    {
      var i :| 0 <= i < |vs| && vs[i] == v;
      assert ls[i] in ls;
    }
  }

  // ---------------------------------------------------------------------
  // /elect (server.js:256-286)

  /** The body of an election request: the sender's region, name, uuid and
      claimed mastery. */
  datatype ElectRequest = ElectRequest(region: Option<string>, instance: Option<string>,
                                       uuid: Option<string>, isMaster: bool)

  /** A local service's name and report, as a follower is told them. */
  datatype Standing = Standing(name: string, report: Option<string>)

  /** The `/elect` replies: the two 500s, the sender confirmed as master,
      or `isMaster: false` with the master's view of the local services. */
  datatype ElectReply =
    | RegionNotValid
    | InstanceNotFound
    | SenderIsMaster
    | SenderIsFollower(services: Option<seq<Standing>>)

  function StandingOf(s: Service.Service): Standing {
    Standing(s.name, s.report)
  }

  /** The `reduce` of a follower's reply. */
  function Standings(services: seq<Service.Service>): (r: seq<Standing>)
    ensures |r| == |Locals(services)|
    ensures forall i :: 0 <= i < |r| ==> r[i] == StandingOf(Locals(services)[i])
  {
    if services == [] then []
    else
      var rest := Standings(services[1..]);
      if services[0].isLocal then
        assert Locals(services) == [services[0]] + Locals(services[1..]);
        [StandingOf(services[0])] + rest
      else
        assert Locals(services) == Locals(services[1..]);
        rest
  }

  /** The sender after the request: connected, with the uuid and mastery it
      claims. */
  function Marked(i: Instance.Instance, req: ElectRequest): (r: Instance.Instance)
    ensures r.isConnected && r.isMaster == req.isMaster && r.uuid == req.uuid
    ensures r.name == i.name && r.fqdn == i.fqdn && r.port == i.port && r.masterSince == i.masterSince
  {
    i.(uuid := req.uuid, isConnected := true, isMaster := req.isMaster)
  }

  /** Whether the request is for this region and names another instance
      of it. `found` is what `region_manager.find` returned, an index into
      the region's instances, and `self` is the index of this instance. */
  predicate ElectAccepted(regionName: string, self: nat, found: Option<nat>, req: ElectRequest) {
    req.region == Some(regionName) && found.Some? && found.value != self
  }

  /** The reply to an election request. `masterAfter` is whether this
      instance is master once `region.elect()` has run. */
  function ElectAnswer(regionName: string, self: nat, found: Option<nat>, req: ElectRequest,
                       masterAfter: bool, services: seq<Service.Service>): (r: ElectReply)
    ensures r == RegionNotValid <==> req.region != Some(regionName)
    ensures r == InstanceNotFound <==> req.region == Some(regionName) && !ElectAccepted(regionName, self, found, req)
    ensures r == SenderIsMaster <==> ElectAccepted(regionName, self, found, req) && req.isMaster
    ensures r.SenderIsFollower? ==> (ElectAccepted(regionName, self, found, req) && !req.isMaster &&
              (r.services.Some? <==> masterAfter) &&
              (r.services.Some? ==> forall s :: s in services && s.isLocal ==> StandingOf(s) in r.services.value))
  {
    if req.region != Some(regionName) then RegionNotValid
    else if !ElectAccepted(regionName, self, found, req) then InstanceNotFound
    else if req.isMaster then SenderIsMaster
    else
      var vs := Standings(services);
      assert forall s :: s in services && s.isLocal ==> StandingOf(s) in vs by {
        forall s | s in services && s.isLocal
          ensures StandingOf(s) in vs
        {
          var i :| 0 <= i < |Locals(services)| && Locals(services)[i] == s;
          assert vs[i] == StandingOf(s);
        }
      }
      SenderIsFollower(if masterAfter then Some(vs) else None)
  }

  /** The instances of the local region, which `/elect` updates in place. */
  class Peers {
    var instances: seq<Instance.Instance>

    constructor(instances: seq<Instance.Instance>)
      ensures this.instances == instances
    {
      this.instances := instances;
    }

    /** `POST /elect`: an accepted request marks the sender and leaves every
        other instance as it was; a refused one changes nothing. */
    method Elect(regionName: string, self: nat, found: Option<nat>, req: ElectRequest,
                 masterAfter: bool, services: seq<Service.Service>) returns (reply: ElectReply)
      requires found.Some? ==> found.value < |instances|
      modifies this
      ensures reply == ElectAnswer(regionName, self, found, req, masterAfter, services)
      ensures ElectAccepted(regionName, self, found, req) ==>
                instances == old(instances)[found.value := Marked(old(instances)[found.value], req)]
      ensures !ElectAccepted(regionName, self, found, req) ==> instances == old(instances)
    {
      if req.region == Some(regionName) && found.Some? && found.value != self {
        instances := instances[found.value := Marked(instances[found.value], req)];
      }
      reply := ElectAnswer(regionName, self, found, req, masterAfter, services);
    }
  }

  /** After an accepted request the sender is connected with the mastery it
      claimed, and no other instance changes. */
  lemma ElectMarksOnlySender(instances: seq<Instance.Instance>, regionName: string, self: nat, found: nat,
                             req: ElectRequest)
    requires found < |instances| && ElectAccepted(regionName, self, Some(found), req)
    ensures var after := instances[found := Marked(instances[found], req)];
            && |after| == |instances|
            && after[found].isConnected && after[found].isMaster == req.isMaster
            && (self < |instances| ==> after[self] == instances[self])
            && forall j :: 0 <= j < |instances| && j != found ==> after[j] == instances[j]
  {
  }

  // ---------------------------------------------------------------------
  // /report/:service (server.js:289-331)

  /** The `/report/:service` replies: the status of the matching out
      result with the service's name and report, a 500 when no result
      matches, and the two 404s. */
  datatype ReportReply =
    | Reported(status: Results.Response, name: string, report: Option<string>)
    | Unmatched
    | NoReportingEndpoint
    | UnknownService

  /** `results.find(r => r.isMatch(report))` from position `from`: the
      index of the first match, or none; a result without `isMatch` throws
      a TypeError when it is reached. */
  function FirstMatchFrom(results: seq<Option<Results.OutResult>>, from: nat, report: Option<string>)
    : (r: Result<Option<nat>>)
    requires from <= |results|
    ensures r.Ok? && r.value.Some? ==>
              from <= r.value.value < |results| && results[r.value.value].Some? &&
              Results.OutMatches(results[r.value.value].value, report)
    ensures r.Ok? || r.error == TypeError
    ensures r.Ok? ==> forall j :: from <= j < (if r.value.Some? then r.value.value else |results|) ==>
              results[j].Some? && !Results.OutMatches(results[j].value, report)
    ensures r.Err? ==> exists j :: (from <= j < |results| && results[j].None? &&
              forall k :: from <= k < j ==> results[k].Some? && !Results.OutMatches(results[k].value, report))
    decreases |results| - from
  {
    if from == |results| then Ok(None)
    else if results[from].None? then Err(TypeError)
    else if Results.OutMatches(results[from].value, report) then Ok(Some(from))
    else FirstMatchFrom(results, from + 1, report)
  }

  /** The reply computed once the service's report is known. The wait of
      up to a minute for a missing report is not modelled: `services` is
      the state when `report()` runs. */
  function Report(services: seq<Service.Service>, name: string): (r: Result<ReportReply>)
  {
    var i := Action.FindLocal(services, name);
    if i.None? then Ok(UnknownService)
    else
      var s := services[i.value];
      if s.out.None? then Ok(NoReportingEndpoint)
      else
        var m :- FirstMatchFrom(s.out.value, 0, s.report);
        if m.None? then Ok(Unmatched)
        else Ok(Reported(s.out.value[m.value].value.response, s.name, s.report))
  }

  /** The cases of `/report`: no local service by that name is a 404, one
      without out results another; otherwise the reply is the response of
      the first out result matching the report, with the service's name and
      report, a 500 when none matches, or a TypeError when a result as
      loaded is reached first. */
  lemma ReportCases(services: seq<Service.Service>, name: string)
    ensures Action.FindLocal(services, name).None? <==> Report(services, name) == Ok(UnknownService)
    ensures Report(services, name) == Ok(NoReportingEndpoint) <==>
              Action.FindLocal(services, name).Some? && services[Action.FindLocal(services, name).value].out.None?
    ensures Report(services, name).Ok? && Report(services, name).value.Reported? ==>
              exists i, j :: 0 <= i < |services| && services[i].isLocal && services[i].name == name &&
                services[i].out.Some? && 0 <= j < |services[i].out.value| && services[i].out.value[j].Some? &&
                Results.OutMatches(services[i].out.value[j].value, services[i].report) &&
                Report(services, name).value == Reported(services[i].out.value[j].value.response, name, services[i].report)
    ensures Report(services, name) == Ok(Unmatched) ==>
              var s := services[Action.FindLocal(services, name).value];
              s.out.Some? && forall j :: 0 <= j < |s.out.value| ==>
                s.out.value[j].Some? && !Results.OutMatches(s.out.value[j].value, s.report)
    ensures Report(services, name).Err? ==> Report(services, name).error == TypeError
  {
  }

  /** A service whose out results are as loaded (none answers `isMatch`)
      cannot be reported: the first one throws. */
  lemma ReportOfLoadedResults(services: seq<Service.Service>, name: string)
    requires Action.FindLocal(services, name).Some?
    requires var s := services[Action.FindLocal(services, name).value];
             s.out.Some? && s.out.value != [] && forall j :: 0 <= j < |s.out.value| ==> s.out.value[j].None?
    ensures Report(services, name) == Err(TypeError)
  {
  }

  // ---------------------------------------------------------------------
  // app.js: the local instance (app.js:64-73) and /current (app.js:94-110)

  /** The local instance named on the command line: the region must have
      an instance of that name; a missing name on a region with instances,
      and a name no instance has, fail with 10001. */
  function LocalInstance(instances: seq<Instance.Instance>, name: Option<string>): (r: Result<nat>)
    ensures r.Ok? ==> name.Some? && r.value < |instances| && instances[r.value].name == name.value &&
                      forall j :: 0 <= j < r.value ==> instances[j].name != name.value
    ensures r.Err? ==> r.error == Code(10001)
    ensures r.Err? <==> name.None? || forall j :: 0 <= j < |instances| ==> instances[j].name != name.value
  {
    if |instances| > 0 && name.None? then Err(Code(10001))
    else if name.None? then Err(Code(10001))
    else FindInstance(instances, name.value)
  }

  function FindInstance(instances: seq<Instance.Instance>, name: string): (r: Result<nat>)
    ensures r.Ok? ==> r.value < |instances| && instances[r.value].name == name &&
                      forall j :: 0 <= j < r.value ==> instances[j].name != name
    ensures r.Err? ==> r.error == Code(10001) && forall j :: 0 <= j < |instances| ==> instances[j].name != name
  {
    if instances == [] then Err(Code(10001))
    else if instances[0].name == name then Ok(0)
    else
      var r := FindInstance(instances[1..], name);
      if r.Err? then r else Ok(r.value + 1)
  }

  /** Regions made by region.js never have instances, so app.js cannot
      start: whatever instance is named, the lookup fails with 10001. */
  lemma StartupAlwaysFails(existing: seq<Region.Region>, base: Region.RegionConfig, now: int,
                           settings: Instance.Settings, name: Option<string>)
    requires Region.NewRegion(existing, base, now, settings).Ok?
    ensures LocalInstance(Region.NewRegion(existing, base, now, settings).value.instances, name) == Err(Code(10001))
  {
    Region.EveryRegionIsLocal(existing, base, now, settings);
  }

  /** What `/current` says about one service. */
  datatype CurrentView = CurrentView(name: string, state: Option<string>, report: Option<string>,
                                     properties: seq<string>)

  datatype CurrentReply = CurrentReply(region: string, services: seq<CurrentView>)

  function CurrentViewOf(s: Service.Service): CurrentView {
    CurrentView(s.name, s.state, s.report, s.properties)
  }

  /** One more service adds itself to the local ones exactly when it is
      local. */
  lemma LocalsSnoc(prefix: seq<Service.Service>, s: Service.Service)
    ensures Locals(prefix + [s]) == Locals(prefix) + (if s.isLocal then [s] else [])
  {
    LocalsAppend(prefix, [s]);
    assert [s][1..] == [];
  }

  /** `GET /current`: the local region's name and, pushed in order, a view
      of each local service. */
  method Current(regionName: string, services: seq<Service.Service>) returns (reply: CurrentReply)
    ensures reply.region == regionName
    ensures |reply.services| == |Locals(services)|
    ensures forall k :: 0 <= k < |reply.services| ==> reply.services[k] == CurrentViewOf(Locals(services)[k])
  {
    var views: seq<CurrentView> := [];
    var i := 0;
    while i < |services|
      invariant 0 <= i <= |services|
      invariant |views| == |Locals(services[..i])|
      invariant forall k :: 0 <= k < |views| ==> views[k] == CurrentViewOf(Locals(services[..i])[k])
    {
      assert services[..i + 1] == services[..i] + [services[i]];
      LocalsSnoc(services[..i], services[i]);
      if services[i].isLocal {
        views := views + [CurrentViewOf(services[i])];
      }
      i := i + 1;
    }
    assert services[..i] == services;
    reply := CurrentReply(regionName, views);
  }

  /** `/current` lists every local service and nothing else. */
  lemma CurrentIsExact(services: seq<Service.Service>, views: seq<CurrentView>)
    requires |views| == |Locals(services)|
    requires forall k :: 0 <= k < |views| ==> views[k] == CurrentViewOf(Locals(services)[k])
    ensures forall s :: s in services && s.isLocal ==> CurrentViewOf(s) in views
    ensures forall v :: v in views ==> exists s :: s in services && s.isLocal && CurrentViewOf(s) == v
  {
    var ls := Locals(services);
    forall s | s in services && s.isLocal
      ensures CurrentViewOf(s) in views
    {
      var i :| 0 <= i < |ls| && ls[i] == s;
      assert views[i] == CurrentViewOf(s);
    }
    forall v | v in views
      ensures exists s :: s in services && s.isLocal && CurrentViewOf(s) == v
    {
      var i :| 0 <= i < |views| && views[i] == v;
      assert ls[i] in ls;
    }
  }
}
