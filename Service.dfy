/** lib/service.js: the registry of services. `new` validates a service
    record and gives it its defaults and initial fields; `start` names every
    service by region and listens for facts about remote services; a probe
    result updates `polled` and `state`. */
module Service {
  import opened Wrappers
  import opened JsValues
  import opened JsStrings
  import opened Helpers
  import Results
  import Query

  /** The `in` node of a service as configured: the default state, the poll
      interval, the probe query, and its results (`None` when `results` is
      not an array). */
  datatype ProbeConfig = ProbeConfig(
    defaultState: Option<string>,
    poll: Option<Scalar>,
    query: Option<Query.QueryConfig>,
    results: Option<seq<Results.ResultConfig>>)

  /** A service as configured. `out` holds its report results, `None` when
      `out.results` is not an array. service.js never passes them through
      result.js, so a result as loaded has no `isMatch` (`None`); `Some`
      stands for one that answers `isMatch(state)` as an out result. */
  datatype ServiceConfig = ServiceConfig(
    name: Option<string>,
    priority: Option<Scalar>,
    probe: Option<ProbeConfig>,
    out: Option<seq<Option<Results.OutResult>>>)

  /** The `in` node after validation. */
  datatype Probe = Probe(
    defaultState: string,
    poll: ParsedInt,
    query: Option<Query.QueryDef>,
    results: Option<seq<Results.Built>>)

  /** A service record: local ones are made by `new`, remote ones are the
      facts other regions report. `state`, `report` and `polled` may be
      null. */
  datatype Service = Service(
    name: string,
    fqn: Option<string>,
    isLocal: bool,
    priority: ParsedInt,
    probe: Option<Probe>,
    out: Option<seq<Option<Results.OutResult>>>,
    polled: Option<string>,
    state: Option<string>,
    reportInherits: bool,
    report: Option<string>,
    properties: seq<string>)

  /** The events the registry raises; the rule engine listens to all five. */
  datatype Event = PolledChanged | StateChanged | ReportChanged | PropertiesChanged | ServiceAdded

  /** A fact about a remote service, as a `remote.service:queried` message
      carries it. */
  datatype RemoteFact = RemoteFact(
    fqn: string,
    name: string,
    priority: ParsedInt,
    state: Option<string>,
    report: Option<string>,
    properties: seq<string>)

  // ---------------------------------------------------------------------
  // new (service.js:47-126)

  predicate NameTaken(services: seq<Service>, name: string) {
    exists i :: 0 <= i < |services| && services[i].name == name
  }

  /** The results of a probe query, each through `result.new(r, base)`. The
      service itself is passed as the mode, which is neither "in" nor "out",
      so no result gets an `isMatch`. */
  function BuildResults(rs: seq<Results.ResultConfig>): (r: Result<seq<Results.Built>>)
    ensures r.Ok? ==> |r.value| == |rs| && forall i :: 0 <= i < |rs| ==> r.value[i].BuiltPlain?
  {
    if rs == [] then Ok([])
    else
      var head :- Results.New(rs[0], Results.Unrecognised);
      var tail :- BuildResults(rs[1..]);
      Ok([head] + tail)
  }

  function NewQuery(q: Option<Query.QueryConfig>): Result<Option<Query.QueryDef>> {
    if q.None? then Ok(None)
    else
      var d :- Query.New(q.value);
      Ok(Some(d))
  }

  /** With a query, `results` must be an array (10851) and every result
      must be valid; without one, `results` is not looked at. */
  function NewResults(p: ProbeConfig): Result<Option<seq<Results.Built>>> {
    if p.query.None? then Ok(None)
    else if p.results.None? then Err(Code(10851))
    else
      var built :- BuildResults(p.results.value);
      Ok(Some(built))
  }

  /** `new(base)` against the services registered so far. */
  function NewService(existing: seq<Service>, base: ServiceConfig): Result<Service> {
    if base.name.None? then Err(Code(10811))
    else
      var name := base.name.value;
      if NameTaken(existing, name) then Err(Code(10812))
      else if '.' in name then Err(Code(10813))
      else
        var priority := if base.priority.None? then Int(0) else ParseInt(base.priority.value);
        if base.probe.None? then Err(Code(10831))
        else
          var p := base.probe.value;
          var dflt := if p.defaultState.None? then "down" else p.defaultState.value;
          var poll := if p.poll.None? then Int(30000) else ParseInt(p.poll.value);
          var query :- NewQuery(p.query);
          var results :- NewResults(p);
          Ok(Service(name, None, true, priority, Some(Probe(dflt, poll, query, results)), base.out,
                     None, Some(dflt), true, Some(dflt), []))
  }

  /** The name checks, in order. */
  lemma NewServiceNameChecks(existing: seq<Service>, base: ServiceConfig)
    ensures base.name.None? ==> NewService(existing, base) == Err(Code(10811))
    ensures base.name.Some? && NameTaken(existing, base.name.value) ==> NewService(existing, base) == Err(Code(10812))
    ensures base.name.Some? && !NameTaken(existing, base.name.value) && '.' in base.name.value ==>
              NewService(existing, base) == Err(Code(10813))
    ensures NewService(existing, base).Ok? ==>
              base.name.Some? && !NameTaken(existing, base.name.value) && '.' !in base.name.value
  {
  }

  /** A service that passes the name checks fails with 10831 exactly when
      it has no `in` node; with one, a query without a results array fails
      with 10851. */
  lemma NewServiceProbeChecks(existing: seq<Service>, base: ServiceConfig)
    requires base.name.Some? && !NameTaken(existing, base.name.value) && '.' !in base.name.value
    ensures base.probe.None? ==> NewService(existing, base) == Err(Code(10831))
    ensures (base.probe.Some? && base.probe.value.query.Some? && Query.New(base.probe.value.query.value).Ok? &&
             base.probe.value.results.None?) ==> NewService(existing, base) == Err(Code(10851))
    ensures base.probe.Some? && base.probe.value.query.None? ==> NewService(existing, base).Ok?
  {
  }

  /** The defaults and the initial fields of a new service: it is local,
      priority 0, default state "down", poll 30000, not yet polled, in state
      and report equal to the default, inheriting its report, with no
      properties. The "must be a number" checks (10821, 10841) cannot fire:
      a value `parseInt` cannot read is stored as NaN. */
  lemma NewServiceFields(existing: seq<Service>, base: ServiceConfig)
    requires NewService(existing, base).Ok?
    ensures var s := NewService(existing, base).value;
            && s.name == base.name.value && s.isLocal && s.fqn.None?
            && s.priority == (if base.priority.None? then Int(0) else ParseInt(base.priority.value))
            && s.probe.Some?
            && s.probe.value.defaultState ==
                 (if base.probe.value.defaultState.None? then "down" else base.probe.value.defaultState.value)
            && s.probe.value.poll == (if base.probe.value.poll.None? then Int(30000) else ParseInt(base.probe.value.poll.value))
            && s.polled.None? && s.state == Some(s.probe.value.defaultState) && s.report == s.state
            && s.reportInherits && s.properties == [] && s.out == base.out
  {
  }

  /** A priority or poll `parseInt` cannot read does not fail: it is kept as
      NaN. */
  lemma NonNumericPriorityKept(existing: seq<Service>, name: string)
    requires !NameTaken(existing, name) && '.' !in name
    ensures var base := ServiceConfig(Some(name), Some(Text("high")), Some(ProbeConfig(None, Some(Text("soon")), None, None)), None);
            NewService(existing, base).Ok? &&
            NewService(existing, base).value.priority == NaN &&
            NewService(existing, base).value.probe.value.poll == NaN
  {
    WordIsNaN("high");
    WordIsNaN("soon");
  }

  /** A word that starts with a letter is not a number to `parseInt`. */
  lemma WordIsNaN(w: string)
    requires w != [] && 'a' <= w[0] <= 'z'
    ensures ParseInt(Text(w)) == NaN
  {
    assert !IsWhite(w[0]) && !IsDigit(w[0]);
    assert TrimStart(w) == w;
    assert DigitRun(w) == 0;
    assert ParseIntText(w) == NaN;
  }

  /** The results of a probe get no `isMatch`, so polling a service with at
      least one result makes the query callback throw. */
  lemma ProbeResultsAreUnmatched(existing: seq<Service>, base: ServiceConfig, error: Option<Results.ProbeError>, status: int)
    requires NewService(existing, base).Ok?
    requires base.probe.value.query.Some? && |base.probe.value.results.value| > 0
    ensures var p := NewService(existing, base).value.probe.value;
            p.results.Some? && Query.Settle(p.results, error, status).Crashed?
  {
    var p := NewService(existing, base).value.probe.value;
    Query.PlainResultThrows(p.results.value, 0, error, status);
  }

  // ---------------------------------------------------------------------
  // start (service.js:128-191)

  /** `region.name + "." + service.name`. */
  function Fqn(regionName: string, name: string): string {
    regionName + "." + name
  }

  function WithFqn(s: Service, regionName: string): Service {
    s.(fqn := Some(Fqn(regionName, s.name)))
  }

  // ---------------------------------------------------------------------
  // the remote.service:queried handler (service.js:138-163)

  /** `services.find(s => s.fqn == fqn)`, as an index. A missing fqn is
      `None` on either side, and null equals undefined under `==`. */
  function FindFqn(services: seq<Service>, fqn: Option<string>): (r: Option<nat>)
    ensures r.Some? ==> r.value < |services| && services[r.value].fqn == fqn &&
                        forall j :: 0 <= j < r.value ==> services[j].fqn != fqn
    ensures r.None? ==> forall j :: 0 <= j < |services| ==> services[j].fqn != fqn
  {
    if services == [] then None
    else if services[0].fqn == fqn then Some(0)
    else
      var r := FindFqn(services[1..], fqn);
      if r.None? then None else Some(r.value + 1)
  }

  /** The record a fact about an unknown remote service is kept as: the
      message itself, which is not local. */
  function RemoteService(msg: RemoteFact): Service {
    Service(msg.name, Some(msg.fqn), false, msg.priority, None, None,
            None, msg.state, false, msg.report, msg.properties)
  }

  /** One run of the handler: a known fqn has `state`, `report` and
      `properties` overwritten where they differ, each difference raising
      its own event; an unknown fqn is appended. */
  function Ingest(services: seq<Service>, msg: RemoteFact): (seq<Service>, seq<Event>) {
    match FindFqn(services, Some(msg.fqn))
    case None => (services + [RemoteService(msg)], [ServiceAdded])
    case Some(i) =>
      var s := services[i];
      var sameProperties := SameMembers(s.properties, Some(msg.properties));
      var events := (if s.state != msg.state then [StateChanged] else [])
                    + (if s.report != msg.report then [ReportChanged] else [])
                    + (if !sameProperties then [PropertiesChanged] else []);
      var updated := s.(state := msg.state, report := msg.report,
                        properties := if sameProperties then s.properties else msg.properties);
      (services[i := updated], events)
  }

  /** Every list has the same members as itself. */
  lemma SameMembersReflexive(p: seq<string>)
    ensures SameMembers(p, Some(p))
  {
  }

  /** A fact about an unknown fqn is appended as a remote record, and
      raises `remote.service:new` alone. */
  lemma IngestAppends(services: seq<Service>, msg: RemoteFact)
    requires forall j :: 0 <= j < |services| ==> services[j].fqn != Some(msg.fqn)
    ensures Ingest(services, msg) == (services + [RemoteService(msg)], [ServiceAdded])
    ensures !RemoteService(msg).isLocal && RemoteService(msg).fqn == Some(msg.fqn)
  {
  }

  /** A fact about a known fqn changes only that record, and only its
      `state`, `report` and `properties`; each field raises its event
      exactly when it differed. */
  lemma IngestUpdates(services: seq<Service>, msg: RemoteFact, i: nat)
    requires FindFqn(services, Some(msg.fqn)) == Some(i)
    ensures var after := Ingest(services, msg).0;
            |after| == |services| &&
            (forall j :: 0 <= j < |services| && j != i ==> after[j] == services[j]) &&
            after[i].state == msg.state && after[i].report == msg.report &&
            SameMembers(after[i].properties, Some(msg.properties)) &&
            after[i] == services[i].(state := msg.state, report := msg.report, properties := after[i].properties)
    ensures var events := Ingest(services, msg).1;
            (StateChanged in events <==> services[i].state != msg.state) &&
            (ReportChanged in events <==> services[i].report != msg.report) &&
            (PropertiesChanged in events <==> !SameMembers(services[i].properties, Some(msg.properties))) &&
            ServiceAdded !in events
  {
    SameMembersReflexive(msg.properties);
    var s := services[i];
    var same := SameMembers(s.properties, Some(msg.properties));
    var events := (if s.state != msg.state then [StateChanged] else [])
                  + (if s.report != msg.report then [ReportChanged] else [])
                  + (if !same then [PropertiesChanged] else []);
    assert Ingest(services, msg).1 == events;
  }

  /** Applying the same message again changes nothing and raises nothing. */
  lemma IngestIdempotent(services: seq<Service>, msg: RemoteFact)
    ensures Ingest(Ingest(services, msg).0, msg) == (Ingest(services, msg).0, [])
  {
    var after := Ingest(services, msg).0;
    SameMembersReflexive(msg.properties);
    match FindFqn(services, Some(msg.fqn))
    case None =>
      assert FindFqn(after, Some(msg.fqn)) == Some(|services|) by {
        assert after[|services|].fqn == Some(msg.fqn);
        assert forall j :: 0 <= j < |services| ==> after[j] == services[j];
      }
      assert after[|services| := after[|services|]] == after;
    case Some(i) =>
      assert FindFqn(after, Some(msg.fqn)) == Some(i) by {
        assert forall j :: 0 <= j < i ==> after[j] == services[j];
        assert after[i].fqn == Some(msg.fqn);
      }
      var t := after[i];
      assert t.state == msg.state && t.report == msg.report;
      assert SameMembers(t.properties, Some(msg.properties));
      assert t.(state := msg.state, report := msg.report, properties := t.properties) == t;
      assert after[i := t] == after;
      var second := Ingest(after, msg);
      assert second.1 == [] + [] + [];
      assert second.0 == after[i := t];
      var none: seq<Event> := [];
      assert second.1 == none;
      assert second == (after, none);
  }

  // ---------------------------------------------------------------------
  // the probe-result handler (service.js:169-176)

  /** What a settled poll hands to the success handler: a matched result
      or the `{response, body}` object, neither of which has a `state` field
      (`result.new` deleted it), so the handler reads undefined. A rejected
      or crashed poll never reaches the handler. */
  function PollResolution(s: Query.Settlement): (r: Option<Option<string>>)
    ensures r.Some? <==> s.Matched? || s.Answered?
  {
    if s.Matched? || s.Answered? then Some(None) else None
  }

  /** The success handler: `polled` and `state` take the result's state;
      `polled` changing raises an event. */
  function AcceptPoll(s: Service, resultState: Option<string>): (r: (Service, seq<Event>))
    ensures r.1 == [] || r.1 == [PolledChanged]
  {
    (s.(polled := resultState, state := resultState),
     if s.polled != resultState then [PolledChanged] else [])
  }

  /** A probe result changes `polled` and raises the event only when it
      differs from the current `polled`; `state` always ends up equal to it,
      and nothing else about the service changes. */
  lemma AcceptPollEffect(s: Service, resultState: Option<string>)
    ensures var (t, events) := AcceptPoll(s, resultState);
            (events == [PolledChanged] <==> s.polled != resultState) &&
            t.polled == resultState && t.state == resultState &&
            t == s.(polled := t.polled, state := t.state)
  {
  }

  /** Since every poll resolves with no state, a service whose `polled` is
      null keeps it null and raises no event, and its `state` is cleared. */
  lemma PollNeverSetsPolled(s: Service, settlement: Query.Settlement)
    requires s.polled.None? && PollResolution(settlement).Some?
    ensures var (t, events) := AcceptPoll(s, PollResolution(settlement).value);
            t.polled.None? && t.state.None? && events == []
  {
  }

  // ---------------------------------------------------------------------
  // the registry

  class ServiceRegistry {
    var services: seq<Service>
    /** How many `remote.service:queried` listeners `start` registered: one
        per service in the list when it ran. */
    var handlers: nat

    constructor()
      ensures services == [] && handlers == 0
    {
      services := [];
      handlers := 0;
    }

    /** `new(base)`: validate against the services so far and push. */
    method New(base: ServiceConfig) returns (r: Result<Service>)
      modifies this
      ensures r == NewService(old(services), base)
      ensures services == if r.Ok? then old(services) + [r.value] else old(services)
      ensures handlers == old(handlers)
    {
      r := NewService(services, base);
      if r.Ok? {
        services := services + [r.value];
      }
    }

    /** `start(context)`: every service gets its fqn, and one listener is
        registered for each. */
    method Start(regionName: string)
      modifies this
      ensures |services| == |old(services)|
      ensures forall i :: 0 <= i < |services| ==> services[i] == WithFqn(old(services)[i], regionName)
      ensures handlers == old(handlers) + |old(services)|
    {
      var i := 0;
      while i < |services|
        invariant 0 <= i <= |services| == |old(services)|
        invariant forall j :: 0 <= j < i ==> services[j] == WithFqn(old(services)[j], regionName)
        invariant forall j :: i <= j < |services| ==> services[j] == old(services)[j]
        invariant handlers == old(handlers) + i
      {
        services := services[i := WithFqn(services[i], regionName)];
        handlers := handlers + 1;
        i := i + 1;
      }
    }

    /** A `remote.service:queried` message: every registered listener runs
        the handler in turn. The first run does the work and the others find
        nothing left to change; with no listener the message is ignored. */
    method Queried(msg: RemoteFact) returns (events: seq<Event>)
      modifies this
      ensures handlers == old(handlers)
      ensures old(handlers) == 0 ==> services == old(services) && events == []
      ensures old(handlers) > 0 ==> (services, events) == Ingest(old(services), msg)
    {
      events := [];
      var k := 0;
      while k < handlers
        invariant 0 <= k <= handlers == old(handlers)
        invariant k == 0 ==> services == old(services) && events == []
        invariant k > 0 ==> (services, events) == Ingest(old(services), msg)
      {
        var step := Ingest(services, msg);
        if k > 0 {
          IngestIdempotent(old(services), msg);
          assert step == (services, []);
          assert events + step.1 == events;
        } else {
          assert events + step.1 == step.1;
        }
        services := step.0;
        events := events + step.1;
        k := k + 1;
      }
    }

    /** The success handler of service `i`'s poll. */
    method AcceptProbe(i: nat, resultState: Option<string>) returns (events: seq<Event>)
      requires i < |services|
      modifies this
      ensures services == old(services)[i := AcceptPoll(old(services)[i], resultState).0]
      ensures events == AcceptPoll(old(services)[i], resultState).1
      ensures handlers == old(handlers)
    {
      var s := services[i];
      events := [];
      if s.polled != resultState {
        s := s.(polled := resultState);
        events := [PolledChanged];
      }
      if s.state != resultState {
        s := s.(state := resultState);
      }
      services := services[i := s];
    }
  }
}
