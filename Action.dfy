/** lib/action.js: the actions a rule runs. `new` infers and checks an
    action's type; an update action changes one local service in place. */
module Action {
  import opened Wrappers
  import opened JsValues
  import opened Helpers
  import Service

  /** An action as configured (`type` is spelled `kind` here). String
      fields count as given when truthy. */
  datatype ActionConfig = ActionConfig(
    kind: Option<string>,
    service: Option<string>,
    uri: Option<string>,
    state: Option<string>,
    report: Option<string>,
    addProperty: Option<string>,
    removeProperty: Option<string>)

  /** The changes an update action makes, with the falsy ones dropped. */
  datatype UpdateSpec = UpdateSpec(
    service: string,
    state: Option<string>,
    report: Option<string>,
    addProperty: Option<string>,
    removeProperty: Option<string>)

  /** An action after `new`: an update, a webhook (an HTTP call with no
      effect on the model), or an action of some other type, which gets no
      `execute` at all. */
  datatype Act = Update(spec: UpdateSpec) | Webhook | Inert(kind: string)

  function Truthy(o: Option<string>): Option<string>
    ensures Truthy(o).Some? <==> StrTruthy(o)
  {
    if StrTruthy(o) then o else None
  }

  function Count(o: Option<string>): nat {
    if StrTruthy(o) then 1 else 0
  }

  /** The inferred type: `update` with a service, else `webhook` with a uri,
      else 10601. An explicit type is kept. */
  function Kind(base: ActionConfig): Result<string> {
    if base.kind.Some? then Ok(base.kind.value)
    else if StrTruthy(base.service) then Ok("update")
    else if StrTruthy(base.uri) then Ok("webhook")
    else Err(Code(10601))
  }

  /** `new(base)`. An update must name an undotted service (10602; with an
      explicit type and no service at all, `indexOf` of undefined throws)
      and make at least one change (10603). */
  function New(base: ActionConfig): Result<Act> {
    var kind :- Kind(base);
    if kind == "update" then
      if base.service.None? then Err(TypeError)
      else if '.' in base.service.value then Err(Code(10602))
      else if Count(base.state) + Count(base.report) + Count(base.addProperty) + Count(base.removeProperty) > 0 then
        Ok(Update(UpdateSpec(base.service.value, Truthy(base.state), Truthy(base.report),
                             Truthy(base.addProperty), Truthy(base.removeProperty))))
      else Err(Code(10603))
    else if kind == "webhook" then Ok(Webhook)
    else Ok(Inert(kind))
  }

  /** Type inference: a service makes an update, otherwise a uri makes a
      webhook, otherwise the action is rejected with 10601. */
  lemma KindInference(base: ActionConfig)
    requires base.kind.None?
    ensures StrTruthy(base.service) ==> New(base).Ok? ==> New(base).value.Update?
    ensures !StrTruthy(base.service) && StrTruthy(base.uri) ==> New(base) == Ok(Webhook)
    ensures !StrTruthy(base.service) && !StrTruthy(base.uri) ==> New(base) == Err(Code(10601))
  {
  }

  /** An update fails with 10602 for a dotted service and with 10603 when it
      changes nothing; otherwise it is accepted with exactly the truthy
      changes. */
  lemma UpdateChecks(base: ActionConfig)
    requires Kind(base) == Ok("update") && base.service.Some?
    ensures '.' in base.service.value ==> New(base) == Err(Code(10602))
    ensures ('.' !in base.service.value && !StrTruthy(base.state) && !StrTruthy(base.report) &&
             !StrTruthy(base.addProperty) && !StrTruthy(base.removeProperty)) ==> New(base) == Err(Code(10603))
    ensures New(base).Ok? <==>
              '.' !in base.service.value &&
              (StrTruthy(base.state) || StrTruthy(base.report) || StrTruthy(base.addProperty) || StrTruthy(base.removeProperty))
    ensures New(base).Ok? ==> New(base).value.Update? && New(base).value.spec.service == base.service.value
  {
  }

  // ---------------------------------------------------------------------
  // execute (action.js:34-62)

  /** `services.find(s => s.isLocal && s.name == name)`, as an index. */
  function FindLocal(services: seq<Service.Service>, name: string): (r: Option<nat>)
    ensures r.Some? ==> r.value < |services| && services[r.value].isLocal && services[r.value].name == name &&
                        forall j :: 0 <= j < r.value ==> !(services[j].isLocal && services[j].name == name)
    ensures r.None? ==> forall j :: 0 <= j < |services| ==> !(services[j].isLocal && services[j].name == name)
  {
    if services == [] then None
    else if services[0].isLocal && services[0].name == name then Some(0)
    else
      var r := FindLocal(services[1..], name);
      if r.None? then None else Some(r.value + 1)
  }

  /** `properties.push(p)` unless `p` is already there. */
  function AddProperty(ps: seq<string>, p: string): (r: seq<string>)
  {
    if IndexIn(ps, p) < 0 then ps + [p] else ps
  }

  /** `properties.splice(properties.indexOf(p), 1)` when `p` is there. */
  function RemoveProperty(ps: seq<string>, p: string): (r: seq<string>)
  {
    var i := IndexIn(ps, p);
    if i < 0 then ps else ps[..i] + ps[i + 1..]
  }

  /** The changes an update makes to the service it found, in the order of
      the source: state, report (which stops inheriting), added property,
      removed property. */
  function ApplyUpdate(s: Service.Service, u: UpdateSpec): Service.Service {
    var s1 := if u.state.Some? then s.(state := u.state) else s;
    var s2 := if u.report.Some? then s1.(reportInherits := false, report := u.report) else s1;
    var s3 := if u.addProperty.Some? then s2.(properties := AddProperty(s2.properties, u.addProperty.value)) else s2;
    if u.removeProperty.Some? then s3.(properties := RemoveProperty(s3.properties, u.removeProperty.value)) else s3
  }

  /** `action.execute(context)` on the service list. */
  function Execute(services: seq<Service.Service>, a: Act): Result<seq<Service.Service>> {
    match a
    case Update(u) =>
      (match FindLocal(services, u.service)
       case None => Err(Code(10602))
       case Some(i) => Ok(services[i := ApplyUpdate(services[i], u)]))
    case Webhook => Ok(services)
    case Inert(_) => Err(TypeError)
  }

  /** The update `execute` on the registry: the fields of the one service
      are assigned, and its property list edited, in place. */
  method ExecuteOn(reg: Service.ServiceRegistry, a: Act) returns (o: Outcome)
    modifies reg
    ensures Execute(old(reg.services), a).Ok? ==> o == Pass && reg.services == Execute(old(reg.services), a).value
    ensures Execute(old(reg.services), a).Err? ==>
              o == Fail(Execute(old(reg.services), a).error) && reg.services == old(reg.services)
    ensures reg.handlers == old(reg.handlers)
  {
    match a
    case Webhook => return Pass;
    case Inert(_) => return Fail(TypeError);
    case Update(u) =>
      var found := FindLocal(reg.services, u.service);
      if found.None? {
        return Fail(Code(10602));
      }
      var i := found.value;
      var s := UpdateService(reg.services[i], u);
      reg.services := reg.services[i := s];
      return Pass;
  }

  /** The assignments and property edits of an update on the service it
      found, in the order of the source. */
  method UpdateService(s0: Service.Service, u: UpdateSpec) returns (s: Service.Service)
    ensures s == ApplyUpdate(s0, u)
  {
    s := s0;
    if u.state.Some? && s.state != u.state {
      s := s.(state := u.state);
    }
    if u.report.Some? {
      s := s.(reportInherits := false);
      if s.report != u.report {
        s := s.(report := u.report);
      }
    }
    var ps := s.properties;
    if u.addProperty.Some? {
      ps := Push(ps, u.addProperty.value);
    }
    if u.removeProperty.Some? {
      ps := Splice(ps, u.removeProperty.value);
    }
    s := s.(properties := ps);
  }

  /** `properties.push(p)` when `indexOf` does not find it. */
  method Push(ps: seq<string>, p: string) returns (r: seq<string>)
    ensures r == AddProperty(ps, p)
  {
    r := ps;
    if IndexIn(r, p) < 0 {
      r := r + [p];
    }
  }

  /** `properties.splice(indexOf(p), 1)` when `indexOf` finds it. */
  method Splice(ps: seq<string>, p: string) returns (r: seq<string>)
    ensures r == RemoveProperty(ps, p)
  {
    r := ps;
    var k := IndexIn(r, p);
    if k >= 0 {
      r := r[..k] + r[k + 1..];
    }
  }

  // ---------------------------------------------------------------------
  // properties of the update

  /** No two equal entries. */
  predicate NoDuplicates(ps: seq<string>) {
    forall i, j :: 0 <= i < j < |ps| ==> ps[i] != ps[j]
  }

  /** Adding makes the property present, changes nothing when it already
      was, and never introduces a duplicate. */
  lemma AddPropertyMeaning(ps: seq<string>, p: string)
    ensures p in AddProperty(ps, p)
    ensures p in ps ==> AddProperty(ps, p) == ps
    ensures p !in ps ==> AddProperty(ps, p) == ps + [p]
    ensures NoDuplicates(ps) ==> NoDuplicates(AddProperty(ps, p))
  {
  }

  /** Removing takes out the first occurrence only: without the property the
      list is unchanged, and otherwise one copy fewer remains and the rest
      keep their order. */
  lemma RemovePropertyMeaning(ps: seq<string>, p: string)
    ensures p !in ps ==> RemoveProperty(ps, p) == ps
    ensures p in ps ==> multiset(RemoveProperty(ps, p)) == multiset(ps) - multiset{p}
    ensures p in ps ==> exists i :: 0 <= i < |ps| && ps[i] == p && p !in ps[..i] &&
                                    RemoveProperty(ps, p) == ps[..i] + ps[i + 1..]
    ensures NoDuplicates(ps) ==> p !in RemoveProperty(ps, p)
  {
    var i := IndexIn(ps, p);
    if i >= 0 {
      FirstOccurrence(ps, p, i);
      assert RemoveProperty(ps, p) == ps[..i] + ps[i + 1..];
      RemoveFound(ps, p, i);
    }
  }

  lemma RemoveFound(ps: seq<string>, p: string, i: nat)
    requires i < |ps| && ps[i] == p && RemoveProperty(ps, p) == ps[..i] + ps[i + 1..]
    ensures multiset(RemoveProperty(ps, p)) == multiset(ps) - multiset{p}
    ensures NoDuplicates(ps) ==> p !in RemoveProperty(ps, p)
  {
    RemoveAtCounts(ps, i);
    if NoDuplicates(ps) {
      RemoveAtUnique(ps, i);
    }
  }

  lemma FirstOccurrence(ps: seq<string>, p: string, i: nat)
    requires i < |ps| && ps[i] == p && forall j :: 0 <= j < i ==> ps[j] != p
    ensures p !in ps[..i]
  {
    assert forall j :: 0 <= j < i ==> ps[..i][j] == ps[j];
  }

  lemma RemoveAtCounts(ps: seq<string>, i: nat)
    requires i < |ps|
    ensures multiset(ps[..i] + ps[i + 1..]) == multiset(ps) - multiset{ps[i]}
  {
    assert ps == ps[..i] + [ps[i]] + ps[i + 1..];
  }

  lemma RemoveAtUnique(ps: seq<string>, i: nat)
    requires i < |ps| && NoDuplicates(ps)
    ensures ps[i] !in ps[..i] + ps[i + 1..]
  {
    var r := ps[..i] + ps[i + 1..];
    forall k | 0 <= k < |r|
      ensures r[k] != ps[i]
    {
      if k < i {
        assert r[k] == ps[k];
      } else {
        assert r[k] == ps[k + 1];
      }
    }
  }

  /** An update changes only the first local service with its name, and on
      it only `state`, `report`, `reportInherits` and `properties`: `state`
      becomes the given state, a given report stops inheritance and becomes
      the report, and the properties are added to and removed from. With no
      such service it fails with 10602 and changes nothing. */
  lemma UpdateEffect(services: seq<Service.Service>, u: UpdateSpec)
    ensures FindLocal(services, u.service).None? ==> Execute(services, Update(u)) == Err(Code(10602))
    ensures FindLocal(services, u.service).Some? ==>
              var i := FindLocal(services, u.service).value;
              var after := Execute(services, Update(u)).value;
              var s, t := services[i], after[i];
              && |after| == |services|
              && (forall j :: 0 <= j < |services| && j != i ==> after[j] == services[j])
              && t.state == (if u.state.Some? then u.state else s.state)
              && t.report == (if u.report.Some? then u.report else s.report)
              && t.reportInherits == (u.report.None? && s.reportInherits)
              && t == s.(state := t.state, report := t.report, reportInherits := t.reportInherits, properties := t.properties)
              && (u.addProperty.Some? && u.removeProperty.None? ==> u.addProperty.value in t.properties)
              && (u.addProperty.None? && u.removeProperty.None? ==> t.properties == s.properties)
  {
    if FindLocal(services, u.service).Some? {
      UpdateFields(services[FindLocal(services, u.service).value], u);
    }
  }

  lemma UpdateFields(s: Service.Service, u: UpdateSpec)
    ensures var t := ApplyUpdate(s, u);
            && t.state == (if u.state.Some? then u.state else s.state)
            && t.report == (if u.report.Some? then u.report else s.report)
            && t.reportInherits == (u.report.None? && s.reportInherits)
            && t == s.(state := t.state, report := t.report, reportInherits := t.reportInherits, properties := t.properties)
            && (u.addProperty.Some? && u.removeProperty.None? ==> u.addProperty.value in t.properties)
            && (u.addProperty.None? && u.removeProperty.None? ==> t.properties == s.properties)
  {
    if u.addProperty.Some? {
      AddPropertyMeaning(s.properties, u.addProperty.value);
    }
  }

  /** Whatever its kind, an action that succeeds keeps the list's length,
      every service's name and locality, and every remote service. */
  lemma ExecuteTouchesOnlyLocal(services: seq<Service.Service>, a: Act)
    ensures Execute(services, a).Ok? ==>
              var after := Execute(services, a).value;
              |after| == |services| &&
              forall j :: 0 <= j < |services| ==>
                after[j].name == services[j].name && after[j].isLocal == services[j].isLocal &&
                after[j].fqn == services[j].fqn && after[j].polled == services[j].polled &&
                (!services[j].isLocal ==> after[j] == services[j])
  {
    if a.Update? && FindLocal(services, a.spec.service).Some? {
      KeepsIdentity(services[FindLocal(services, a.spec.service).value], a.spec);
    }
  }

  /** An update leaves a service's name, locality, fqn and poll result. */
  lemma KeepsIdentity(s: Service.Service, u: UpdateSpec)
    ensures var t := ApplyUpdate(s, u);
            t.name == s.name && t.isLocal == s.isLocal && t.fqn == s.fqn && t.polled == s.polled
  {
  }
}
