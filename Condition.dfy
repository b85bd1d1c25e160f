/** lib/condition.js: the registry of named conditions. `new` checks a
    condition's shape and gives it an evaluator; an `eq` condition compares
    one service's state or report, and the `all`, `any` and `formula`
    evaluators are stubs that return nothing. */
module Condition {
  import opened Wrappers
  import opened JsValues
  import opened JsStrings
  import Service

  /** An `eq` node as configured. A string field counts as given when it is
      truthy (present and not empty); `properties` says whether a truthy
      `properties` field is present. */
  datatype EqSpec = EqSpec(
    service: Option<string>,
    properties: bool,
    state: Option<string>,
    property: Option<string>,
    report: Option<string>)

  /** An `all` or `any` node as configured. */
  datatype GroupSpec = GroupSpec(service: Option<string>, properties: bool)

  /** A condition as configured. `service` is the condition's own top-level
      `service` field, which the `eq` evaluator reads for a dotted name. */
  datatype ConditionConfig = ConditionConfig(
    name: Option<string>,
    service: Option<string>,
    eq: Option<EqSpec>,
    all: Option<GroupSpec>,
    any: Option<GroupSpec>,
    formula: Option<string>)

  /** The comparison an `eq` condition makes. */
  datatype EqCheck = EqCheck(
    service: string,
    ownService: Option<string>,
    state: Option<string>,
    property: Option<string>,
    report: Option<string>)

  /** What `new` attached: an `eq` evaluator with its `validate`, or one of
      the stub evaluators, which come without `validate`. */
  datatype Kind = Eq(check: EqCheck) | Stub

  datatype Cond = Cond(name: string, kind: Kind)

  // ---------------------------------------------------------------------
  // new (condition.js:46-148)

  predicate NameTaken(conditions: seq<Cond>, name: string) {
    exists i :: 0 <= i < |conditions| && conditions[i].name == name
  }

  function Count(b: bool): nat {
    if b then 1 else 0
  }

  /** How many of `eq`, `all`, `any` and `formula` are truthy. */
  function KindCount(base: ConditionConfig): nat {
    Count(base.eq.Some?) + Count(base.all.Some?) + Count(base.any.Some?) + Count(StrTruthy(base.formula))
  }

  /** How many of `state`, `property` and `report` an `eq` gives. */
  function EqCount(e: EqSpec): nat {
    Count(StrTruthy(e.state)) + Count(StrTruthy(e.property)) + Count(StrTruthy(e.report))
  }

  /** The `eq` checks: a service (10431), no `properties` (10432), and
      exactly one of `state`, `property`, `report` (10435). */
  function NewEq(base: ConditionConfig, e: EqSpec): Result<Kind> {
    if !StrTruthy(e.service) then Err(Code(10431))
    else if e.properties then Err(Code(10432))
    else if EqCount(e) == 1 then
      Ok(Eq(EqCheck(e.service.value, base.service,
                    if StrTruthy(e.state) then e.state else None,
                    if StrTruthy(e.property) then e.property else None,
                    if StrTruthy(e.report) then e.report else None)))
    else Err(Code(10435))
  }

  /** The `all`/`any` checks: a service (`missingService`) and properties
      (`missingProperties`). */
  function NewGroup(g: GroupSpec, missingService: int, missingProperties: int): Result<Kind> {
    if !StrTruthy(g.service) then Err(Code(missingService))
    else if g.properties then Ok(Stub)
    else Err(Code(missingProperties))
  }

  /** `new(base)` against the conditions registered so far. */
  function NewCondition(existing: seq<Cond>, base: ConditionConfig): Result<Cond> {
    if base.name.None? then Err(Code(10411))
    else
      var name := base.name.value;
      if NameTaken(existing, name) then Err(Code(10412))
      else if '.' in name then Err(Code(10413))
      else if KindCount(base) != 1 then Err(Code(10421))
      else
        var kind :- if base.eq.Some? then NewEq(base, base.eq.value)
                    else if base.all.Some? then NewGroup(base.all.value, 10441, 10442)
                    else if base.any.Some? then NewGroup(base.any.value, 10451, 10452)
                    else Ok(Stub);
        Ok(Cond(name, kind))
  }

  /** The name checks and the one-kind check, in order. */
  lemma NewConditionChecks(existing: seq<Cond>, base: ConditionConfig)
    ensures base.name.None? ==> NewCondition(existing, base) == Err(Code(10411))
    ensures base.name.Some? && NameTaken(existing, base.name.value) ==> NewCondition(existing, base) == Err(Code(10412))
    ensures base.name.Some? && !NameTaken(existing, base.name.value) && '.' in base.name.value ==>
              NewCondition(existing, base) == Err(Code(10413))
    ensures (base.name.Some? && !NameTaken(existing, base.name.value) && '.' !in base.name.value &&
             KindCount(base) != 1) ==> NewCondition(existing, base) == Err(Code(10421))
    ensures NewCondition(existing, base).Ok? ==>
              base.name.Some? && !NameTaken(existing, base.name.value) && '.' !in base.name.value &&
              KindCount(base) == 1 && NewCondition(existing, base).value.name == base.name.value
  {
  }

  /** An `eq` condition is accepted iff it names a service, has no
      `properties` and gives exactly one of `state`, `property`, `report`;
      the errors come in that order. Everything but `eq` gets a stub. */
  lemma NewConditionKinds(existing: seq<Cond>, base: ConditionConfig)
    requires base.name.Some? && !NameTaken(existing, base.name.value) && '.' !in base.name.value
    requires KindCount(base) == 1
    ensures base.eq.Some? ==>
              var e := base.eq.value;
              (NewCondition(existing, base).Ok? <==> StrTruthy(e.service) && !e.properties && EqCount(e) == 1) &&
              (!StrTruthy(e.service) ==> NewCondition(existing, base) == Err(Code(10431))) &&
              (StrTruthy(e.service) && e.properties ==> NewCondition(existing, base) == Err(Code(10432))) &&
              (StrTruthy(e.service) && !e.properties && EqCount(e) != 1 ==> NewCondition(existing, base) == Err(Code(10435)))
    ensures NewCondition(existing, base).Ok? ==> (NewCondition(existing, base).value.kind.Eq? <==> base.eq.Some?)
    ensures StrTruthy(base.formula) ==> NewCondition(existing, base) == Ok(Cond(base.name.value, Stub))
  {
  }

  // ---------------------------------------------------------------------
  // evaluate and validate (condition.js:84-106, 118-143)

  /** The fqn an `eq` looks for: a dotted service name is replaced by the
      condition's own `service` field (usually absent), an undotted one is
      qualified with the local region's name. */
  function EqFqn(e: EqCheck, regionName: string): Option<string> {
    if '.' in e.service then e.ownService else Some(Service.Fqn(regionName, e.service))
  }

  /** `condition.evaluate(context)`: `None` is the stubs' undefined. An `eq`
      whose service is missing is false. For a found service, a `state`
      comparison is tried first; a `property` comparison reads the
      undeclared `state` and throws; then a `report` comparison. */
  function Evaluate(c: Cond, services: seq<Service.Service>, regionName: string): Result<Option<bool>> {
    match c.kind
    case Stub => Ok(None)
    case Eq(e) =>
      match Service.FindFqn(services, EqFqn(e, regionName))
      case None => Ok(Some(false))
      case Some(i) =>
        var s := services[i];
        if e.state.Some? && s.state == e.state then Ok(Some(true))
        else if e.property.Some? then Err(ReferenceError)
        else if e.report.Some? && s.report == e.report then Ok(Some(true))
        else Ok(Some(false))
  }

  /** `condition.validate(context)`: an `eq` fails with 10434 when its
      service cannot be found; a stub condition has no `validate`, and
      calling it throws. */
  function Validate(c: Cond, services: seq<Service.Service>, regionName: string): Outcome {
    match c.kind
    case Stub => Fail(TypeError)
    case Eq(e) => if Service.FindFqn(services, EqFqn(e, regionName)).None? then Fail(Code(10434)) else Pass
  }

  /** An `eq` on an undotted service with a `state` or `report` comparison
      is true iff the service `region.service` exists and its state (or
      report) equals the one given, and false when it is missing. */
  lemma EqMeaning(c: Cond, services: seq<Service.Service>, regionName: string)
    requires c.kind.Eq? && '.' !in c.kind.check.service && c.kind.check.property.None?
    ensures var e := c.kind.check;
            var fqn := Some(regionName + "." + e.service);
            Evaluate(c, services, regionName) ==
              Ok(Some(exists i :: 0 <= i < |services| && services[i].fqn == fqn &&
                        (forall j :: 0 <= j < i ==> services[j].fqn != fqn) &&
                        ((e.state.Some? && services[i].state == e.state) ||
                         (e.report.Some? && services[i].report == e.report))))
  {
    var e := c.kind.check;
    var fqn := Some(regionName + "." + e.service);
    match Service.FindFqn(services, fqn)
    case None =>
    case Some(i) =>
      assert services[i].fqn == fqn;
  }

  /** The `property` comparison throws whenever its service is found. */
  lemma PropertyEqThrows(c: Cond, services: seq<Service.Service>, regionName: string)
    requires c.kind.Eq? && c.kind.check.property.Some? && c.kind.check.state.None?
    requires Service.FindFqn(services, EqFqn(c.kind.check, regionName)).Some?
    ensures Evaluate(c, services, regionName) == Err(ReferenceError)
  {
  }

  /** With a dotted service name and no top-level `service` field, the fqn
      looked for is undefined, which only a service without an fqn equals;
      once every service has one, the condition is false. */
  lemma DottedEqIsFalse(c: Cond, services: seq<Service.Service>, regionName: string)
    requires c.kind.Eq? && '.' in c.kind.check.service && c.kind.check.ownService.None?
    requires forall j :: 0 <= j < |services| ==> services[j].fqn.Some?
    ensures Evaluate(c, services, regionName) == Ok(Some(false))
    ensures Validate(c, services, regionName) == Fail(Code(10434))
  {
  }

  /** `validate` passes exactly when `evaluate` would find its service. */
  lemma ValidateMatchesLookup(c: Cond, services: seq<Service.Service>, regionName: string)
    requires c.kind.Eq?
    ensures Validate(c, services, regionName).Pass? <==>
              exists i :: 0 <= i < |services| && services[i].fqn == EqFqn(c.kind.check, regionName)
    ensures Validate(c, services, regionName).Fail? ==> Evaluate(c, services, regionName) == Ok(Some(false))
  {
    if Service.FindFqn(services, EqFqn(c.kind.check, regionName)).None? {
      assert forall i :: 0 <= i < |services| ==> services[i].fqn != EqFqn(c.kind.check, regionName);
    }
  }

  /** The `all`, `any` and `formula` evaluators return nothing. */
  lemma StubsReturnNothing(c: Cond, services: seq<Service.Service>, regionName: string)
    requires c.kind.Stub?
    ensures Evaluate(c, services, regionName) == Ok(None)
    ensures Validate(c, services, regionName) == Fail(TypeError)
  {
  }

  /** The registry `validate`: each condition's `validate` in order; the
      first failure escapes. */
  function ValidateAll(conditions: seq<Cond>, services: seq<Service.Service>, regionName: string): Outcome {
    if conditions == [] then Pass
    else
      var o := Validate(conditions[0], services, regionName);
      if o.Fail? then o else ValidateAll(conditions[1..], services, regionName)
  }

  /** The registry validation passes iff every condition is an `eq` whose
      service exists; a single `all`, `any` or `formula` condition makes it
      throw. */
  lemma {:induction false} ValidateAllMeaning(conditions: seq<Cond>, services: seq<Service.Service>, regionName: string)
    ensures ValidateAll(conditions, services, regionName).Pass? <==>
              forall i :: 0 <= i < |conditions| ==> Validate(conditions[i], services, regionName).Pass?
    ensures (exists i :: 0 <= i < |conditions| && conditions[i].kind.Stub?) ==>
              ValidateAll(conditions, services, regionName).Fail?
  {
    if conditions != [] {
      ValidateAllMeaning(conditions[1..], services, regionName);
      assert forall i :: 1 <= i < |conditions| ==> conditions[i] == conditions[1..][i - 1];
    }
  }

  class ConditionRegistry {
    var conditions: seq<Cond>

    constructor()
      ensures conditions == []
    {
      conditions := [];
    }

    /** `new(base)`: validate against the conditions so far and push. */
    method New(base: ConditionConfig) returns (r: Result<Cond>)
      modifies this
      ensures r == NewCondition(old(conditions), base)
      ensures conditions == if r.Ok? then old(conditions) + [r.value] else old(conditions)
    {
      r := NewCondition(conditions, base);
      if r.Ok? {
        conditions := conditions + [r.value];
      }
    }

    /** `validate(context)`: the `forEach` over the conditions. */
    method ValidateConditions(services: seq<Service.Service>, regionName: string) returns (o: Outcome)
      ensures o == ValidateAll(conditions, services, regionName)
    {
      var i := 0;
      while i < |conditions|
        invariant 0 <= i <= |conditions|
        invariant ValidateAll(conditions[i..], services, regionName) == ValidateAll(conditions, services, regionName)
      {
        assert conditions[i..][1..] == conditions[i + 1..];
        var v := Validate(conditions[i], services, regionName);
        if v.Fail? {
          return v;
        }
        i := i + 1;
      }
      return Pass;
    }
  }
}
