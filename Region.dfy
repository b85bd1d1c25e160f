/** lib/region.js: the regions of the fleet. `new` classifies a region,
    gives it its defaults and checks the fields a region of its kind may
    not have; `validate` requires exactly one local region and records
    it. */
module Region {
  import opened Wrappers
  import opened JsValues
  import Query
  import Instance

  /** A region as configured. A region with a `query` node is remote. */
  datatype RegionConfig = RegionConfig(
    name: Option<string>,
    query: Option<Query.QueryConfig>,
    priority: Option<Scalar>,
    defaultPoll: Option<Scalar>,
    processAfterIdle: Option<Scalar>,
    poll: Option<Scalar>,
    instances: Option<seq<Instance.InstanceConfig>>)

  /** A region after `new`. `poll` is the remote polling interval. */
  datatype Region = Region(
    name: string,
    isRemote: bool,
    isLocal: bool,
    priority: ParsedInt,
    defaultPoll: ParsedInt,
    processAfterIdle: ParsedInt,
    poll: Option<ParsedInt>,
    instances: seq<Instance.Instance>)

  predicate NameTaken(regions: seq<Region>, name: string) {
    exists i :: 0 <= i < |regions| && regions[i].name == name
  }

  /** `instance_manager.new(instance, region)` on each configured
      instance, in order; `region` stands for the names the uniqueness
      check sees. region.js:118 passes no region at all. */
  function NewInstances(cs: seq<Instance.InstanceConfig>, region: Option<seq<string>>, now: int,
                        settings: Instance.Settings): (r: Result<seq<Instance.Instance>>)
    ensures r.Ok? ==> |r.value| == |cs|
  {
    if cs == [] then Ok([])
    else
      var head :- Instance.New(cs[0], region, now, settings);
      var tail :- NewInstances(cs[1..], region, now, settings);
      Ok([head] + tail)
  }

  /** An integer field: its `parseInt` reading, or the default. The test
      that the reading is a number compares with `NaN` by identity, which
      never fails, so a NaN is stored. */
  function IntField(v: Option<Scalar>, default: int): ParsedInt {
    if v.None? then Int(default) else ParseInt(v.value)
  }

  /** `new(base)` against the regions so far, at time `now`. Locality is
      read from the manager rather than from the region, so every region
      is local, and a region with a query is remote as well. */
  function NewRegion(existing: seq<Region>, base: RegionConfig, now: int, settings: Instance.Settings)
    : Result<Region>
  {
    var isRemote := base.query.Some?;
    if base.name.None? then Err(Code(10311))
    else if NameTaken(existing, base.name.value) then Err(Code(10312))
    else if '.' in base.name.value then Err(Code(10313))
    else
      var priority := IntField(base.priority, 0);
      var defaultPoll := IntField(base.defaultPoll, 30000);
      var processAfterIdle := IntField(base.processAfterIdle, 5000);
      if base.poll.Some? && ScalarTruthy(base.poll.value) then Err(Code(10351))
      else
        var instances :- if base.instances.None? then Ok([]) else NewInstances(base.instances.value, None, now, settings);
        if !isRemote then
          Ok(Region(base.name.value, false, true, priority, defaultPoll, processAfterIdle, None, instances))
        else if ParsedTruthy(priority) then Err(Code(10322))
        else if ParsedTruthy(defaultPoll) then Err(Code(10332))
        else if ParsedTruthy(processAfterIdle) then Err(Code(10342))
        else
          Ok(Region(base.name.value, true, true, priority, defaultPoll, processAfterIdle,
                    Some(IntField(base.poll, 5000)), instances))
  }

  /** The name checks, in order. */
  lemma NewRegionNameChecks(existing: seq<Region>, base: RegionConfig, now: int, settings: Instance.Settings)
    ensures base.name.None? ==> NewRegion(existing, base, now, settings) == Err(Code(10311))
    ensures (base.name.Some? && NameTaken(existing, base.name.value)) ==>
              NewRegion(existing, base, now, settings) == Err(Code(10312))
    ensures (base.name.Some? && !NameTaken(existing, base.name.value) && '.' in base.name.value) ==>
              NewRegion(existing, base, now, settings) == Err(Code(10313))
    ensures NewRegion(existing, base, now, settings).Ok? ==>
              var r := NewRegion(existing, base, now, settings).value;
              r.name == base.name.value && !NameTaken(existing, r.name) && '.' !in r.name
  {
  }

  /** Every region that `new` accepts is local, has no instances, and is
      remote exactly when it has a query. */
  lemma EveryRegionIsLocal(existing: seq<Region>, base: RegionConfig, now: int, settings: Instance.Settings)
    ensures NewRegion(existing, base, now, settings).Ok? ==>
              var r := NewRegion(existing, base, now, settings).value;
              r.isLocal && r.instances == [] && (r.isRemote <==> base.query.Some?)
  {
    if base.instances.Some? && base.instances.value != [] {
      InstancesAlwaysFail(base.instances.value, now, settings);
    }
  }

  /** Every configured instance is refused, because the region is not
      passed: one without a name with 10711, any other on reading the
      region's instances. */
  lemma InstancesAlwaysFail(cs: seq<Instance.InstanceConfig>, now: int, settings: Instance.Settings)
    requires cs != []
    ensures NewInstances(cs, None, now, settings) ==
              Err(if cs[0].name.None? then Code(10711) else TypeError)
  {
  }

  /** A local region's defaults: priority 0, `default-poll` 30000 and
      `process-after-idle` 5000; a truthy `poll` is refused with 10351. */
  lemma LocalDefaults(existing: seq<Region>, base: RegionConfig, now: int, settings: Instance.Settings)
    requires base.query.None?
    ensures (base.name.Some? && !NameTaken(existing, base.name.value) && '.' !in base.name.value &&
             base.poll.Some? && ScalarTruthy(base.poll.value)) ==>
              NewRegion(existing, base, now, settings) == Err(Code(10351))
    ensures NewRegion(existing, base, now, settings).Ok? ==>
              var r := NewRegion(existing, base, now, settings).value;
              !r.isRemote && r.poll.None? &&
              (base.priority.None? ==> r.priority == Int(0)) &&
              (base.defaultPoll.None? ==> r.defaultPoll == Int(30000)) &&
              (base.processAfterIdle.None? ==> r.processAfterIdle == Int(5000)) &&
              (base.priority.Some? ==> r.priority == ParseInt(base.priority.value))
  {
  }

  /** A remote region may not have a truthy priority (10322),
      `default-poll` (10332) or `process-after-idle` (10342); since the
      local defaults are applied first, 30000 and 5000 are truthy, and a
      region with a query fails with 10332 unless it sets `default-poll`
      to something that reads as 0 or NaN. Its `poll` defaults to 5000. */
  lemma RemoteChecks(existing: seq<Region>, base: RegionConfig, now: int, settings: Instance.Settings)
    requires base.query.Some?
    requires base.name.Some? && !NameTaken(existing, base.name.value) && '.' !in base.name.value
    requires base.poll.None? || !ScalarTruthy(base.poll.value)
    requires base.instances.None? || base.instances.value == []
    ensures ParsedTruthy(IntField(base.priority, 0)) ==> NewRegion(existing, base, now, settings) == Err(Code(10322))
    ensures (!ParsedTruthy(IntField(base.priority, 0)) && base.defaultPoll.None?) ==>
              NewRegion(existing, base, now, settings) == Err(Code(10332))
    ensures NewRegion(existing, base, now, settings).Ok? <==>
              !ParsedTruthy(IntField(base.priority, 0)) && base.defaultPoll.Some? &&
              !ParsedTruthy(ParseInt(base.defaultPoll.value)) && base.processAfterIdle.Some? &&
              !ParsedTruthy(ParseInt(base.processAfterIdle.value))
    ensures NewRegion(existing, base, now, settings).Ok? ==>
              NewRegion(existing, base, now, settings).value.poll == Some(IntField(base.poll, 5000))
    ensures base.poll.None? && NewRegion(existing, base, now, settings).Ok? ==>
              NewRegion(existing, base, now, settings).value.poll == Some(Int(5000))
  {
  }

  // ---------------------------------------------------------------------
  // validate (region.js:168-183)

  /** The number of local regions. */
  function LocalCount(regions: seq<Region>): nat {
    if regions == [] then 0
    else LocalCount(regions[..|regions| - 1]) + (if regions[|regions| - 1].isLocal then 1 else 0)
  }

  /** The last local region, which the loop leaves in `local`. */
  function LastLocal(regions: seq<Region>): (r: Option<nat>)
    ensures r.Some? ==> r.value < |regions| && regions[r.value].isLocal
  {
    if regions == [] then None
    else if regions[|regions| - 1].isLocal then Some(|regions| - 1)
    else LastLocal(regions[..|regions| - 1])
  }

  /** With exactly one local region, `local` is that one region and every
      other region is not local; with none, nothing is recorded. */
  lemma {:induction false} OneLocal(regions: seq<Region>)
    ensures LocalCount(regions) == 0 <==> LastLocal(regions).None?
    ensures LocalCount(regions) == 0 ==> forall j :: 0 <= j < |regions| ==> !regions[j].isLocal
    ensures LocalCount(regions) == 1 ==>
              LastLocal(regions).Some? &&
              forall j :: 0 <= j < |regions| && j != LastLocal(regions).value ==> !regions[j].isLocal
  {
    if regions != [] {
      var init := regions[..|regions| - 1];
      OneLocal(init);
      assert forall j :: 0 <= j < |init| ==> init[j] == regions[j];
    }
  }

  /** When every region is local (as `new` makes them), `validate`
      passes exactly when there is one region. */
  lemma {:induction false} AllLocalCount(regions: seq<Region>)
    requires forall j :: 0 <= j < |regions| ==> regions[j].isLocal
    ensures LocalCount(regions) == |regions|
  {
    if regions != [] {
      var init := regions[..|regions| - 1];
      assert forall j :: 0 <= j < |init| ==> init[j] == regions[j];
      AllLocalCount(init);
    }
  }

  class RegionRegistry {
    var regions: seq<Region>
    /** `local`: the index of the region `validate` recorded. */
    var local: Option<nat>

    constructor()
      ensures regions == [] && local.None?
    {
      regions := [];
      local := None;
    }

    /** `new(base)`: validate against the regions so far and push. */
    method New(base: RegionConfig, now: int, settings: Instance.Settings) returns (r: Result<Region>)
      modifies this
      ensures r == NewRegion(old(regions), base, now, settings)
      ensures regions == if r.Ok? then old(regions) + [r.value] else old(regions)
      ensures local == old(local)
    {
      r := NewRegion(regions, base, now, settings);
      if r.Ok? {
        regions := regions + [r.value];
      }
    }

    /** `validate()`: count the local regions, recording each in `local` as
        it is met; anything but one fails with 10362. */
    method Validate() returns (o: Outcome)
      modifies this
      ensures regions == old(regions)
      ensures o == if LocalCount(regions) == 1 then Pass else Fail(Code(10362))
      ensures local == if LastLocal(regions).Some? then LastLocal(regions) else old(local)
    {
      var count := 0;
      var i := 0;
      while i < |regions|
        invariant 0 <= i <= |regions|
        invariant regions == old(regions)
        invariant count == LocalCount(regions[..i])
        invariant local == if LastLocal(regions[..i]).Some? then LastLocal(regions[..i]) else old(local)
      {
        assert regions[..i + 1][..i] == regions[..i];
        if regions[i].isLocal {
          local := Some(i);
          count := count + 1;
        }
        i := i + 1;
      }
      assert regions[..|regions|] == regions;
      if count != 1 {
        return Fail(Code(10362));
      }
      return Pass;
    }
  }
}
