/** lib/rule.js: the rule engine. `new` validates a rule and builds its
    action lists; a rule's `evaluate` resolves its formula against the
    conditions and runs its `then` or `else` actions; the manager's
    `evaluate` is one whole pass over the local services; `start` keeps
    one pending evaluation while the instance is master. */
module Rule {
  import opened Wrappers
  import opened JsStrings
  import Service
  import Condition
  import Action
  import Formula

  /** A `then` or `else` node: one action, or an array of them. */
  datatype Branch = One(action: Action.ActionConfig) | Many(actions: seq<Action.ActionConfig>)

  /** A rule as configured (`if` is spelled `formula`). */
  datatype RuleConfig = RuleConfig(
    name: Option<string>,
    formula: Option<string>,
    thenNode: Option<Branch>,
    elseNode: Option<Branch>)

  /** A validated rule; a branch that was not configured is `None`. */
  datatype Rule = Rule(
    name: string,
    formula: string,
    thenActions: Option<seq<Action.Act>>,
    elseActions: Option<seq<Action.Act>>)

  // ---------------------------------------------------------------------
  // new (rule.js:46-134)

  predicate NameTaken(rules: seq<Rule>, name: string) {
    exists i :: 0 <= i < |rules| && rules[i].name == name
  }

  /** `action_manager.new` on every element of an array, in order; the
      first that throws ends it. */
  function NewActions(cs: seq<Action.ActionConfig>): (r: Result<seq<Action.Act>>)
    ensures r.Ok? <==> forall i :: 0 <= i < |cs| ==> Action.New(cs[i]).Ok?
    ensures r.Ok? ==> |r.value| == |cs| && forall i :: 0 <= i < |cs| ==> r.value[i] == Action.New(cs[i]).value
    ensures r.Err? ==> exists k :: 0 <= k < |cs| && Action.New(cs[k]).Err? &&
                                   r.error == Action.New(cs[k]).error && forall i :: 0 <= i < k ==> Action.New(cs[i]).Ok?
  {
    if cs == [] then Ok([])
    else
      var a :- Action.New(cs[0]);
      var rest :- NewActions(cs[1..]);
      assert forall i :: 1 <= i < |cs| ==> cs[1..][i - 1] == cs[i];
      Ok([a] + rest)
  }

  /** A branch as a list: a single action becomes a list of one. */
  function NewBranch(b: Option<Branch>): Result<Option<seq<Action.Act>>> {
    match b
    case None => Ok(None)
    case Some(One(c)) => var a :- Action.New(c); Ok(Some([a]))
    case Some(Many(cs)) => var l :- NewActions(cs); Ok(Some(l))
  }

  /** `new(base)` against the rules so far. */
  function NewRule(existing: seq<Rule>, base: RuleConfig): Result<Rule> {
    if base.name.None? then Err(Code(10511))
    else if NameTaken(existing, base.name.value) then Err(Code(10512))
    else if '.' in base.name.value then Err(Code(10513))
    else if base.formula.None? then Err(Code(10521))
    else if base.thenNode.None? && base.elseNode.None? then Err(Code(10531))
    else
      var t :- NewBranch(base.thenNode);
      var e :- NewBranch(base.elseNode);
      Ok(Rule(base.name.value, base.formula.value, t, e))
  }

  /** The checks of `new`, in their order: name (10511), unique (10512), no
      period (10513), an `if` (10521), a `then` or `else` (10531), then
      the actions of `then` and of `else`. */
  lemma NewRuleChecks(existing: seq<Rule>, base: RuleConfig)
    ensures base.name.None? ==> NewRule(existing, base) == Err(Code(10511))
    ensures (base.name.Some? && NameTaken(existing, base.name.value)) ==> NewRule(existing, base) == Err(Code(10512))
    ensures (base.name.Some? && !NameTaken(existing, base.name.value) && '.' in base.name.value) ==>
              NewRule(existing, base) == Err(Code(10513))
    ensures (base.name.Some? && !NameTaken(existing, base.name.value) && '.' !in base.name.value &&
             base.formula.None?) ==> NewRule(existing, base) == Err(Code(10521))
    ensures (base.name.Some? && !NameTaken(existing, base.name.value) && '.' !in base.name.value &&
             base.formula.Some? && base.thenNode.None? && base.elseNode.None?) ==>
              NewRule(existing, base) == Err(Code(10531))
    ensures (base.name.Some? && !NameTaken(existing, base.name.value) && '.' !in base.name.value &&
             base.formula.Some? && (base.thenNode.Some? || base.elseNode.Some?)) ==>
              (NewBranch(base.thenNode).Err? ==> NewRule(existing, base) == Err(NewBranch(base.thenNode).error)) &&
              (NewBranch(base.thenNode).Ok? && NewBranch(base.elseNode).Err? ==>
                 NewRule(existing, base) == Err(NewBranch(base.elseNode).error))
    ensures NewRule(existing, base).Ok? <==>
              base.name.Some? && !NameTaken(existing, base.name.value) && '.' !in base.name.value &&
              base.formula.Some? && (base.thenNode.Some? || base.elseNode.Some?) &&
              NewBranch(base.thenNode).Ok? && NewBranch(base.elseNode).Ok?
    ensures NewRule(existing, base).Ok? ==>
              var r := NewRule(existing, base).value;
              r.name == base.name.value && !NameTaken(existing, r.name) && r.formula == base.formula.value &&
              (r.thenActions.Some? <==> base.thenNode.Some?) && (r.elseActions.Some? <==> base.elseNode.Some?)
  {
  }

  /** A single action becomes a list of one; an array keeps its order. */
  lemma BranchLists(b: Branch)
    ensures b.One? && Action.New(b.action).Ok? ==> NewBranch(Some(b)) == Ok(Some([Action.New(b.action).value]))
    ensures b.Many? && NewBranch(Some(b)).Ok? ==>
              var l := NewBranch(Some(b)).value.value;
              |l| == |b.actions| && forall i :: 0 <= i < |l| ==> l[i] == Action.New(b.actions[i]).value
  {
  }

  // ---------------------------------------------------------------------
  // resolving a formula (rule.js:96-107)

  /** The `forEach` over the conditions from a given formula on: a
      condition whose name occurs (case-sensitively) is evaluated, and
      every occurrence of its name, in any case, becomes `true` when the
      evaluation is exactly true and `false` otherwise. Evaluation errors
      are not caught here. */
  function ResolveFrom(formula: string, conditions: seq<Condition.Cond>, services: seq<Service.Service>,
                       regionName: string): Result<string>
    decreases |conditions|
  {
    if conditions == [] then Ok(formula)
    else
      var c := conditions[0];
      if IndexOf(formula, c.name) > -1 then
        var v :- Condition.Evaluate(c, services, regionName);
        ResolveFrom(ReplaceAll(formula, c.name, if v == Some(true) then "true" else "false"),
                    conditions[1..], services, regionName)
      else ResolveFrom(formula, conditions[1..], services, regionName)
  }

  /** The resolved formula: conditions substituted, then ` AND ` and ` OR `
      (in any case) turned into ` && ` and ` || `. */
  function Resolve(formula: string, conditions: seq<Condition.Cond>, services: seq<Service.Service>,
                   regionName: string): Result<string>
  {
    var f :- ResolveFrom(formula, conditions, services, regionName);
    Ok(ReplaceAll(ReplaceAll(f, " AND ", " && "), " OR ", " || "))
  }

  /** The formula rewritten step by step, as in the source. */
  method ResolveFormula(formula: string, conditions: seq<Condition.Cond>, services: seq<Service.Service>,
                        regionName: string) returns (r: Result<string>)
    ensures r == Resolve(formula, conditions, services, regionName)
  {
    var f := formula;
    var i := 0;
    while i < |conditions|
      invariant 0 <= i <= |conditions|
      invariant ResolveFrom(f, conditions[i..], services, regionName) ==
                ResolveFrom(formula, conditions, services, regionName)
    {
      assert conditions[i..][1..] == conditions[i + 1..];
      var c := conditions[i];
      if IndexOf(f, c.name) > -1 {
        var v := Condition.Evaluate(c, services, regionName);
        if v.Err? {
          return Err(v.error);
        }
        if v.value == Some(true) {
          f := ReplaceAll(f, c.name, "true");
        } else {
          f := ReplaceAll(f, c.name, "false");
        }
      }
      i := i + 1;
    }
    f := ReplaceAll(f, " AND ", " && ");
    f := ReplaceAll(f, " OR ", " || ");
    return Ok(f);
  }

  /** A formula that names a single condition resolves to `true` exactly
      when that condition evaluates to true, and to `false` when it
      evaluates to false or to nothing. */
  lemma ResolveSingleCondition(c: Condition.Cond, services: seq<Service.Service>, regionName: string)
    requires c.name != []
    requires Condition.Evaluate(c, services, regionName).Ok?
    ensures Resolve(c.name, [c], services, regionName) ==
              Ok(if Condition.Evaluate(c, services, regionName) == Ok(Some(true)) then "true" else "false")
  {
    assert OccursAt(c.name, c.name, 0) by {
      assert c.name[0..|c.name|] == c.name;
    }
    var v := Condition.Evaluate(c, services, regionName).value;
    var word := if v == Some(true) then "true" else "false";
    assert OccursAtIgnoringCase(c.name, c.name, 0) by {
      assert c.name[0..|c.name|] == c.name;
    }
    ReplaceAllAtFront(c.name, c.name, word);
    assert c.name[|c.name|..] == [];
    assert ReplaceAll(c.name, c.name, word) == word;
    assert [c][1..] == [];
    assert ResolveFrom(c.name, [c], services, regionName) == Ok(word);
    assert ReplaceAll(word, " AND ", " && ") == word;
    WordKept(word);
  }

  lemma WordKept(word: string)
    requires word == "true" || word == "false"
    ensures ReplaceAll(word, " OR ", " || ") == word
  {
    var find := " OR ";
    forall i: nat | i < |word| ensures !OccursAtIgnoringCase(word, find, i) {
      if i + |find| <= |word| {
        assert word[i..i + |find|][0] == word[i];
        assert ToLower(word[i..i + |find|])[0] != ToLower(find)[0];
      }
    }
    ReplaceAllAbsent(word, find, " || ");
  }

  /** A condition that throws while its name occurs in the formula makes
      the resolution throw the same error: it is not turned into 10541. */
  lemma ResolveErrorEscapes(formula: string, c: Condition.Cond, rest: seq<Condition.Cond>,
                            services: seq<Service.Service>, regionName: string)
    requires IndexOf(formula, c.name) > -1
    requires Condition.Evaluate(c, services, regionName).Err?
    ensures Resolve(formula, [c] + rest, services, regionName) == Err(Condition.Evaluate(c, services, regionName).error)
  {
    assert ([c] + rest)[0] == c;
  }

  /** A condition whose name does not occur is not evaluated, so one that
      would throw does no harm. */
  lemma ResolveSkipsAbsentNames(formula: string, c: Condition.Cond, rest: seq<Condition.Cond>,
                                services: seq<Service.Service>, regionName: string)
    requires IndexOf(formula, c.name) == -1
    ensures ResolveFrom(formula, [c] + rest, services, regionName) == ResolveFrom(formula, rest, services, regionName)
  {
    assert ([c] + rest)[0] == c && ([c] + rest)[1..] == rest;
  }

  // ---------------------------------------------------------------------
  // a rule's evaluate (rule.js:93-130)

  /** The actions of one branch, in order, on the service list: the first
      that throws stops the rest, and the changes of those before it
      stay. */
  function RunActions(services: seq<Service.Service>, acts: seq<Action.Act>): (seq<Service.Service>, Outcome)
    decreases |acts|
  {
    if acts == [] then (services, Pass)
    else
      match Action.Execute(services, acts[0])
      case Err(e) => (services, Fail(e))
      case Ok(after) => RunActions(after, acts[1..])
  }

  /** The branch a formula value selects: `then` when exactly true, `else`
      for false and undefined alike. */
  function Chosen(rule: Rule, value: Option<bool>): Option<seq<Action.Act>> {
    if value == Some(true) then rule.thenActions else rule.elseActions
  }

  /** `rule.evaluate(context)`. Resolving runs outside the `try`, so a
      condition's error escapes as it is; a formula that `eval` rejects,
      and an action that throws, become 10541. */
  function RunRule(rule: Rule, conditions: seq<Condition.Cond>, services: seq<Service.Service>, regionName: string)
    : (seq<Service.Service>, Outcome)
  {
    match Resolve(rule.formula, conditions, services, regionName)
    case Err(e) => (services, Fail(e))
    case Ok(f) =>
      match Formula.Eval(f)
      case Err(_) => (services, Fail(Code(10541)))
      case Ok(v) =>
        var branch := Chosen(rule, v);
        if branch.None? then (services, Pass)
        else
          var (after, o) := RunActions(services, branch.value);
          (after, if o.Fail? then Fail(Code(10541)) else Pass)
  }

  /** The rule's `evaluate` on the registry: the resolved formula is
      evaluated and the branch's actions change the services in place. */
  method EvaluateRule(reg: Service.ServiceRegistry, rule: Rule, conditions: seq<Condition.Cond>, regionName: string)
    returns (o: Outcome)
    modifies reg
    ensures (reg.services, o) == RunRule(rule, conditions, old(reg.services), regionName)
    ensures reg.handlers == old(reg.handlers)
  {
    var f := ResolveFormula(rule.formula, conditions, reg.services, regionName);
    if f.Err? {
      return Fail(f.error);
    }
    var value := Formula.Eval(f.value);
    if value.Err? {
      return Fail(Code(10541));
    }
    var branch := Chosen(rule, value.value);
    if branch.None? {
      return Pass;
    }
    var acts := branch.value;
    var i := 0;
    while i < |acts|
      invariant 0 <= i <= |acts|
      invariant reg.handlers == old(reg.handlers)
      invariant RunActions(reg.services, acts[i..]) == RunActions(old(reg.services), acts)
    {
      assert acts[i..][1..] == acts[i + 1..];
      var step := Action.ExecuteOn(reg, acts[i]);
      if step.Fail? {
        return Fail(Code(10541));
      }
      i := i + 1;
    }
    return Pass;
  }

  /** Actions keep the list's shape and never change a remote service. */
  lemma {:induction false} RunActionsTouchesOnlyLocal(services: seq<Service.Service>, acts: seq<Action.Act>)
    ensures var after := RunActions(services, acts).0;
            |after| == |services| &&
            forall j :: 0 <= j < |services| ==>
              after[j].name == services[j].name && after[j].isLocal == services[j].isLocal &&
              after[j].fqn == services[j].fqn && after[j].polled == services[j].polled &&
              (!services[j].isLocal ==> after[j] == services[j])
    decreases |acts|
  {
    if acts != [] {
      Action.ExecuteTouchesOnlyLocal(services, acts[0]);
      if Action.Execute(services, acts[0]).Ok? {
        RunActionsTouchesOnlyLocal(Action.Execute(services, acts[0]).value, acts[1..]);
      }
    }
  }

  /** A rule whose resolved formula is the printed form of an expression
      runs `then` exactly when the expression is true, and never fails
      with 10541 unless an action throws. */
  lemma RunRuleFollowsValue(rule: Rule, conditions: seq<Condition.Cond>, services: seq<Service.Service>,
                            regionName: string, e: Formula.Expr)
    requires Resolve(rule.formula, conditions, services, regionName) == Ok(Formula.Show(Formula.Render(e)))
    ensures var branch := if Formula.Value(e) then rule.thenActions else rule.elseActions;
            RunRule(rule, conditions, services, regionName) ==
              if branch.None? then (services, Pass)
              else (RunActions(services, branch.value).0,
                    if RunActions(services, branch.value).1.Fail? then Fail(Code(10541)) else Pass)
  {
    Formula.EvalShowRender(e);
  }

  /** A formula `eval` rejects fails the rule with 10541 and changes
      nothing. */
  lemma BadFormulaFails(rule: Rule, conditions: seq<Condition.Cond>, services: seq<Service.Service>, regionName: string)
    requires Resolve(rule.formula, conditions, services, regionName).Ok?
    requires Formula.Eval(Resolve(rule.formula, conditions, services, regionName).value).Err?
    ensures RunRule(rule, conditions, services, regionName) == (services, Fail(Code(10541)))
  {
  }

  // ---------------------------------------------------------------------
  // the pass (rule.js:162-189)

  /** Before the rules: a local service inherits its report again and its
      working state starts from `polled`. */
  function SeedOne(s: Service.Service): Service.Service {
    if s.isLocal then s.(reportInherits := true, state := s.polled) else s
  }

  /** After the rules: a local service still inheriting reports its state. */
  function CopyOne(s: Service.Service): Service.Service {
    if s.isLocal && s.reportInherits then s.(report := s.state) else s
  }

  /** The seeding loop of `evaluate` (rule.js:165-170), in place. */
  method SeedServices(reg: Service.ServiceRegistry)
    modifies reg
    ensures reg.services == Seed(old(reg.services))
    ensures reg.handlers == old(reg.handlers)
  {
    var i := 0;
    while i < |reg.services|
      invariant 0 <= i <= |reg.services| == |old(reg.services)|
      invariant reg.handlers == old(reg.handlers)
      invariant forall j :: 0 <= j < i ==> reg.services[j] == SeedOne(old(reg.services)[j])
      invariant forall j :: i <= j < |reg.services| ==> reg.services[j] == old(reg.services)[j]
    {
      var s := reg.services[i];
      if s.isLocal {
        s := s.(reportInherits := true);
        s := s.(state := s.polled);
      }
      reg.services := reg.services[i := s];
      i := i + 1;
    }
  }

  /** The report copy of `evaluate` (rule.js:178-182), in place. */
  method CopyServiceReports(reg: Service.ServiceRegistry)
    modifies reg
    ensures reg.services == CopyReports(old(reg.services))
    ensures reg.handlers == old(reg.handlers)
  {
    var i := 0;
    while i < |reg.services|
      invariant 0 <= i <= |reg.services| == |old(reg.services)|
      invariant reg.handlers == old(reg.handlers)
      invariant forall j :: 0 <= j < i ==> reg.services[j] == CopyOne(old(reg.services)[j])
      invariant forall j :: i <= j < |reg.services| ==> reg.services[j] == old(reg.services)[j]
    {
      var s := reg.services[i];
      if s.isLocal && s.reportInherits {
        s := s.(report := s.state);
      }
      reg.services := reg.services[i := s];
      i := i + 1;
    }
  }

  function Seed(services: seq<Service.Service>): (r: seq<Service.Service>)
    ensures |r| == |services|
    ensures forall i :: 0 <= i < |r| ==>
              (services[i].isLocal ==> r[i].reportInherits && r[i].state == services[i].polled) &&
              (!services[i].isLocal ==> r[i] == services[i]) &&
              r[i].(reportInherits := services[i].reportInherits, state := services[i].state) == services[i]
    ensures forall i :: 0 <= i < |r| ==> r[i] == SeedOne(services[i])
  {
    seq(|services|, i requires 0 <= i < |services| => SeedOne(services[i]))
  }

  function CopyReports(services: seq<Service.Service>): (r: seq<Service.Service>)
    ensures |r| == |services|
    ensures forall i :: 0 <= i < |r| ==>
              (services[i].isLocal && services[i].reportInherits ==> r[i].report == services[i].state) &&
              (!(services[i].isLocal && services[i].reportInherits) ==> r[i] == services[i]) &&
              r[i].(report := services[i].report) == services[i]
    ensures forall i :: 0 <= i < |r| ==> r[i] == CopyOne(services[i])
  {
    seq(|services|, i requires 0 <= i < |services| => CopyOne(services[i]))
  }

  /** The rules in order; the first that throws escapes the pass. */
  function RunRules(services: seq<Service.Service>, rules: seq<Rule>, conditions: seq<Condition.Cond>,
                    regionName: string): (seq<Service.Service>, Outcome)
    decreases |rules|
  {
    if rules == [] then (services, Pass)
    else
      var (after, o) := RunRule(rules[0], conditions, services, regionName);
      if o.Fail? then (after, o) else RunRules(after, rules[1..], conditions, regionName)
  }

  /** The manager's `evaluate(context)`: seed, run the rules, copy the
      reports. A rule that throws ends the pass before the copy. */
  function EvaluatePass(services: seq<Service.Service>, rules: seq<Rule>, conditions: seq<Condition.Cond>,
                regionName: string): (seq<Service.Service>, Outcome)
  {
    var (after, o) := RunRules(Seed(services), rules, conditions, regionName);
    if o.Fail? then (after, o) else (CopyReports(after), Pass)
  }

  lemma {:induction false} RunRulesTouchesOnlyLocal(services: seq<Service.Service>, rules: seq<Rule>,
                                                    conditions: seq<Condition.Cond>, regionName: string)
    ensures var after := RunRules(services, rules, conditions, regionName).0;
            |after| == |services| &&
            forall j :: 0 <= j < |services| ==>
              after[j].name == services[j].name && after[j].isLocal == services[j].isLocal &&
              after[j].polled == services[j].polled &&
              (!services[j].isLocal ==> after[j] == services[j])
    decreases |rules|
  {
    if rules != [] {
      var step := RunRule(rules[0], conditions, services, regionName);
      RunRuleTouchesOnlyLocal(rules[0], conditions, services, regionName);
      if step.1.Pass? {
        RunRulesTouchesOnlyLocal(step.0, rules[1..], conditions, regionName);
      }
    }
  }

  lemma RunRuleTouchesOnlyLocal(rule: Rule, conditions: seq<Condition.Cond>, services: seq<Service.Service>,
                                regionName: string)
    ensures var after := RunRule(rule, conditions, services, regionName).0;
            |after| == |services| &&
            forall j :: 0 <= j < |services| ==>
              after[j].name == services[j].name && after[j].isLocal == services[j].isLocal &&
              after[j].polled == services[j].polled &&
              (!services[j].isLocal ==> after[j] == services[j])
  {
    var r := Resolve(rule.formula, conditions, services, regionName);
    if r.Ok? && Formula.Eval(r.value).Ok? {
      var branch := Chosen(rule, Formula.Eval(r.value).value);
      if branch.Some? {
        RunActionsTouchesOnlyLocal(services, branch.value);
      }
    }
  }

  /** A pass never changes a remote service or any service's name,
      locality or `polled`; when it completes, every local service either
      stopped inheriting during the pass or reports its state. */
  lemma PassEffect(services: seq<Service.Service>, rules: seq<Rule>, conditions: seq<Condition.Cond>, regionName: string)
    ensures var (after, o) := EvaluatePass(services, rules, conditions, regionName);
            |after| == |services| &&
            (forall j :: 0 <= j < |services| ==>
               after[j].name == services[j].name && after[j].isLocal == services[j].isLocal &&
               after[j].polled == services[j].polled &&
               (!services[j].isLocal ==> after[j] == services[j])) &&
            (o.Pass? ==> forall j :: 0 <= j < |after| && after[j].isLocal && after[j].reportInherits ==>
                           after[j].report == after[j].state)
  {
    RunRulesTouchesOnlyLocal(Seed(services), rules, conditions, regionName);
  }

  /** With no rules, every local service ends inheriting, with `state` and
      `report` both equal to `polled`; nothing else changes. */
  lemma PassWithoutRules(services: seq<Service.Service>, conditions: seq<Condition.Cond>, regionName: string)
    ensures var (after, o) := EvaluatePass(services, [], conditions, regionName);
            o == Pass && |after| == |services| &&
            forall j :: 0 <= j < |services| ==>
              after[j] == (if services[j].isLocal
                           then services[j].(reportInherits := true, state := services[j].polled, report := services[j].polled)
                           else services[j])
  {
  }

  /** A first rule that fails stops the pass: the later rules do not run
      and no report is copied, so the services are as that rule left the
      seeded list. */
  lemma PassStopsAtFailure(services: seq<Service.Service>, rules: seq<Rule>, conditions: seq<Condition.Cond>,
                           regionName: string)
    requires rules != []
    requires RunRule(rules[0], conditions, Seed(services), regionName).1.Fail?
    ensures EvaluatePass(services, rules, conditions, regionName) == RunRule(rules[0], conditions, Seed(services), regionName)
  {
  }

  // ---------------------------------------------------------------------
  // the manager

  class RuleManager {
    var rules: seq<Rule>
    /** `next`: an evaluation is scheduled. */
    var pending: bool

    constructor()
      ensures rules == [] && !pending
    {
      rules := [];
      pending := false;
    }

    /** `new(base)`: validate against the rules so far and push. */
    method New(base: RuleConfig) returns (r: Result<Rule>)
      modifies this
      ensures r == NewRule(old(rules), base)
      ensures rules == if r.Ok? then old(rules) + [r.value] else old(rules)
      ensures pending == old(pending)
    {
      r := NewRule(rules, base);
      if r.Ok? {
        rules := rules + [r.value];
      }
    }

    /** The `change` listener of `start`: on the master, any scheduled
        evaluation is cancelled and one is scheduled in its place, so a
        burst of changes leaves exactly one; on a slave nothing happens. */
    method Change(isMaster: bool)
      modifies this
      ensures pending == (old(pending) || isMaster)
      ensures rules == old(rules)
    {
      if isMaster {
        pending := true;
      }
    }

    /** The scheduled evaluation runs: the timer is cleared and a pass
        made. */
    method Fire(reg: Service.ServiceRegistry, conditions: seq<Condition.Cond>, regionName: string) returns (o: Outcome)
      requires pending
      modifies this, reg
      ensures !pending && rules == old(rules)
      ensures (reg.services, o) == EvaluatePass(old(reg.services), rules, conditions, regionName)
      ensures reg.handlers == old(reg.handlers)
    {
      pending := false;
      o := Evaluate(reg, conditions, regionName);
    }

    /** `evaluate(context)` on the registry. */
    method Evaluate(reg: Service.ServiceRegistry, conditions: seq<Condition.Cond>, regionName: string) returns (o: Outcome)
      modifies reg
      ensures (reg.services, o) == EvaluatePass(old(reg.services), rules, conditions, regionName)
      ensures reg.handlers == old(reg.handlers)
    {
      SeedServices(reg);
      var k := 0;
      while k < |rules|
        invariant 0 <= k <= |rules|
        invariant reg.handlers == old(reg.handlers)
        invariant RunRules(reg.services, rules[k..], conditions, regionName) ==
                  RunRules(Seed(old(reg.services)), rules, conditions, regionName)
      {
        assert rules[k..][1..] == rules[k + 1..];
        o := EvaluateRule(reg, rules[k], conditions, regionName);
        if o.Fail? {
          return;
        }
        k := k + 1;
      }
      CopyServiceReports(reg);
      return Pass;
    }
  }
}
