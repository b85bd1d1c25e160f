# Multi-Service-Availability: validation and rule engine

A Dafny model of the configuration validation and rule evaluation at the
core of Multi-Service-Availability. This is a Node.js service that probes
the services of a region, shares their state with other regions and
instances, and evaluates rules. The rules update each service's state and
report, and a load balancer reads the report.

The model follows the code as written, including its defects, and proves
what each part does:

- **Results** (`lib/result.js`): how result responses and states are
  normalised, and the in and out `isMatch` predicates.
- **Query** (`lib/query.js`): method and uri validation, and the first-match
  settlement of a probe's promise.
- **Service** (`lib/service.js`): service validation and defaults, fqn
  naming, the fact handler for remote services, and the poll handler.
  `ServiceRegistry` is a class whose methods update its services in place.
- **Condition**, **Action**, **Rule** (`lib/condition.js`, `lib/action.js`,
  `lib/rule.js`): validation, condition evaluation, update actions, formula
  resolution, and a rule pass. A pass seeds every local service, runs the
  rule chain and copies the reports. `Formula` stands for the `eval` of a
  resolved formula: true/false literals, `&&`, `||` and parentheses.
- **Region**, **Instance** (`lib/region.js`, `lib/instance.js`): region
  classification and defaults, the one-local-region check, and instance
  validation with the four queries an instance exposes.
- **Security** (`lib/security.js`): the bearer-token check and the
  one-minute replay cache, as a class whose cache is updated in place.
- **Helpers**, **Endpoints** (`server.js`, `app.js`): `isEqual`,
  `betweenInt`, case-insensitive `replaceAll`, the config-file filters, the
  `/query`, `/elect`, `/report` and `/current` replies, and the lookup of
  the local instance at startup.

Some behaviours of the code as written, each stated by a lemma:

- Every `parseInt(x) !== NaN` check always passes, so NaN values are stored
  (`Service.NonNumericPriorityKept`).
- `region.js` reads the manager's `isRemote`, so every region is local
  (`Region.EveryRegionIsLocal`).
- `region.js` validates instances without passing the region, so any
  non-empty instances list is refused (`Region.InstancesAlwaysFail`). As a
  result, `app.js` can never find its instance
  (`Endpoints.StartupAlwaysFails`).
- `service.js` builds probe results with the service as the mode, so no
  probe result can be matched (`Service.ProbeResultsAreUnmatched`).
- A property comparison in a condition reads an undeclared variable
  (`Condition.PropertyEqThrows`).
- Condition errors escape a rule without the 10541 wrapper
  (`Rule.ResolveErrorEscapes`).

JavaScript semantics are written out where they matter:

- `parseInt` is read on optionally signed decimal integers.
- Truthiness is modelled, and `==` on missing values.
- The regular expression with the `gi` flags in `replaceAll` is a literal,
  ASCII case-insensitive replacement of every occurrence.
- A thrown exception is an `Err` of a `Result`: a numbered error, a
  TypeError, a ReferenceError or a SyntaxError.

## Model

| member | source | states |
|---|---|---|
| Helpers.IsEqual | server.js:40-49 | the comparison returns true iff the other list is present, has the same length, and contains every element of this one (the same reference always compares equal) |
| Helpers.PermutationIsEqual | app.js:26-35 | a list compares equal to any permutation of itself |
| Helpers.IsEqualNotSymmetric | server.js:44-48 | the comparison checks membership in one direction only: ["a","a"] equals ["a","b"] but not the other way round |
| Helpers.IndexIn | lib/action.js:48-54 | indexOf gives the first position of the element, or -1 exactly when it is absent |
| Helpers.BetweenInt | server.js:52-58 | a numeric target (or any target without a map) read as an integer n gives n clamped into [min, max], and max when min > max; a target read as NaN stays NaN; a non-numeric target with a map always gives an integer |
| Helpers.BetweenIntOfName | server.js:52-58 | a non-numeric target in the map gives its index, or max when the index is above max, or min when below; one not in the map has index -1, which is clamped into [min, max] the same way |
| Helpers.LogLevelOfName | server.js:65 | every level name is its position in the list ("debug" 4, "info" 2), and any other non-numeric text, in any case, 0 |
| Helpers.LevelWordsNotNumeric | server.js:53 | "debug", "DEBUG" and "Warn" are not numeric, so they are looked up in the map |
| Helpers.FirstPrefixOf | server.js:113 | the prefix found is one of the prefixes and starts the file name; none is found only when no prefix does |
| Helpers.KeptFiles | server.js:108-116 | every kept file is one of the files and passes the prefix test |
| Helpers.KeptFilesExact | server.js:108-116 | a file is kept exactly when it is listed and passes the prefix test |
| Helpers.KeptFilesAppend | server.js:108-116 | the filter works file by file: the kept files of a concatenation are those of each part, in listing order |
| Helpers.KeptFilesOne | server.js:110-115 | a single file is kept exactly when it passes the prefix test |
| Helpers.FilterServerFiles | server.js:108-116 | the loop keeps exactly the files the filter definition keeps, in order |
| Helpers.NoPrefixKeepsAll | server.js:110-111 | without a config prefix every file is kept, in its order |
| Helpers.KeepFileByPrefix | server.js:112-114 | a kept file starts with one of the non-empty comma-separated prefixes, and when no prefix is empty, starting with any of them keeps the file |
| Helpers.FirstPrefixAt | server.js:113 | `find` returns the first prefix, in list order, that the file starts with |
| Helpers.EmptyPrefixHidesLaterOnes | server.js:113-114 | for every file and prefix option: an empty piece that comes before every piece the file starts with is found first and, being falsy, stops the file from being kept |
| Helpers.KeptAppFiles | app.js:42-53 | every file app.js keeps is one of the files and passes its test |
| Helpers.KeptAppFilesExact | app.js:42-53 | app.js keeps a file exactly when it is listed, is not a sample and passes the prefix test, and keeps the files of a concatenation part by part in listing order |
| Helpers.NonSamplesExact | app.js:45-46 | the non-sample files are exactly the listed files not starting with `sample.` |
| Helpers.NonSamplesAppend | app.js:44-53 | skipping samples works file by file, keeping listing order |
| Helpers.FilterAppFiles | app.js:42-53 | the loop keeps exactly the files the app filter definition keeps, in order |
| Helpers.AppFilterIsServerFilterOfNonSamples | app.js:44-53 | app.js keeps exactly what the server filter keeps once the files starting with "sample." are dropped |
| JsStrings.EscapeRoundTrip | server.js:22-25 | escaping the regular-expression specials can be undone, so the escaped pattern matches the literal text |
| JsStrings.EscapeAppend | server.js:22-25 | escaping works character by character: the escape of a concatenation is the concatenation of the escapes |
| JsStrings.EscapeProtects | server.js:22-25 | at every position of the text, a special character becomes a backslash followed by it, and any other character stays itself |
| JsStrings.ReplaceAllAbsent | server.js:26-29 | a string with no case-insensitive occurrence of the pattern is unchanged |
| JsStrings.ReplaceAllAtFront | server.js:26-29 | a case-insensitive occurrence at the front is replaced and the scan resumes after it |
| JsStrings.ReplaceAllPrefixKept | server.js:26-29 | a prefix with no occurrence starting in it is kept as it is |
| Results.New | lib/result.js:8-174 | a result finished in "in" mode is an in result, in "out" mode an out result, and in any other mode stays unfinished |
| Results.InIsMatch | lib/result.js:118-147 | the loop with its early returns settles exactly as the in-mode match over the responses does |
| Results.InMatchWithError | lib/result.js:119-129 | with a request error, a result matches iff its list is empty, lists "error", or lists "timeout" and the error is ETIMEDOUT or a connect failure; nothing throws |
| Results.MatchFromWithError | lib/result.js:122-145 | with an error, the scan from any position matches iff a later entry is "error" or a fitting "timeout" |
| Results.MatchFromNoError | lib/result.js:122-145 | without an error and without NaN entries, the result matches iff some entry accepts the status code |
| Results.StatusEntries | lib/result.js:130-142 | an integer entry accepts exactly an equal status; a range "a-b" accepts exactly a <= status <= b |
| Results.RangeText | lib/result.js:17-24 | "a-b" with digit strings on both sides is treated as a range, splits into its two bounds, and is not numeric |
| Results.OutIsMatch | lib/result.js:158-170 | an out result matches iff its state list is empty or contains the given state |
| Results.CommaStringIsSplit | lib/result.js:15-16 | a response or state containing a comma is handled as the list of its comma-separated pieces |
| Results.KeywordResponse | lib/result.js:32-38 | a plain word is accepted iff it trims and lower-cases to "timeout" or "error", and is stored in that form; otherwise 10203 |
| Results.NumericAndRangeResponses | lib/result.js:17-46 | numbers become integer responses, hyphenated strings are kept verbatim, numeric strings are read by parseInt; 10201, 10202 and 10204 cannot be raised |
| Results.NatStringResponse | lib/result.js:25-28 | the decimal text of a natural number is stored as that number |
| Results.NegativeStringIsText | lib/result.js:17-24 | the string "-1" is taken for a range and kept as text, while the number -1 is stored as -1 |
| Results.ResponseErrors | lib/result.js:13-59 | collecting responses can fail only with 10203 or 10205 |
| Results.PiecesStates | lib/result.js:72-78 | the pieces of a comma-split state become their trimmed lower-case forms, one for one and in order |
| Results.StatesOfStrings | lib/result.js:71-91 | a list of plain string states becomes the list of their trimmed, lower-cased forms, in order |
| Results.NonStringState | lib/result.js:79-81 | a numeric state, alone or in a list, throws a ReferenceError |
| Results.InModeStates | lib/result.js:102-115 | in mode fails with 10211 iff the states are not exactly one; otherwise that state and the responses are kept, with apply-after defaulting to 1 |
| Results.OutModeChecks | lib/result.js:149-155 | out mode succeeds iff there is exactly one response and no apply-after; 10221 is checked before 10222 |
| Query.New | lib/query.js:8-22 | a query is accepted iff its upper-cased method (GET when absent) is one of the seven allowed and it has a uri; otherwise 10101 or 10102, in that order |
| Query.LowerCaseMethod | lib/query.js:11-17 | a lower-case method is upper-cased and accepted; a method outside the list is refused with 10101 |
| Query.Execute | lib/query.js:43-57 | the result loop settles the promise as the first-match settlement does |
| Query.FirstMatchFromIsLeast | lib/query.js:44-49 | the promise is settled by the first matching result; later matches do not change it |
| Query.SettleIsFirstMatch | lib/query.js:43-57 | a match resolves with the first matching result; without one, a 200 with no error resolves with the response and anything else rejects |
| Query.PlainResultThrows | lib/query.js:43-49 | a result without an isMatch anywhere in the list makes the callback throw |
| Service.BuildResults | lib/service.js:107-111 | every probe result is built with the service as its mode, so none is finished as an in or an out result |
| Service.NewServiceNameChecks | lib/service.js:56-65 | a missing name is 10811, a taken name 10812, a dotted name 10813, in that order; an accepted service passed all three |
| Service.NewServiceProbeChecks | lib/service.js:79-115 | a missing in node is 10831; a valid query without a results array is 10851; a probe without a query is accepted |
| Service.NewServiceFields | lib/service.js:51-125 | an accepted service is local with no fqn, priority 0 or its parseInt reading, default state "down" unless given, poll 30000 or its reading, polled null, state and report both the default state, inheriting, no properties, and its out results as configured |
| Service.NonNumericPriorityKept | lib/service.js:67-99 | the NaN checks never fire: a word priority and a word poll are stored as NaN and the service is accepted |
| Service.ProbeResultsAreUnmatched | lib/service.js:166-169 | a service with a query and at least one result always crashes its poll, since no result has an isMatch |
| Service.FindFqn | lib/service.js:139 | the first service with the given fqn, or none when no service has it |
| Service.IngestAppends | lib/service.js:156-161 | a fact about an unknown fqn appends it as a remote service and raises one new-service event |
| Service.IngestUpdates | lib/service.js:140-155 | a fact about a known fqn overwrites its state, report and properties, raises an event exactly for each that differed, and changes no other service |
| Service.IngestIdempotent | lib/service.js:138-163 | applying the same fact a second time changes nothing and raises nothing |
| Service.PollResolution | lib/service.js:169-180 | only a matched or answered poll reaches the success handler |
| Service.AcceptPoll | lib/service.js:170-176 | a poll result raises at most the polled-changed event |
| Service.AcceptPollEffect | lib/service.js:170-176 | polled and state take the result's state, the event is raised iff polled differed, and nothing else changes |
| Service.PollNeverSetsPolled | lib/service.js:169-176 | a result carries no state, so a service whose polled is null keeps it null, raises no event, and has its state cleared |
| Service.ServiceRegistry.constructor | lib/service.js:7 | the registry starts with no services and no handlers |
| Service.ServiceRegistry.New | lib/service.js:47-126 | the service is validated against the services so far and pushed only when accepted |
| Service.ServiceRegistry.Start | lib/service.js:128-138 | every service gets the fqn region.name, and one queried handler is registered per service |
| Service.ServiceRegistry.Queried | lib/service.js:138-163 | a queried fact changes nothing without handlers and otherwise has the effect of one application, since further ones change nothing |
| Service.ServiceRegistry.AcceptProbe | lib/service.js:169-176 | the probed service is replaced by its updated self and every other service is kept |
| Condition.NewConditionChecks | lib/condition.js:50-69 | a missing name is 10411, a taken name 10412, a dotted name 10413, and anything but exactly one of eq, all, any and formula 10421, in that order |
| Condition.NewConditionKinds | lib/condition.js:72-144 | an eq condition is accepted iff it names a service, has no properties and exactly one of state, property and report, with 10431, 10432 and 10435 otherwise; a formula condition is a stub |
| Condition.EqMeaning | lib/condition.js:84-96 | an eq condition on an undotted service holds iff the first service with fqn region.service has the expected state or report |
| Condition.PropertyEqThrows | lib/condition.js:88-89 | a property comparison on a found service reads the undeclared `state` and throws a ReferenceError |
| Condition.DottedEqIsFalse | lib/condition.js:85-105 | a dotted service name looks up the condition's own undefined `service` field, so the condition is false and its validation fails with 10434 |
| Condition.ValidateMatchesLookup | lib/condition.js:99-106 | an eq condition validates iff the looked-up fqn exists; when it does not, evaluation yields false |
| Condition.StubsReturnNothing | lib/condition.js:113-153 | all, any and formula conditions evaluate to undefined and have no validate, so validating them throws a TypeError |
| Condition.ValidateAllMeaning | lib/condition.js:150-155 | validating the conditions passes iff each condition validates, so any stub fails it |
| Condition.ConditionRegistry.constructor | lib/condition.js:7 | the registry starts with no conditions |
| Condition.ConditionRegistry.New | lib/condition.js:46-148 | the condition is validated against the conditions so far and pushed only when accepted |
| Condition.ConditionRegistry.ValidateConditions | lib/condition.js:150-155 | the loop stops at the first condition whose validation throws, as the recursive definition does |
| Action.KindInference | lib/action.js:9-17 | without a type, an action with a service is an update, one with only a uri a webhook, and one with neither 10601 |
| Action.UpdateChecks | lib/action.js:20-65 | an update on a dotted service is 10602; one with none of state, report, add-property and remove-property is 10603; otherwise it is accepted for that service |
| Action.FindLocal | lib/action.js:35 | the first local service with the given name, or none when there is no such service |
| Action.AddPropertyMeaning | lib/action.js:46-51 | adding a property makes it present, appends it only when absent, and keeps a duplicate-free list duplicate-free |
| Action.RemovePropertyMeaning | lib/action.js:52-58 | removing a property deletes exactly its first occurrence, leaves the list unchanged when absent, and on a duplicate-free list leaves none |
| Action.UpdateEffect | lib/action.js:34-61 | an update of a missing service is 10602; otherwise only that service changes, taking the given state and report, no longer inheriting the report when one is given, and gaining or losing the property |
| Action.ExecuteTouchesOnlyLocal | lib/action.js:34-83 | a successful action keeps every service's name, locality, fqn and polled value and leaves remote services unchanged |
| Action.ExecuteOn | lib/action.js:34-83 | running an action on the registry replaces its services by the action's result, or leaves them unchanged and reports the error |
| Formula.WordRun | lib/rule.js:112 | the identifier at the front is the longest run of identifier characters |
| Formula.ParseRender | lib/rule.js:112 | every fully parenthesised true/false expression parses back to itself |
| Formula.ParseAtomRender | lib/rule.js:112 | a rendered expression followed by more tokens parses as that expression, leaving the rest |
| Formula.LexShow | lib/rule.js:112 | the text of any token list, one token per word, lexes back to that list |
| Formula.EvalShowRender | lib/rule.js:112 | evaluating the text of an expression yields the expression's boolean value, so && and \|\| mean conjunction and disjunction |
| Formula.BlankIsUndefined | lib/rule.js:112-113 | a blank formula evaluates to undefined, which is not true |
| Formula.AdjacentLiteralsFail | lib/rule.js:112 | any two expressions side by side with no connective between them, followed by anything, are a syntax error, both as tokens and as printed text |
| Formula.EvalConnective | lib/rule.js:106-112 | two literals joined by " && " or " \|\| ", as the AND and OR rewrites leave them, evaluate to their conjunction or disjunction |
| Rule.NewActions | lib/rule.js:71-90 | a list of actions is accepted iff every action is, element for element and in order, and otherwise fails with the first action's error |
| Rule.NewRuleChecks | lib/rule.js:50-90 | in this order: a missing name is 10511, a taken name 10512, a dotted name 10513, a missing if clause 10521, neither then nor else 10531, then the first failing action of then and of else gives its error; a rule is accepted iff it passes all of these, and keeps its name, formula and branches |
| Rule.BranchLists | lib/rule.js:71-90 | a single action becomes a one-element list, and an array becomes the list of its validated actions in order |
| Rule.ResolveFormula | lib/rule.js:96-107 | the loop over the conditions computes the resolved formula the recursive definition describes |
| Rule.ResolveSingleCondition | lib/rule.js:97-107 | a formula that is just a condition's name resolves to "true" exactly when the condition evaluates to true, and to "false" otherwise |
| Rule.ResolveErrorEscapes | lib/rule.js:97-105 | a condition named in the formula whose evaluation throws makes the whole resolution throw that same error, outside the 10541 wrapper |
| Rule.ResolveSkipsAbsentNames | lib/rule.js:98 | a condition whose name does not occur in the formula is skipped |
| Rule.RunRuleFollowsValue | lib/rule.js:111-128 | when the formula resolves to a true or false expression, the then or else actions run in order, an absent branch does nothing, and a failing action makes the rule fail with 10541 |
| Rule.BadFormulaFails | lib/rule.js:111-128 | a resolved formula that cannot be evaluated fails the rule with 10541 and changes no service |
| Rule.EvaluateRule | lib/rule.js:93-130 | evaluating a rule on the registry leaves the services and outcome the recursive definition gives |
| Rule.RunActionsTouchesOnlyLocal | lib/rule.js:114-124 | running actions keeps every service's name, locality, fqn and polled value and leaves remote services unchanged |
| Rule.RunRuleTouchesOnlyLocal | lib/rule.js:93-130 | evaluating one rule changes only local services and keeps their names and polled values |
| Rule.RunRulesTouchesOnlyLocal | lib/rule.js:173-175 | the rule chain changes only local services and keeps their names and polled values |
| Rule.Seed | lib/rule.js:165-170 | a local service comes to inherit its report and takes polled as state, a remote one is unchanged, and no other field changes |
| Rule.CopyReports | lib/rule.js:178-182 | a local service still inheriting takes its state as report, every other service is unchanged, and no other field changes |
| Rule.SeedServices | lib/rule.js:165-170 | in place on the registry: each local service ends inheriting its report with polled as state, and remote ones are unchanged |
| Rule.CopyServiceReports | lib/rule.js:178-182 | in place on the registry: each local service still inheriting ends reporting its state, and every other service is unchanged |
| Rule.PassEffect | lib/rule.js:162-182 | a pass changes only local services, and after a successful pass every inheriting local service reports its state |
| Rule.PassWithoutRules | lib/rule.js:165-182 | with no rules, every local service ends inheriting with state and report equal to polled, and remote services are unchanged |
| Rule.PassStopsAtFailure | lib/rule.js:173-175 | when the first rule fails, the pass stops there and the report copy never runs |
| Rule.RuleManager.constructor | lib/rule.js:8 | the manager starts with no rules and nothing scheduled |
| Rule.RuleManager.New | lib/rule.js:46-134 | the rule is validated against the rules so far and pushed only when accepted |
| Rule.RuleManager.Change | lib/rule.js:141-153 | a change schedules a pass iff this instance is master; a pass already scheduled stays scheduled |
| Rule.RuleManager.Fire | lib/rule.js:148-151 | the scheduled pass runs once and clears the schedule |
| Rule.RuleManager.Evaluate | lib/rule.js:162-182 | the three loops seed the services, run the rules in order, and copy the reports, as the pass definition says |
| Region.NewInstances | lib/region.js:116-122 | each configured instance goes through instance validation in order; on success there is one instance per configuration |
| Region.NewRegionNameChecks | lib/region.js:60-69 | a missing name is 10311, a taken name 10312, a dotted name 10313, in that order; an accepted region keeps its new, undotted name |
| Region.EveryRegionIsLocal | lib/region.js:56-122 | every accepted region is local, has no instances, and is remote exactly when it has a query |
| Region.InstancesAlwaysFail | lib/region.js:116-119 | a non-empty instances list always fails: 10711 for an unnamed first instance, otherwise a TypeError |
| Region.LocalDefaults | lib/region.js:72-113 | a region without a query defaults priority to 0, default-poll to 30000 and process-after-idle to 5000, stores priority as parseInt, has no poll, and a truthy poll is 10351 |
| Region.RemoteChecks | lib/region.js:130-157 | a region with a query is refused with 10322 for a truthy priority and with 10332 when default-poll is absent, succeeds iff priority, default-poll and process-after-idle all read as falsy, and polls every 5000 ms unless poll is set |
| Region.LastLocal | lib/region.js:173-178 | the recorded region is a local one |
| Region.OneLocal | lib/region.js:172-181 | with no local region nothing is recorded; with exactly one, the recorded region is it and no other region is local |
| Region.AllLocalCount | lib/region.js:172-178 | when every region is local, the count of local regions is the number of regions |
| Region.RegionRegistry.constructor | lib/region.js:52-53 | the registry starts with no regions and no local region |
| Region.RegionRegistry.New | lib/region.js:52-166 | the new region is validated against the regions so far and pushed only when accepted |
| Region.RegionRegistry.Validate | lib/region.js:168-183 | validation passes iff exactly one region is local, else 10362, and records the last local region met |
| Instance.Port | lib/instance.js:31-40 | an accepted port lies strictly between 0 and 65535 |
| Instance.PortBounds | lib/instance.js:31-40 | the port is 80 when absent, and otherwise accepted iff its parseInt reading is strictly between 0 and 65535, which excludes 65535 itself; 10731 otherwise |
| Instance.NewChecks | lib/instance.js:14-40 | the checks run in order: a missing name is 10711; without a region the uniqueness check throws a TypeError; a duplicate name is 10712; a missing fqdn is 10721; success iff all pass and the port is valid |
| Instance.EndpointsBuild | lib/instance.js:49-79 | the four queries always pass query validation |
| Instance.NewFields | lib/instance.js:42-79 | a new instance is master since now and not connected; elect and sync POST and query and all GET to protocol://fqdn:port/, with a 10 s timeout, JSON, headers on all but all, and certificates checked unless the authority is self-signed |
| Security.TokenCache.constructor | lib/security.js:33 | the token cache starts empty |
| Security.TokenCache.Authenticate | lib/security.js:35-77 | without a secret every call is accepted; without an Authorization header it is rejected; otherwise the bearer token goes to the signature check, a cached token is marked replayed with the cache unchanged, and a new one prunes the entries used over a minute ago from the head and is appended |
| Security.PruneIsSuffix | lib/security.js:58-62 | pruning removes only a prefix of entries used before the cutoff and stops at the first entry that is not |
| Security.PrunedAreRecent | lib/security.js:58-62 | in a cache kept in time order, every entry left after pruning was used within the last minute |
| Security.CacheStaysInOrder | lib/security.js:58-63 | pruning and then appending the current token keeps the cache in time order |
| Security.ReplayRefused | lib/security.js:55-63 | after a token is appended, the same header finds it in the cache |
| Security.BearerToken | lib/security.js:43 | the token of "Bearer x" is x |
| Endpoints.Locals | server.js:158-167 | the local services are exactly the services that are local |
| Endpoints.LocalsAppend | server.js:158-167 | the local services keep their order in the registry |
| Endpoints.LocalsExtremes | app.js:99-108 | with no local service nothing is listed, and with only local services all are listed |
| Endpoints.QueryViews | server.js:158-168 | the reduce yields one view (name, priority, state, report, properties) per local service, in order |
| Endpoints.QueryAnswerMeaning | server.js:151-171 | /query gives the region name and mastery; only a master lists services, and then a view of every local service and of nothing else |
| Endpoints.Standings | server.js:271-278 | a follower's list has one name and report per local service, in order |
| Endpoints.Marked | server.js:260-263 | the sender is marked connected with the uuid and mastery it claims, and keeps its identity |
| Endpoints.ElectAnswer | server.js:258-285 | a region mismatch and an unknown or self instance give the two 500 replies; a sender claiming mastery is confirmed; otherwise the reply says isMaster false and lists every local service's report only when this instance is master |
| Endpoints.Peers.constructor | app.js:65-69 | the instances are those of the local region |
| Endpoints.Peers.Elect | server.js:256-286 | an accepted election request changes only the sender; a refused one changes nothing; the reply is the election answer |
| Endpoints.ElectMarksOnlySender | server.js:259-263 | after an accepted request the sender is connected with its claimed mastery, and this instance and every other one are unchanged |
| Endpoints.FirstMatchFrom | server.js:300-301 | the first out result matching the report is found; none is found only when no result matches; a result without isMatch throws when reached |
| Endpoints.ReportCases | server.js:298-331 | an unknown local service is 404 and one without out results another 404; otherwise the status of the first matching result is sent with the name and report, a 500 when none matches, or a TypeError |
| Endpoints.ReportOfLoadedResults | server.js:300-301 | out results as loaded have no isMatch, so /report throws |
| Endpoints.FindInstance | app.js:69 | the first instance with the given name, or 10001 when none has it |
| Endpoints.LocalInstance | app.js:64-73 | startup finds the instance named on the command line; a missing name, or one no instance has, is 10001 |
| Endpoints.StartupAlwaysFails | app.js:64-73 | regions made by region.js have no instances, so the lookup always fails with 10001 |
| Endpoints.Current | app.js:94-110 | /current gives the local region's name and one view (name, state, report, properties) per local service, in order |
| Endpoints.CurrentIsExact | app.js:99-108 | /current lists every local service and nothing else |

## Left out

- Loading: reading the `config` directory, reading files and `JSON.parse` in the `load` functions. The model starts from parsed records: `Option` for a missing field, `Scalar` for a number-or-string field.
- HTTP transport: the `request` calls of `lib/query.js` and `lib/action.js`, and the express routes and `listen`. A probe's error and status are parameters of `Query.Execute`. A webhook action has no effect on the model's state.
- Timers: the polling `setTimeout` of `lib/service.js` is `ServiceRegistry.AcceptProbe`, one arrived poll result. The idle timer of `lib/rule.js` is the `pending` flag of `RuleManager` (`Change` arms it, `Fire` runs the pass). How long the wait is, and the re-arming with `clearTimeout`, are not modelled.
- Endpoints.Report: the wait of up to 60 s for a missing report (server.js:313-325) is not modelled. The reply is computed from the services as they stand when it is sent.
- Security.TokenCache.Authenticate: the signature check (`njwt.verify`) is a foreign call. The decision says the token goes to it and whether the token was replayed. Which of the signature callback and the replay rejection settles the promise first depends on that library and is not stated.
- `readCertificateAndKey` in `lib/security.js` reads files and is not modelled.
- Functions the code calls but that are not part of this model:
  - `region_manager.find`, `region.elect()` and `region_manager.region` appear as parameters of `Endpoints.ElectAnswer` and `Endpoints.Peers.Elect`: the found instance, this instance, and this instance's mastery after the election. Likewise, the `/query` mastery is a parameter of `Endpoints.QueryAnswer`.
  - `region_manager.start`, `region_manager.find` and `region_manager.region` do not exist in `lib/region.js`, which defines only `load`, `new` and `validate`.
  - `service_manager.validate` and `service_manager.update` (used by `/sync`) do not exist in `lib/service.js`, which defines only `load`, `new` and `start`.
  - `rule_manager.validate` does not exist in `lib/rule.js`, which defines only `load`, `new`, `start` and `evaluate`.
  - As written, server.js therefore throws a TypeError at line 136 (`service_manager.validate` is not a function) once region validation passes. It throws before any route is registered or the server listens, and `.done()` turns it into an uncaught exception. The routes are modelled as they would behave if those functions existed.
- Startup sequencing: the order of loading, validation and start in server.js and app.js, and the context object, are not modelled. Only the instance lookup of app.js is. The command-line check of server.js:61-63 is not modelled.
- The `/`, `/all` and `/all/:instance` routes and `String.prototype.format` only format data for display.
- Logging, `console-stamp` and `process.exit` on an uncaught exception are not modelled.
- `lib/server.js`, `web/default.js` and the demo programs are not part of this model.
- Numbers are integers. `parseInt` and `isNaN` are modelled on optionally signed decimal digits. Fractions, exponents, hexadecimal and `Infinity` are not modelled.
- Case mapping (`toLowerCase`, `toUpperCase` and the `i` flag) is ASCII only.
- JsStrings.ReplaceAll: the replacement is inserted literally. JavaScript's `replace` also reads `$&`, `$$`, `` $` `` and `$'` in a replacement string. No replacement in the code contains `$`: they are "true", "false", " && " and " || ".
- Loose `==` between a string and a number is not modelled. For example, a numeric `--instance` compared with an instance name.
- Formula.Eval: only true/false literals, `&&`, `||` and parentheses are modelled.
  - Any other identifier is a ReferenceError, even where JavaScript's short-circuit would never evaluate it (`false && x` is false in JavaScript).
  - Any other character is a SyntaxError.
  - Numbers and other JavaScript expressions are not modelled.
- Endpoints.ElectRequest: the claimed `isMaster` is a boolean. The truthiness of other JSON values is not modelled.
- Service.Ingest: a fact's `properties` is taken to be an array of strings.
- Rule.NewRule: a rule's `if` is taken to be a string.
- Region.NewRegion: a local region with a falsy `poll` (such as 0) keeps that value in the code. The model records no poll for every local region.
- Service.ServiceConfig: the `out` results are never finished by `lib/result.js`. An entry is `None` for a result as loaded; `Some` is kept only to state what `/report` would do with a finished out result.
- Aliasing: a service object shared by several lists, and the in-place mutation of configuration objects (`base.type = ...`, `base.then = [a]`), are modelled as new values returned or stored in the registries.
