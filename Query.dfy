/** lib/query.js: validating a probe query, and deciding how its promise
    settles once the HTTP response (or error) is in. */
module Query {
  import opened Wrappers
  import opened JsStrings
  import opened Results

  /** The methods a query may use (query.js:15). */
  const Methods: seq<string> := ["GET", "POST", "HEAD", "PUT", "DELETE", "OPTIONS", "CONNECT"]

  /** A query as configured. */
  datatype QueryConfig = QueryConfig(verb: Option<string>, uri: Option<string>)

  /** A validated query. */
  datatype QueryDef = QueryDef(verb: string, uri: string)

  /** `new(base)`: the method defaults to GET and is upper-cased, and must
      then be on the list (10101); a uri is required (10102). */
  function New(base: QueryConfig): (r: Result<QueryDef>)
    ensures r.Ok? <==> (base.verb.None? || ToUpper(base.verb.value) in Methods) && base.uri.Some?
    ensures r.Ok? ==> r.value.verb in Methods && r.value.uri == base.uri.value
    ensures base.verb.None? && base.uri.Some? ==> r == Ok(QueryDef("GET", base.uri.value))
    ensures base.verb.Some? && ToUpper(base.verb.value) !in Methods ==> r == Err(Code(10101))
    ensures (base.verb.None? || ToUpper(base.verb.value) in Methods) && base.uri.None? ==>
              r == Err(Code(10102))
  {
    var verb := if base.verb.None? then "GET" else base.verb.value;
    var upper := ToUpper(verb);
    assert ToUpper("GET") == "GET";
    if upper !in Methods then Err(Code(10101))
    else if base.uri.None? then Err(Code(10102))
    else Ok(QueryDef(upper, base.uri.value))
  }

  /** A lower-case method name is accepted in upper case. */
  lemma LowerCaseMethod(uri: string)
    ensures New(QueryConfig(Some("post"), Some(uri))) == Ok(QueryDef("POST", uri))
    ensures New(QueryConfig(Some("PATCH"), Some(uri))) == Err(Code(10101))
  {
    assert ToUpper("post") == "POST";
    assert ToUpper("PATCH") == "PATCH";
  }

  /** How `execute`'s promise ends up: resolved with the result at `index`,
      resolved with `{response, body}`, rejected, or never settled because
      an `isMatch` threw inside the response callback. */
  datatype Settlement = Matched(index: nat) | Answered | Rejected | Crashed(error: Error)

  /** `result.isMatch(error, response)` on a result as `new` left it. An
      in-result uses its response list. An out-result's `isMatch(state)`
      compares its states with the error (null, or an error object whose
      text starts with a capital letter), which equals none of the
      lower-cased states, so it matches only when it lists no states. A
      result finished in neither mode has no `isMatch`, and calling it
      throws. */
  function IsMatch(b: Built, error: Option<ProbeError>, status: int): Result<bool> {
    match b
    case BuiltIn(r) => InMatch(r.responses, error, status)
    case BuiltOut(r) => Ok(|r.states| == 0)
    case BuiltPlain(_, _) => Err(TypeError)
  }

  /** The first index from `from` on whose `isMatch` holds, given the one
      found so far; every result is asked, and the first throw escapes. */
  function FirstMatchFrom(results: seq<Built>, from: nat, found: Option<nat>, error: Option<ProbeError>, status: int)
    : Result<Option<nat>>
    requires from <= |results|
    decreases |results| - from
  {
    if from == |results| then Ok(found)
    else
      var m :- IsMatch(results[from], error, status);
      FirstMatchFrom(results, from + 1, if m && found.None? then Some(from) else found, error, status)
  }

  /** The settlement of `execute(results)`: a matching result wins (the
      first, since a promise settles once); otherwise a response without
      error and with status 200 resolves, and anything else rejects. A
      `results` that is not an array is not consulted. */
  function Settle(results: Option<seq<Built>>, error: Option<ProbeError>, status: int): Settlement {
    var found := if results.Some? then FirstMatchFrom(results.value, 0, None, error, status) else Ok(None);
    match found
    case Err(e) => Crashed(e)
    case Ok(Some(i)) => Matched(i)
    case Ok(None) => if error.None? && status == 200 then Answered else Rejected
  }

  /** The response callback of query.js:28-58: every result is asked in
      order; the first match is kept. */
  method Execute(results: Option<seq<Built>>, error: Option<ProbeError>, status: int) returns (s: Settlement)
    ensures s == Settle(results, error, status)
  {
    var found: Option<nat> := None;
    if results.Some? {
      var rs := results.value;
      var i := 0;
      while i < |rs|
        invariant 0 <= i <= |rs|
        invariant FirstMatchFrom(rs, i, found, error, status) == FirstMatchFrom(rs, 0, None, error, status)
      {
        var m := IsMatch(rs[i], error, status);
        if m.Err? {
          return Crashed(m.error);
        }
        if m.value && found.None? {
          found := Some(i);
        }
        i := i + 1;
      }
    }
    if found.Some? {
      return Matched(found.value);
    }
    if error.None? && status == 200 {
      return Answered;
    }
    return Rejected;
  }

  /** A result's isMatch that holds and does not throw. */
  predicate Holds(b: Built, error: Option<ProbeError>, status: int) {
    IsMatch(b, error, status) == Ok(true)
  }

  /** With no result throwing, the scan returns the least matching index at
      or after `from` (or the one already found). */
  lemma {:induction false} FirstMatchFromIsLeast(results: seq<Built>, from: nat, found: Option<nat>,
                                                 error: Option<ProbeError>, status: int)
    requires from <= |results|
    requires forall j :: from <= j < |results| ==> IsMatch(results[j], error, status).Ok?
    ensures var r := FirstMatchFrom(results, from, found, error, status);
            r.Ok? &&
            (found.Some? ==> r.value == found) &&
            (found.None? && r.value.Some? ==>
               from <= r.value.value < |results| && Holds(results[r.value.value], error, status) &&
               forall j :: from <= j < r.value.value ==> !Holds(results[j], error, status)) &&
            (found.None? && r.value.None? ==> forall j :: from <= j < |results| ==> !Holds(results[j], error, status))
    decreases |results| - from
  {
    if from < |results| {
      var m := IsMatch(results[from], error, status);
      FirstMatchFromIsLeast(results, from + 1, if m.value && found.None? then Some(from) else found, error, status);
    }
  }

  /** The outcome is the first result, in list order, whose `isMatch`
      holds; with none, a clean 200 resolves with the response and anything
      else rejects. */
  lemma SettleIsFirstMatch(results: seq<Built>, error: Option<ProbeError>, status: int)
    requires forall j :: 0 <= j < |results| ==> IsMatch(results[j], error, status).Ok?
    ensures Settle(Some(results), error, status).Matched? ==>
              var i := Settle(Some(results), error, status).index;
              i < |results| && Holds(results[i], error, status) &&
              forall j :: 0 <= j < i ==> !Holds(results[j], error, status)
    ensures !Settle(Some(results), error, status).Matched? ==>
              (forall j :: 0 <= j < |results| ==> !Holds(results[j], error, status)) &&
              Settle(Some(results), error, status) == (if error.None? && status == 200 then Answered else Rejected)
    ensures (exists j :: 0 <= j < |results| && Holds(results[j], error, status)) ==>
              Settle(Some(results), error, status).Matched?
  {
    FirstMatchFromIsLeast(results, 0, None, error, status);
  }

  /** A result finished in neither direction cannot be asked: a list that
      holds one makes the callback throw. */
  lemma PlainResultThrows(results: seq<Built>, k: nat, error: Option<ProbeError>, status: int)
    requires k < |results| && results[k].BuiltPlain?
    ensures Settle(Some(results), error, status).Crashed?
  {
    PlainResultThrowsFrom(results, 0, None, k, error, status);
  }

  lemma {:induction false} PlainResultThrowsFrom(results: seq<Built>, from: nat, found: Option<nat>, k: nat,
                                                 error: Option<ProbeError>, status: int)
    requires from <= k < |results| && results[k].BuiltPlain?
    ensures FirstMatchFrom(results, from, found, error, status).Err?
    decreases |results| - from
  {
    if from < k {
      var m := IsMatch(results[from], error, status);
      if m.Ok? {
        PlainResultThrowsFrom(results, from + 1, if m.value && found.None? then Some(from) else found, k, error, status);
      }
    }
  }
}
