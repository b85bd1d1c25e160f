/** lib/result.js: turning a result's `response(s)` and `state(s)` into
    ordered lists, finishing the result for the "in" (probe) or "out"
    (report) direction, and the two `isMatch` predicates. */
module Results {
  import opened Wrappers
  import opened JsValues
  import opened JsStrings

  /** A `response`, `responses`, `state` or `states` value as configured:
      a string, an integer, an array, or anything else (a boolean, an
      object). A missing or null field is `None` where it is optional. */
  datatype Spec = SStr(s: string) | SNum(n: int) | SList(items: seq<Spec>) | SOther

  /** One entry of `base.responses` after normalisation: an integer status
      code, the `NaN` that `parseInt` leaves for a blank string, or a string
      kept as text (a range such as "200-299", or a keyword). */
  datatype Response = Status(code: int) | StatusNaN | Word(s: string)

  /** The keywords a non-numeric response may be (result.js:6). */
  const Keywords: seq<string> := ["timeout", "error"]

  /** The configuration of one result, as loaded. */
  datatype ResultConfig = ResultConfig(
    response: Option<Spec>,
    responses: Option<Spec>,
    state: Option<Spec>,
    states: Option<Spec>,
    applyAfter: Option<Scalar>)

  /** Which direction `new(base, mode)` is asked to finish. Any `mode` other
      than the strings "in" and "out" finishes neither. */
  datatype Mode = In | Out | Unrecognised

  /** A result finished in the "in" direction: the probe outcomes it
      recognises, the one state it yields, and `apply-after`. */
  datatype InResult = InResult(responses: seq<Response>, state: string, applyAfter: ParsedInt)

  /** A result finished in the "out" direction: the one response it answers
      with, and the report states it recognises. */
  datatype OutResult = OutResult(response: Response, states: seq<string>)

  /** What `new` leaves behind, by mode. */
  datatype Built =
    | BuiltIn(inResult: InResult)
    | BuiltOut(outResult: OutResult)
    | BuiltPlain(responses: seq<Response>, states: seq<string>)

  // ---------------------------------------------------------------------
  // responses (result.js:12-67)

  /** `toResponse` of a string with no comma in it. A string with a hyphen
      is kept verbatim (the 10201 check compares with `NaN` by `===` and
      can never fire); a numeric string is stored as `parseInt` of it (the
      10202 check cannot fire either, so a blank string is stored as NaN);
      anything else must trim and lower-case to a keyword, else 10203. */
  function PieceResponse(s: string): Result<Response> {
    if '-' in s then Ok(Word(s))
    else if IsNumericText(s) then
      (match ParseIntText(s)
       case Int(n) => Ok(Status(n))
       case NaN => Ok(StatusNaN))
    else
      var t := ToLower(Trim(s));
      if t in Keywords then Ok(Word(t)) else Err(Code(10203))
  }

  /** The pieces of a comma-split string, each through `toResponse`, in
      order; the first failure is thrown. */
  function PiecesResponses(pieces: seq<string>): Result<seq<Response>> {
    if pieces == [] then Ok([])
    else
      var head :- PieceResponse(pieces[0]);
      var tail :- PiecesResponses(pieces[1..]);
      Ok([head] + tail)
  }

  /** `toResponse(o)`: a string containing a comma is split and its pieces
      handled in order; a number is stored as an integer (10204 cannot
      fire); anything else is 10205. */
  function ItemResponses(o: Spec): Result<seq<Response>> {
    match o
    case SStr(s) => if ',' in s then PiecesResponses(Split(s, ',')) else
                      var r :- PieceResponse(s); Ok([r])
    case SNum(n) => Ok([Status(n)])
    case SList(_) => Err(Code(10205))
    case SOther => Err(Code(10205))
  }

  function ItemsResponses(items: seq<Spec>): Result<seq<Response>> {
    if items == [] then Ok([])
    else
      var head :- ItemResponses(items[0]);
      var tail :- ItemsResponses(items[1..]);
      Ok(head + tail)
  }

  /** `toResponses(o)`: an array's elements one by one, anything else as a
      single item. */
  function AllResponses(o: Spec): Result<seq<Response>> {
    match o
    case SList(items) => ItemsResponses(items)
    case _ => ItemResponses(o)
  }

  /** `response` is collected first, then `responses`. */
  function CollectResponses(base: ResultConfig): Result<seq<Response>> {
    var first :- if base.response.Some? then AllResponses(base.response.value) else Ok([]);
    var second :- if base.responses.Some? then AllResponses(base.responses.value) else Ok([]);
    Ok(first + second)
  }

  // ---------------------------------------------------------------------
  // states (result.js:69-99)

  /** `toState(o)`: a string is comma-split and each piece trimmed and
      lower-cased; for any other value the test `typeof o == number` reads
      the undeclared identifier `number` and throws. */
  function ItemStates(o: Spec): Result<seq<string>> {
    match o
    case SStr(s) =>
      if ',' in s then Ok(PiecesStates(Split(s, ','))) else Ok([ToLower(Trim(s))])
    case _ => Err(ReferenceError)
  }

  function PiecesStates(pieces: seq<string>): (r: seq<string>)
    ensures |r| == |pieces|
    ensures forall i :: 0 <= i < |pieces| ==> r[i] == ToLower(Trim(pieces[i]))
  {
    if pieces == [] then [] else [ToLower(Trim(pieces[0]))] + PiecesStates(pieces[1..])
  }

  function ItemsStates(items: seq<Spec>): Result<seq<string>> {
    if items == [] then Ok([])
    else
      var head :- ItemStates(items[0]);
      var tail :- ItemsStates(items[1..]);
      Ok(head + tail)
  }

  function AllStates(o: Spec): Result<seq<string>> {
    match o
    case SList(items) => ItemsStates(items)
    case _ => ItemStates(o)
  }

  /** `state` is collected first, then `states`. */
  function CollectStates(base: ResultConfig): Result<seq<string>> {
    var first :- if base.state.Some? then AllStates(base.state.value) else Ok([]);
    var second :- if base.states.Some? then AllStates(base.states.value) else Ok([]);
    Ok(first + second)
  }

  // ---------------------------------------------------------------------
  // new (result.js:8-174)

  /** `new(base, mode)`: normalise responses, then states, then finish the
      mode: "in" needs exactly one state (10211) and defaults `apply-after`
      to 1 (10212 cannot fire); "out" needs exactly one response (10221) and
      forbids `apply-after` (10222). */
  function New(base: ResultConfig, mode: Mode): (r: Result<Built>)
    ensures r.Ok? && mode == In ==> r.value.BuiltIn?
    ensures r.Ok? && mode == Out ==> r.value.BuiltOut?
    ensures r.Ok? && mode == Unrecognised ==> r.value.BuiltPlain?
  {
    var responses :- CollectResponses(base);
    var states :- CollectStates(base);
    match mode
    case In =>
      if |states| != 1 then Err(Code(10211))
      else
        var applyAfter := if base.applyAfter.None? then Int(1) else ParseInt(base.applyAfter.value);
        Ok(BuiltIn(InResult(responses, states[0], applyAfter)))
    case Out =>
      if |responses| != 1 then Err(Code(10221))
      else if base.applyAfter.Some? then Err(Code(10222))
      else Ok(BuiltOut(OutResult(responses[0], states)))
    case Unrecognised => Ok(BuiltPlain(responses, states))
  }

  // ---------------------------------------------------------------------
  // in-mode isMatch (result.js:118-146)

  /** The error a probe reports: its `code` and its `connect` flag. */
  datatype ProbeError = ProbeError(code: string, connect: bool)

  /** What the loop body does with one entry: match, no match, or throw.
      With an error, only the keywords can match: "error" any error,
      "timeout" an `ETIMEDOUT` or connect error. Without one, a number
      (or a numeric string, compared by `==`) must equal the status, a
      hyphenated string is a range whose bounds are `parseInt` of the first
      and last hyphen-separated pieces, and the NaN entry throws a
      TypeError when its `indexOf` is called. */
  function EntryMatch(p: Response, error: Option<ProbeError>, status: int): Result<bool> {
    if error.Some? then
      Ok((p == Word("timeout") && (error.value.code == "ETIMEDOUT" || error.value.connect))
         || p == Word("error"))
    else
      match p
      case Status(n) => Ok(status == n)
      case StatusNaN => Err(TypeError)
      case Word(s) =>
        if IsNumericText(s) then Ok(status == NumberOfText(s))
        else if '-' in s then
          var range := Split(s, '-');
          var min := ParseIntText(range[0]);
          var max := ParseIntText(range[|range| - 1]);
          Ok(min.Int? && max.Int? && min.i <= status <= max.i)
        else Ok(false)
  }

  /** The scan from entry `from` on: the first entry that matches or throws
      decides; reaching the end is no match. */
  function MatchFrom(responses: seq<Response>, from: nat, error: Option<ProbeError>, status: int): Result<bool>
    requires from <= |responses|
    decreases |responses| - from
  {
    if from == |responses| then Ok(false)
    else
      match EntryMatch(responses[from], error, status)
      case Ok(true) => Ok(true)
      case Ok(false) => MatchFrom(responses, from + 1, error, status)
      case Err(e) => Err(e)
  }

  /** The in-mode `isMatch(error, response)`, with `status` standing for
      `response.statusCode`. An empty list matches everything. */
  function InMatch(responses: seq<Response>, error: Option<ProbeError>, status: int): Result<bool> {
    if |responses| < 1 then Ok(true) else MatchFrom(responses, 0, error, status)
  }

  /** The loop of result.js:122-145, with its early returns. */
  method InIsMatch(r: InResult, error: Option<ProbeError>, status: int) returns (m: Result<bool>)
    ensures m == InMatch(r.responses, error, status)
  {
    if |r.responses| < 1 {
      return Ok(true);
    }
    var i := 0;
    while i < |r.responses|
      invariant 0 <= i <= |r.responses|
      invariant MatchFrom(r.responses, i, error, status) == MatchFrom(r.responses, 0, error, status)
    {
      var e := EntryMatch(r.responses[i], error, status);
      if e.Err? {
        return Err(e.error);
      }
      if e.value {
        return Ok(true);
      }
      i := i + 1;
    }
    return Ok(false);
  }

  /** The scan from `from` on, as a closed formula. */
  lemma {:induction false} MatchFromWithError(responses: seq<Response>, from: nat, error: ProbeError, status: int)
    requires from <= |responses|
    ensures MatchFrom(responses, from, Some(error), status) ==
            Ok(exists i :: from <= i < |responses| &&
                 (responses[i] == Word("error") ||
                  (responses[i] == Word("timeout") && (error.code == "ETIMEDOUT" || error.connect))))
    decreases |responses| - from
  {
    if from < |responses| {
      MatchFromWithError(responses, from + 1, error, status);
    }
  }

  /** With an error, a result matches iff its list is empty, or it lists
      "error", or it lists "timeout" and the error is a timeout or a connect
      failure; numbers and ranges never match an error, and nothing throws. */
  lemma InMatchWithError(responses: seq<Response>, error: ProbeError, status: int)
    ensures InMatch(responses, Some(error), status) ==
            Ok(|responses| == 0 ||
               Word("error") in responses ||
               (Word("timeout") in responses && (error.code == "ETIMEDOUT" || error.connect)))
  {
    MatchFromWithError(responses, 0, error, status);
    if |responses| > 0 {
      if Word("error") in responses {
        var i :| 0 <= i < |responses| && responses[i] == Word("error");
      }
      if Word("timeout") in responses {
        var i :| 0 <= i < |responses| && responses[i] == Word("timeout");
      }
    }
  }

  /** What one entry accepts when there is no error. */
  predicate AcceptsStatus(p: Response, status: int) {
    EntryMatch(p, None, status) == Ok(true)
  }

  /** Without an error, and with no NaN entry, a result matches iff some
      entry accepts the status; the entries before it make no difference. */
  lemma {:induction false} MatchFromNoError(responses: seq<Response>, from: nat, status: int)
    requires from <= |responses|
    requires StatusNaN !in responses
    ensures MatchFrom(responses, from, None, status) ==
            Ok(exists i :: from <= i < |responses| && AcceptsStatus(responses[i], status))
    decreases |responses| - from
  {
    if from < |responses| {
      MatchFromNoError(responses, from + 1, status);
      MatchFromStep(responses, from, status);
      AcceptedFromStep(responses, from, status);
    }
  }

  lemma AcceptedFromStep(responses: seq<Response>, from: nat, status: int)
    requires from < |responses|
    ensures (exists i :: from <= i < |responses| && AcceptsStatus(responses[i], status)) <==>
            (AcceptsStatus(responses[from], status) ||
             exists i :: from + 1 <= i < |responses| && AcceptsStatus(responses[i], status))
  {
  }

  /** One step of the scan without an error, over an entry that is not NaN. */
  lemma MatchFromStep(responses: seq<Response>, from: nat, status: int)
    requires from < |responses| && responses[from] != StatusNaN
    ensures MatchFrom(responses, from, None, status) ==
            if AcceptsStatus(responses[from], status) then Ok(true) else MatchFrom(responses, from + 1, None, status)
  {
    var e := EntryMatch(responses[from], None, status);
    assert e.Ok?;
  }

  /** Without an error: an integer entry matches an equal status, a range
      "a-b" of integers matches a <= status <= b. */
  lemma StatusEntries(n: int, a: nat, b: nat, status: int)
    ensures AcceptsStatus(Status(n), status) <==> status == n
    ensures AcceptsStatus(Word(NatToString(a) + "-" + NatToString(b)), status) <==> a <= status <= b
  {
    RangeEntry(a, b, status);
  }

  lemma RangeEntry(a: nat, b: nat, status: int)
    ensures AcceptsStatus(Word(NatToString(a) + "-" + NatToString(b)), status) <==> a <= status <= b
  {
    var da, db := NatToString(a), NatToString(b);
    RangeText(da, db);
    NatToStringValue(a);
    DigitsParse(da);
    NatToStringValue(b);
    DigitsParse(db);
    WordRange(da + "-" + db, da, db, status);
  }

  /** A word that is not numeric and splits on its hyphens into two pieces
      is the range between their `parseInt` readings. */
  lemma WordRange(s: string, x: string, y: string, status: int)
    requires !IsNumericText(s) && '-' in s && Split(s, '-') == [x, y]
    ensures AcceptsStatus(Word(s), status) <==>
            (ParseIntText(x).Int? && ParseIntText(y).Int? && ParseIntText(x).i <= status <= ParseIntText(y).i)
  {
    assert Split(s, '-')[0] == x && Split(s, '-')[1] == y;
  }

  /** "a-b" with digit strings on both sides is a range, not a number. */
  lemma RangeText(da: string, db: string)
    requires da != [] && db != [] && AllDigits(da) && AllDigits(db)
    ensures var s := da + "-" + db;
            '-' in s && !IsNumericText(s) && Split(s, '-') == [da, db]
  {
    var s := da + "-" + db;
    assert s[|da|] == '-';
    HyphenatedNotNumeric(s, |da|);
    assert '-' !in da && '-' !in db by {
      assert forall i :: 0 <= i < |da| ==> IsDigit(da[i]);
      assert forall i :: 0 <= i < |db| ==> IsDigit(db[i]);
    }
    SplitAround(da, db);
  }

  /** A hyphen between two digits makes a string non-numeric. */
  lemma HyphenatedNotNumeric(s: string, k: nat)
    requires 0 < k < |s| - 1 && s[k] == '-' && IsDigit(s[0]) && IsDigit(s[|s| - 1])
    ensures !IsNumericText(s)
  {
    TrimUnchanged(s);
    assert !IsDigit(s[k]);
    assert !AllDigits(s);
    assert !AllDigits(s[1..]) by {
      assert s[1..][k - 1] == s[k];
    }
  }

  /** Splitting "a-b" on the hyphen, where neither side has one. */
  lemma SplitAround(x: string, y: string)
    requires '-' !in x && '-' !in y
    ensures Split(x + "-" + y, '-') == [x, y]
  {
    var s := x + "-" + y;
    assert s[|x|] == '-' && s[..|x|] == x && s[|x| + 1..] == y;
    assert forall i :: 0 <= i < |x| ==> s[i] == x[i];
    SplitAt(s, '-', |x|);
    SplitWithout(y, '-');
  }

  // ---------------------------------------------------------------------
  // out-mode isMatch (result.js:158-170)

  /** The out-mode `isMatch(state)`: an empty list matches any state,
      otherwise the state must be one of the listed states (a missing state
      equals none of them). */
  method OutIsMatch(r: OutResult, state: Option<string>) returns (m: bool)
    ensures m <==> |r.states| == 0 || (state.Some? && state.value in r.states)
  {
    if |r.states| < 1 {
      return true;
    }
    var i := 0;
    while i < |r.states|
      invariant 0 <= i <= |r.states|
      invariant state.None? || state.value !in r.states[..i]
    {
      if state == Some(r.states[i]) {
        return true;
      }
      assert r.states[..i + 1] == r.states[..i] + [r.states[i]];
      i := i + 1;
    }
    assert r.states[..i] == r.states;
    return false;
  }

  /** The out-mode `isMatch` as a predicate, for callers that are
      functions. */
  predicate OutMatches(r: OutResult, state: Option<string>) {
    |r.states| == 0 || (state.Some? && state.value in r.states)
  }

  // ---------------------------------------------------------------------
  // properties of the normalisation

  /** A comma-containing string is split and every piece normalised in
      order. */
  lemma CommaStringIsSplit(s: string)
    requires ',' in s
    ensures ItemResponses(SStr(s)) == PiecesResponses(Split(s, ','))
    ensures ItemStates(SStr(s)) == Ok(PiecesStates(Split(s, ',')))
  {
  }

  /** A string that is not numeric, not a range and has no comma is kept
      only when it trims and lower-cases to `timeout` or `error`, and then
      in that form; otherwise the result is rejected with 10203. */
  lemma KeywordResponse(s: string)
    requires ',' !in s && '-' !in s && !IsNumericText(s)
    ensures ItemResponses(SStr(s)).Ok? <==> ToLower(Trim(s)) in Keywords
    ensures ItemResponses(SStr(s)).Ok? ==> ItemResponses(SStr(s)) == Ok([Word(ToLower(Trim(s)))])
    ensures ItemResponses(SStr(s)).Err? ==> ItemResponses(SStr(s)) == Err(Code(10203))
  {
  }

  /** Numbers and numeric strings are stored as integers and hyphenated
      strings verbatim; neither can be rejected (10201, 10202 and 10204 are
      unreachable). */
  lemma NumericAndRangeResponses(n: int, s: string)
    requires ',' !in s
    ensures ItemResponses(SNum(n)) == Ok([Status(n)])
    ensures '-' in s ==> ItemResponses(SStr(s)) == Ok([Word(s)])
    ensures '-' !in s && IsNumericText(s) ==>
              ItemResponses(SStr(s)) == Ok([if ParseIntText(s).Int? then Status(ParseIntText(s).i) else StatusNaN])
  {
  }

  /** The decimal rendering of a natural number is stored as that number. */
  lemma NatStringResponse(n: nat)
    ensures ItemResponses(SStr(NatToString(n))) == Ok([Status(n)])
  {
    var t := NatToString(n);
    ParseIntOfIntToString(n);
    NumberOfIntToString(n);
    assert IntToString(n) == t;
    assert ',' !in t && '-' !in t by {
      assert forall i :: 0 <= i < |t| ==> IsDigit(t[i]);
    }
  }

  /** A negative status code in a string is taken for a range: "-1" is
      stored as text, unlike the number -1. */
  lemma NegativeStringIsText()
    ensures ItemResponses(SStr("-1")) == Ok([Word("-1")])
    ensures ItemResponses(SNum(-1)) == Ok([Status(-1)])
  {
    assert "-1"[0] == '-';
  }

  /** The error codes that can be thrown while collecting responses. */
  lemma {:induction false} ResponseErrors(o: Spec)
    ensures AllResponses(o).Err? ==> AllResponses(o).error in {Code(10203), Code(10205)}
  {
    match o
    case SList(items) => ItemsResponseErrors(items);
    case _ => ItemResponseErrors(o);
  }

  lemma ItemResponseErrors(o: Spec)
    ensures ItemResponses(o).Err? ==> ItemResponses(o).error in {Code(10203), Code(10205)}
  {
    if o.SStr? && ',' in o.s {
      PiecesResponseErrors(Split(o.s, ','));
    }
  }

  lemma {:induction false} PiecesResponseErrors(pieces: seq<string>)
    ensures PiecesResponses(pieces).Err? ==> PiecesResponses(pieces).error == Code(10203)
  {
    if pieces != [] {
      PiecesResponseErrors(pieces[1..]);
    }
  }

  lemma {:induction false} ItemsResponseErrors(items: seq<Spec>)
    ensures ItemsResponses(items).Err? ==> ItemsResponses(items).error in {Code(10203), Code(10205)}
  {
    if items != [] {
      ItemResponseErrors(items[0]);
      ItemsResponseErrors(items[1..]);
    }
  }

  /** States keep their order: a list of plain strings becomes the list of
      their trimmed, lower-cased forms. */
  lemma {:induction false} StatesOfStrings(items: seq<string>)
    requires forall i :: 0 <= i < |items| ==> ',' !in items[i]
    ensures ItemsStates(seq(|items|, i requires 0 <= i < |items| => SStr(items[i]))) ==
            Ok(PiecesStates(items))
  {
    if items != [] {
      var specs := seq(|items|, i requires 0 <= i < |items| => SStr(items[i]));
      var tail := items[1..];
      assert specs[1..] == seq(|tail|, i requires 0 <= i < |tail| => SStr(tail[i]));
      StatesOfStrings(tail);
    }
  }

  /** A state that is not a string is always rejected. */
  lemma NonStringState(n: int)
    ensures AllStates(SNum(n)) == Err(ReferenceError)
    ensures AllStates(SList([SNum(n)])) == Err(ReferenceError)
  {
  }

  /** In-mode finishing fails with 10211 exactly when the collected states
      are not a single one, and defaults `apply-after` to 1. */
  lemma InModeStates(base: ResultConfig)
    requires CollectResponses(base).Ok? && CollectStates(base).Ok?
    ensures New(base, In).Err? <==> |CollectStates(base).value| != 1
    ensures New(base, In).Err? ==> New(base, In).error == Code(10211)
    ensures New(base, In).Ok? ==>
              New(base, In).value.inResult.state == CollectStates(base).value[0] &&
              New(base, In).value.inResult.responses == CollectResponses(base).value &&
              (base.applyAfter.None? ==> New(base, In).value.inResult.applyAfter == Int(1))
  {
  }

  /** Out-mode finishing: exactly one response (10221), no `apply-after`
      (10222), in that order. */
  lemma OutModeChecks(base: ResultConfig)
    requires CollectResponses(base).Ok? && CollectStates(base).Ok?
    ensures New(base, Out).Ok? <==> |CollectResponses(base).value| == 1 && base.applyAfter.None?
    ensures |CollectResponses(base).value| != 1 ==> New(base, Out) == Err(Code(10221))
    ensures |CollectResponses(base).value| == 1 && base.applyAfter.Some? ==> New(base, Out) == Err(Code(10222))
    ensures New(base, Out).Ok? ==>
              New(base, Out).value.outResult ==
                OutResult(CollectResponses(base).value[0], CollectStates(base).value)
  {
  }
}
