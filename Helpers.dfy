/** The pure helpers server.js and app.js install or use at start-up:
    `Array.prototype.isEqual`, `String.prototype.betweenInt`, and the
    `--config-prefix` filter over the configuration directory listing.
    (`replaceAll` and `escapeAsRegExp` are in JsStrings.) */
module Helpers {
  import opened Wrappers
  import opened JsValues
  import opened JsStrings

  // ---------------------------------------------------------------------
  // Array.prototype.isEqual (server.js:40-49, app.js:26-35)

  /** What `source.isEqual(compareTo)` decides: a non-null `compareTo` of
      the same length that contains every element of `source`. Membership
      only, so neither multiplicities nor order matter. */
  predicate SameMembers<T(==)>(source: seq<T>, compareTo: Option<seq<T>>) {
    && compareTo.Some?
    && |source| == |compareTo.value|
    && forall i :: 0 <= i < |source| ==> source[i] in compareTo.value
  }

  /** `source.isEqual(compareTo)`. The receiver of a method call is never
      null; `sameReference` says whether `compareTo` is the very same array
      object (`source === compareTo`). */
  method IsEqual<T(==)>(source: seq<T>, compareTo: Option<seq<T>>, sameReference: bool)
    returns (r: bool)
    requires sameReference ==> compareTo == Some(source)
    ensures r <==> SameMembers(source, compareTo)
  {
    if sameReference {
      return true;
    }
    if compareTo.None? {
      return false;
    }
    var other := compareTo.value;
    if |source| != |other| {
      return false;
    }
    var i := 0;
    while i < |source|
      invariant 0 <= i <= |source|
      invariant forall j :: 0 <= j < i ==> source[j] in other
    {
      if source[i] !in other {
        return false;
      }
      i := i + 1;
    }
    return true;
  }

  /** A permutation compares equal. */
  lemma PermutationIsEqual<T>(a: seq<T>, b: seq<T>)
    requires multiset(a) == multiset(b)
    ensures SameMembers(a, Some(b))
  {
    assert |a| == |multiset(a)| == |multiset(b)| == |b|;
    forall i | 0 <= i < |a| ensures a[i] in b {
      assert a[i] in multiset(a);
    }
  }

  /** Membership is all that is compared: `["a", "a"]` equals `["a", "b"]`
      but not the other way round, so the relation is not symmetric. */
  lemma IsEqualNotSymmetric()
    ensures SameMembers(["a", "a"], Some(["a", "b"]))
    ensures !SameMembers(["a", "b"], Some(["a", "a"]))
  {
    assert "a" in ["a", "b"];
    assert "b" !in ["a", "a"];
    assert ["a", "b"][1] == "b";
  }

  // ---------------------------------------------------------------------
  // String.prototype.betweenInt (server.js:52-58)

  /** `arr.indexOf(x)`: the first position of `x`, or -1. */
  function IndexIn(arr: seq<string>, x: string): (k: int)
    ensures -1 <= k < |arr|
    ensures k >= 0 ==> arr[k] == x && forall j :: 0 <= j < k ==> arr[j] != x
    ensures k == -1 ==> x !in arr
  {
    if arr == [] then -1
    else if arr[0] == x then 0
    else var k := IndexIn(arr[1..], x); if k < 0 then -1 else k + 1
  }

  /** `Math.min(Math.max(v, min), max)`, where NaN poisons both. */
  function Clamp(v: ParsedInt, min: int, max: int): ParsedInt {
    match v
    case NaN => NaN
    case Int(n) => Int(if n < min then (if min < max then min else max) else if n > max then max else n)
  }

  /** `target.betweenInt(min, max, map)`: a string that is not numeric is
      first replaced by its index in `names` (the `map` argument, when one is given), then the
      value is parsed as an integer and clamped into [min, max]. */
  function BetweenInt(target: string, min: int, max: int, names: Option<seq<string>>): (r: ParsedInt)
    ensures r.Int? ==> r.i <= max && (min <= max ==> min <= r.i)
    ensures names.Some? && !IsNumericText(target) ==> r.Int?
    ensures (names.None? || IsNumericText(target)) && ParseIntText(target).Int? ==>
              var n := ParseIntText(target).i;
              r == Int(if max < min || n > max then max else if n < min then min else n)
    ensures (names.None? || IsNumericText(target)) && ParseIntText(target).NaN? ==> r.NaN?
  {
    var v := if names.Some? && !IsNumericText(target) then Int(IndexIn(names.value, target))
             else ParseIntText(target);
    Clamp(v, min, max)
  }

  /** A name that is not in the map has index -1 and so clamps to the lower
      bound (or stays -1 when the bound is below it); a name in the map
      stands for its position, clamped into [min, max]. */
  lemma BetweenIntOfName(target: string, min: int, max: int, names: seq<string>)
    requires min <= max && !IsNumericText(target)
    ensures target !in names ==> BetweenInt(target, min, max, Some(names)) == Int(if -1 < min then min else if max < -1 then max else -1)
    ensures target in names && min <= IndexIn(names, target) <= max ==>
              BetweenInt(target, min, max, Some(names)) == Int(IndexIn(names, target))
    ensures target in names && IndexIn(names, target) > max ==> BetweenInt(target, min, max, Some(names)) == Int(max)
    ensures target in names && IndexIn(names, target) < min ==> BetweenInt(target, min, max, Some(names)) == Int(min)
  {
  }

  /** The log levels of server.js:65. */
  const LogLevels: seq<string> := ["error", "warn", "info", "verbose", "debug"]

  lemma NotNumeric(s: string)
    requires s != [] && !IsWhite(s[0]) && !IsWhite(s[|s| - 1])
    requires !IsDigit(s[0]) && s[0] != '-' && s[0] != '+'
    ensures !IsNumericText(s)
  {
    TrimUnchanged(s);
  }

  /** `--log-level` names map onto 0..4, and any other non-numeric text
      (such as `Warn` or `DEBUG`, since `indexOf` is case-sensitive) gives 0. */
  lemma LogLevelOfName(name: string)
    requires !IsNumericText(name)
    ensures name in LogLevels ==> BetweenInt(name, 0, 4, Some(LogLevels)) == Int(IndexIn(LogLevels, name))
    ensures name == "debug" ==> BetweenInt(name, 0, 4, Some(LogLevels)) == Int(4)
    ensures name == "info" ==> BetweenInt(name, 0, 4, Some(LogLevels)) == Int(2)
    ensures name !in LogLevels ==> BetweenInt(name, 0, 4, Some(LogLevels)) == Int(0)
  {
    BetweenIntOfName(name, 0, 4, LogLevels);
    if name == "debug" {
      LevelIndex(name, 4);
    } else if name == "info" {
      LevelIndex(name, 2);
    }
  }

  lemma LevelIndex(name: string, k: nat)
    requires k < |LogLevels| && LogLevels[k] == name
    ensures IndexIn(LogLevels, name) == k
  {
    assert forall j :: 0 <= j < |LogLevels| && j != k ==> LogLevels[j] != LogLevels[k];
  }

  /** Words such as the level names are not numeric, so they are looked up
      in the map: `DEBUG` and `Warn` are not numeric either. */
  lemma LevelWordsNotNumeric()
    ensures !IsNumericText("debug") && !IsNumericText("DEBUG") && !IsNumericText("Warn")
  {
    NotNumeric("debug");
    NotNumeric("DEBUG");
    NotNumeric("Warn");
  }

  // ---------------------------------------------------------------------
  // The --config-prefix filter (server.js:108-116, app.js:42-53)

  /** `prefixes.find(p => file.startsWith(p))`. */
  function FirstPrefixOf(prefixes: seq<string>, file: string): (r: Option<string>)
    ensures r.Some? ==> r.value in prefixes && StartsWith(file, r.value)
    ensures r.None? ==> forall p :: p in prefixes ==> !StartsWith(file, p)
  {
    if prefixes == [] then None
    else if StartsWith(file, prefixes[0]) then Some(prefixes[0])
    else FirstPrefixOf(prefixes[1..], file)
  }

  /** Whether a file survives the prefix filter: with no (or an empty)
      `--config-prefix` every file does; otherwise the first comma-separated
      prefix the file starts with is looked up, and the file is kept only
      when that prefix is truthy (a non-empty string). */
  predicate KeepFile(file: string, configPrefix: Option<string>) {
    !StrTruthy(configPrefix) ||
    var found := FirstPrefixOf(Split(configPrefix.value, ','), file);
    found.Some? && found.value != []
  }

  /** The files that survive, in listing order. */
  function KeptFiles(files: seq<string>, configPrefix: Option<string>): (r: seq<string>)
    ensures |r| <= |files|
    ensures forall f :: f in r ==> f in files && KeepFile(f, configPrefix)
  {
    if files == [] then []
    else
      var last := files[|files| - 1];
      KeptFiles(files[..|files| - 1], configPrefix) + (if KeepFile(last, configPrefix) then [last] else [])
  }

  /** The server.js filter: every file is pushed onto `filtered_files` in
      listing order when it passes. */
  method FilterServerFiles(files: seq<string>, configPrefix: Option<string>)
    returns (filtered: seq<string>)
    ensures filtered == KeptFiles(files, configPrefix)
  {
    filtered := [];
    var i := 0;
    while i < |files|
      invariant 0 <= i <= |files|
      invariant filtered == KeptFiles(files[..i], configPrefix)
    {
      assert files[..i + 1][..i] == files[..i];
      if KeepFile(files[i], configPrefix) {
        filtered := filtered + [files[i]];
      }
      i := i + 1;
    }
    assert files[..|files|] == files;
  }

  /** Without a prefix option nothing is filtered out. */
  lemma {:induction false} NoPrefixKeepsAll(files: seq<string>, configPrefix: Option<string>)
    requires !StrTruthy(configPrefix)
    ensures KeptFiles(files, configPrefix) == files
  {
    if files != [] {
      NoPrefixKeepsAll(files[..|files| - 1], configPrefix);
      KeptLast(files, configPrefix);
      assert files[..|files| - 1] + [files[|files| - 1]] == files;
    }
  }

  lemma KeptLast(files: seq<string>, configPrefix: Option<string>)
    requires files != [] && !StrTruthy(configPrefix)
    ensures KeptFiles(files, configPrefix) == KeptFiles(files[..|files| - 1], configPrefix) + [files[|files| - 1]]
  {
    assert KeepFile(files[|files| - 1], configPrefix);
  }

  /** A kept file starts with one of the non-empty prefixes; when none of
      the comma-separated prefixes is empty, starting with one of them is
      also enough to be kept. */
  lemma KeepFileByPrefix(file: string, configPrefix: string)
    requires configPrefix != []
    ensures KeepFile(file, Some(configPrefix)) ==>
              exists p :: p in Split(configPrefix, ',') && p != [] && StartsWith(file, p)
    ensures (forall p :: p in Split(configPrefix, ',') ==> p != []) &&
            (exists p :: p in Split(configPrefix, ',') && StartsWith(file, p)) ==>
              KeepFile(file, Some(configPrefix))
  {
  }

  /** `find` returns the first prefix the file starts with. */
  lemma {:induction false} FirstPrefixAt(prefixes: seq<string>, file: string, k: nat)
    requires k < |prefixes| && StartsWith(file, prefixes[k])
    requires forall j :: 0 <= j < k ==> !StartsWith(file, prefixes[j])
    ensures FirstPrefixOf(prefixes, file) == Some(prefixes[k])
    decreases k
  {
    if k > 0 {
      assert !StartsWith(file, prefixes[0]);
      FirstPrefixAt(prefixes[1..], file, k - 1);
    }
  }

  /** An empty piece before the matching prefix hides it: every file starts
      with the empty string, so `find` stops at that piece and returns a
      falsy prefix. With `--config-prefix ",west"` the first piece is empty,
      so no file is kept at all. */
  lemma EmptyPrefixHidesLaterOnes(file: string, configPrefix: string, k: nat)
    requires configPrefix != [] && k < |Split(configPrefix, ',')| && Split(configPrefix, ',')[k] == []
    requires forall j :: 0 <= j < k ==> !StartsWith(file, Split(configPrefix, ',')[j])
    ensures !KeepFile(file, Some(configPrefix))
  {
    assert StartsWith(file, []);
    FirstPrefixAt(Split(configPrefix, ','), file, k);
  }

  /** A file is kept exactly when it passes, and the filter works file by
      file, so the kept files of a listing are those of its parts, in
      listing order. */
  lemma {:induction false} KeptFilesAppend(a: seq<string>, b: seq<string>, configPrefix: Option<string>)
    ensures KeptFiles(a + b, configPrefix) == KeptFiles(a, configPrefix) + KeptFiles(b, configPrefix)
    decreases |b|
  {
    if b == [] {
      assert a + b == a;
    } else {
      var init, last := b[..|b| - 1], b[|b| - 1];
      KeptFilesAppend(a, init, configPrefix);
      SnocShape(a, b);
      KeptFilesSnoc(a + init, last, configPrefix);
      KeptFilesSnoc(init, last, configPrefix);
      var kl := if KeepFile(last, configPrefix) then [last] else [];
      Regroup(KeptFiles(a, configPrefix), KeptFiles(init, configPrefix), kl,
              KeptFiles(a + b, configPrefix), KeptFiles(b, configPrefix));
    }
  }

  lemma SnocShape(a: seq<string>, b: seq<string>)
    requires b != []
    ensures a + b == (a + b[..|b| - 1]) + [b[|b| - 1]] && b == b[..|b| - 1] + [b[|b| - 1]]
  {
  }

  lemma Regroup(x: seq<string>, y: seq<string>, z: seq<string>, whole: seq<string>, right: seq<string>)
    requires whole == (x + y) + z && right == y + z
    ensures whole == x + right
  {
  }

  lemma KeptFilesSnoc(files: seq<string>, file: string, configPrefix: Option<string>)
    ensures KeptFiles(files + [file], configPrefix) ==
              KeptFiles(files, configPrefix) + (if KeepFile(file, configPrefix) then [file] else [])
  {
    assert (files + [file])[..|files|] == files;
  }

  /** The kept files are exactly the listed files that pass. */
  lemma {:induction false} KeptFilesExact(files: seq<string>, configPrefix: Option<string>)
    ensures forall f :: f in KeptFiles(files, configPrefix) <==> f in files && KeepFile(f, configPrefix)
    decreases |files|
  {
    if files != [] {
      var init := files[..|files| - 1];
      KeptFilesExact(init, configPrefix);
      assert files == init + [files[|files| - 1]];
    }
  }

  /** One file is kept on its own exactly when it passes. */
  lemma KeptFilesOne(file: string, configPrefix: Option<string>)
    ensures KeptFiles([file], configPrefix) == if KeepFile(file, configPrefix) then [file] else []
  {
    assert [file][..0] == [];
  }

  /** The app.js filter: files starting with `sample.` are skipped first,
      and the rest pass the same prefix test. */
  predicate KeepAppFile(file: string, configPrefix: Option<string>) {
    !StartsWith(file, "sample.") && KeepFile(file, configPrefix)
  }

  function KeptAppFiles(files: seq<string>, configPrefix: Option<string>): (r: seq<string>)
    ensures forall f :: f in r ==> f in files && KeepAppFile(f, configPrefix)
  {
    if files == [] then []
    else
      var last := files[|files| - 1];
      KeptAppFiles(files[..|files| - 1], configPrefix) + (if KeepAppFile(last, configPrefix) then [last] else [])
  }

  /** app.js's loop: `sample.` files are skipped, the others pushed when the
      prefix option lets them through. */
  method FilterAppFiles(files: seq<string>, configPrefix: Option<string>)
    returns (filtered: seq<string>)
    ensures filtered == KeptAppFiles(files, configPrefix)
  {
    filtered := [];
    var i := 0;
    while i < |files|
      invariant 0 <= i <= |files|
      invariant filtered == KeptAppFiles(files[..i], configPrefix)
    {
      assert files[..i + 1][..i] == files[..i];
      if StartsWith(files[i], "sample.") {
        // skip
      } else if !StrTruthy(configPrefix) {
        filtered := filtered + [files[i]];
      } else {
        var found := FirstPrefixOf(Split(configPrefix.value, ','), files[i]);
        if found.Some? && found.value != [] {
          filtered := filtered + [files[i]];
        }
      }
      i := i + 1;
    }
    assert files[..|files|] == files;
  }

  /** The files that are not samples, in order. */
  function NonSamples(files: seq<string>): seq<string> {
    if files == [] then []
    else
      var last := files[|files| - 1];
      NonSamples(files[..|files| - 1]) + (if StartsWith(last, "sample.") then [] else [last])
  }

  /** The non-sample files of a listing are those of its parts, in order. */
  lemma {:induction false} NonSamplesAppend(a: seq<string>, b: seq<string>)
    ensures NonSamples(a + b) == NonSamples(a) + NonSamples(b)
    decreases |b|
  {
    if b == [] {
      assert a + b == a;
    } else {
      var init, last := b[..|b| - 1], b[|b| - 1];
      NonSamplesAppend(a, init);
      SnocShape(a, b);
      NonSamplesSnoc(a + init, last);
      NonSamplesSnoc(init, last);
    }
  }

  lemma NonSamplesSnoc(files: seq<string>, file: string)
    ensures NonSamples(files + [file]) == NonSamples(files) + (if StartsWith(file, "sample.") then [] else [file])
  {
    assert (files + [file])[..|files|] == files;
  }

  /** The non-sample files are exactly the listed files that do not start
      with `sample.`. */
  lemma {:induction false} NonSamplesExact(files: seq<string>)
    ensures forall f :: f in NonSamples(files) <==> f in files && !StartsWith(f, "sample.")
    decreases |files|
  {
    if files != [] {
      var init := files[..|files| - 1];
      NonSamplesExact(init);
      assert files == init + [files[|files| - 1]];
    }
  }

  /** app.js keeps exactly the listed files that are not samples and pass
      the prefix test, and keeps them file by file in listing order. */
  lemma KeptAppFilesExact(a: seq<string>, b: seq<string>, configPrefix: Option<string>)
    ensures forall f :: f in KeptAppFiles(a, configPrefix) <==> f in a && KeepAppFile(f, configPrefix)
    ensures KeptAppFiles(a + b, configPrefix) == KeptAppFiles(a, configPrefix) + KeptAppFiles(b, configPrefix)
  {
    AppFilterIsServerFilterOfNonSamples(a, configPrefix);
    AppFilterIsServerFilterOfNonSamples(b, configPrefix);
    AppFilterIsServerFilterOfNonSamples(a + b, configPrefix);
    KeptFilesExact(NonSamples(a), configPrefix);
    NonSamplesExact(a);
    NonSamplesAppend(a, b);
    KeptFilesAppend(NonSamples(a), NonSamples(b), configPrefix);
  }

  /** app.js keeps exactly what server.js would keep of the non-sample
      files. */
  lemma {:induction false} AppFilterIsServerFilterOfNonSamples(files: seq<string>, configPrefix: Option<string>)
    ensures KeptAppFiles(files, configPrefix) == KeptFiles(NonSamples(files), configPrefix)
  {
    if files != [] {
      var init := files[..|files| - 1];
      var last := files[|files| - 1];
      AppFilterIsServerFilterOfNonSamples(init, configPrefix);
      if !StartsWith(last, "sample.") {
        var ns := NonSamples(files);
        assert ns == NonSamples(init) + [last];
        assert ns[..|ns| - 1] == NonSamples(init);
        assert ns[|ns| - 1] == last;
        assert KeepAppFile(last, configPrefix) == KeepFile(last, configPrefix);
      } else {
        assert NonSamples(files) == NonSamples(init) + [];
        assert NonSamples(init) + [] == NonSamples(init);
        assert KeptAppFiles(files, configPrefix) == KeptAppFiles(init, configPrefix) + [];
      }
    }
  }
}
