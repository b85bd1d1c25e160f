/** The JavaScript string operations the configuration code uses:
    `indexOf`, `split` on one character, `startsWith`, `replace` with a
    string pattern, ASCII case mapping, and the case-insensitive literal
    `replaceAll` (with its regular-expression escaping) that server.js and
    app.js add to `String.prototype`. */
module JsStrings {

  /** `sub` occurs in `s` at index `i`. */
  predicate OccursAt(s: string, sub: string, i: nat) {
    i + |sub| <= |s| && s[i..i + |sub|] == sub
  }

  /** `s.indexOf(sub)`: the first index where `sub` occurs, or -1. */
  function IndexOf(s: string, sub: string): (r: int)
    ensures -1 <= r <= |s|
    ensures r >= 0 ==> OccursAt(s, sub, r)
    ensures r >= 0 ==> forall i: nat :: i < r ==> !OccursAt(s, sub, i)
    ensures r == -1 ==> forall i: nat :: i <= |s| ==> !OccursAt(s, sub, i)
  {
    IndexFrom(s, sub, 0)
  }

  function IndexFrom(s: string, sub: string, k: nat): (r: int)
    requires k <= |s| + 1
    requires forall i: nat :: i < k ==> !OccursAt(s, sub, i)
    ensures -1 <= r <= |s|
    ensures r >= 0 ==> k <= r && OccursAt(s, sub, r)
    ensures r >= 0 ==> forall i: nat :: i < r ==> !OccursAt(s, sub, i)
    ensures r == -1 ==> forall i: nat :: i <= |s| ==> !OccursAt(s, sub, i)
    decreases |s| + 1 - k
  {
    if k + |sub| > |s| then -1
    else if s[k..k + |sub|] == sub then k
    else IndexFrom(s, sub, k + 1)
  }

  /** `s.startsWith(p)`. */
  predicate StartsWith(s: string, p: string) {
    |p| <= |s| && s[..|p|] == p
  }

  /** `s.split(c)` for a one-character separator: the pieces between the
      separators, in order, keeping empty pieces. */
  function Split(s: string, c: char): (parts: seq<string>)
    ensures |parts| >= 1
    decreases |s|
  {
    if s == [] then [[]]
    else
      var rest := Split(s[1..], c);
      if s[0] == c then [[]] + rest else [[s[0]] + rest[0]] + rest[1..]
  }

  /** `parts.join(c)`. */
  function Join(parts: seq<string>, c: char): string
    requires |parts| >= 1
  {
    if |parts| == 1 then parts[0] else parts[0] + [c] + Join(parts[1..], c)
  }

  /** No piece of a split contains the separator. */
  lemma {:induction false} SplitPiecesFree(s: string, c: char)
    ensures forall p :: p in Split(s, c) ==> c !in p
    decreases |s|
  {
    if s != [] {
      SplitPiecesFree(s[1..], c);
      var rest := Split(s[1..], c);
      if s[0] != c {
        assert forall p :: p in rest[1..] ==> p in rest;
        assert c !in rest[0];
      }
    }
  }

  /** Joining the pieces of a split gives back the string. */
  lemma {:induction false} SplitJoin(s: string, c: char)
    ensures Join(Split(s, c), c) == s
    decreases |s|
  {
    if s != [] {
      SplitJoin(s[1..], c);
      var rest := Split(s[1..], c);
      if s[0] == c {
        assert Split(s, c) == [[]] + rest;
        assert Split(s, c)[1..] == rest;
      } else {
        var parts := Split(s, c);
        assert parts == [[s[0]] + rest[0]] + rest[1..];
        if |rest| > 1 {
          assert parts[1..] == rest[1..];
        }
      }
    }
  }

  /** The first separator ends the first piece. */
  lemma {:induction false} SplitAt(s: string, c: char, k: nat)
    requires k < |s| && s[k] == c && forall i :: 0 <= i < k ==> s[i] != c
    ensures Split(s, c) == [s[..k]] + Split(s[k + 1..], c)
    decreases k
  {
    if k > 0 {
      var t := s[1..];
      assert t[k - 1] == c && forall i :: 0 <= i < k - 1 ==> t[i] == s[i + 1];
      SplitAt(t, c, k - 1);
      SplitConsJoin(s[0], t, c, t[..k - 1], Split(t[k..], c));
      assert [s[0]] + t == s && t[k..] == s[k + 1..] && [s[0]] + t[..k - 1] == s[..k];
    }
  }

  /** A first character other than the separator joins the first piece. */
  lemma SplitConsJoin(h: char, t: string, c: char, first: string, tail: seq<string>)
    requires h != c && Split(t, c) == [first] + tail
    ensures Split([h] + t, c) == [[h] + first] + tail
  {
    var s := [h] + t;
    assert s[0] == h && s[1..] == t;
  }

  /** A string with no separator splits into itself alone. */
  lemma {:induction false} SplitWithout(s: string, c: char)
    requires c !in s
    ensures Split(s, c) == [s]
    decreases |s|
  {
    if s != [] {
      SplitWithout(s[1..], c);
      assert s[0] != c;
      assert [s[0]] + s[1..] == s;
    }
  }

  /** `s.replace(find, rep)` with a string pattern: only the first
      occurrence is replaced. */
  function ReplaceFirst(s: string, find: string, rep: string): (r: string)
  {
    var i := IndexOf(s, find);
    if i < 0 then s else s[..i] + rep + s[i + |find|..]
  }

  function LowerChar(c: char): char {
    if 'A' <= c <= 'Z' then (c as int + 32) as char else c
  }

  function UpperChar(c: char): char {
    if 'a' <= c <= 'z' then (c as int - 32) as char else c
  }

  /** `s.toLowerCase()` (ASCII letters). */
  function ToLower(s: string): (r: string)
    ensures |r| == |s| && forall i :: 0 <= i < |s| ==> r[i] == LowerChar(s[i])
    decreases |s|
  {
    if s == [] then [] else [LowerChar(s[0])] + ToLower(s[1..])
  }

  /** `s.toUpperCase()` (ASCII letters). */
  function ToUpper(s: string): (r: string)
    ensures |r| == |s| && forall i :: 0 <= i < |s| ==> r[i] == UpperChar(s[i])
  {
    seq(|s|, i requires 0 <= i < |s| => UpperChar(s[i]))
  }

  /** Equal under the case folding of a regular expression's `i` flag. */
  predicate EqualsIgnoringCase(a: string, b: string) {
    ToLower(a) == ToLower(b)
  }

  /** `find` occurs at index `i` of `s`, ignoring case. */
  predicate OccursAtIgnoringCase(s: string, find: string, i: nat) {
    i + |find| <= |s| && EqualsIgnoringCase(s[i..i + |find|], find)
  }

  /** `s.replaceAll(find, rep)` as server.js and app.js define it:
      `s.replace(new RegExp(escaped find, "gi"), rep)`. The escaped pattern
      matches `find` literally; the scan goes left to right, replaces every
      non-overlapping case-insensitive occurrence, and resumes after it. An
      empty `find` matches between every two characters and at both ends. */
  function ReplaceAll(s: string, find: string, rep: string): (r: string)
    decreases |s|
  {
    if find == [] then
      rep + (if s == [] then [] else [s[0]] + ReplaceAll(s[1..], find, rep))
    else if |s| < |find| then s
    else if EqualsIgnoringCase(s[..|find|], find) then rep + ReplaceAll(s[|find|..], find, rep)
    else [s[0]] + ReplaceAll(s[1..], find, rep)
  }

  /** Where a non-empty `find` does not occur (ignoring case), nothing is
      replaced. */
  lemma {:induction false} ReplaceAllAbsent(s: string, find: string, rep: string)
    requires find != []
    requires forall i: nat :: i < |s| ==> !OccursAtIgnoringCase(s, find, i)
    ensures ReplaceAll(s, find, rep) == s
    decreases |s|
  {
    if |s| >= |find| {
      assert !OccursAtIgnoringCase(s, find, 0);
      assert s[..|find|] == s[0..0 + |find|];
      forall i: nat | i < |s[1..]| ensures !OccursAtIgnoringCase(s[1..], find, i) {
        assert !OccursAtIgnoringCase(s, find, i + 1);
        if i + |find| <= |s[1..]| {
          assert s[1..][i..i + |find|] == s[i + 1..i + 1 + |find|];
        }
      }
      ReplaceAllAbsent(s[1..], find, rep);
    }
  }

  /** An occurrence at the front, in any case, is replaced and the scan
      resumes right after it. */
  lemma ReplaceAllAtFront(find: string, s: string, rep: string)
    requires find != [] && OccursAtIgnoringCase(s, find, 0)
    ensures ReplaceAll(s, find, rep) == rep + ReplaceAll(s[|find|..], find, rep)
  {
    assert s[..|find|] == s[0..0 + |find|];
  }

  /** Replacement distributes over a split at a boundary that no occurrence
      straddles: a prefix without any occurrence is kept verbatim. */
  lemma {:induction false} ReplaceAllPrefixKept(a: string, b: string, find: string, rep: string)
    requires find != []
    requires forall i: nat :: i < |a| ==> !OccursAtIgnoringCase(a + b, find, i)
    ensures ReplaceAll(a + b, find, rep) == a + ReplaceAll(b, find, rep)
    decreases |a|
  {
    if a == [] {
      assert a + b == b;
    } else if |a + b| >= |find| {
      ShiftNoOccurrence(a, b, find);
      ReplaceAllPrefixKept(a[1..], b, find, rep);
      PrefixKeptStep(a, b, find, rep);
    } else {
      ShortKept(a, b, find, rep);
    }
  }

  lemma PrefixKeptStep(a: string, b: string, find: string, rep: string)
    requires find != [] && a != [] && |a + b| >= |find| && !OccursAtIgnoringCase(a + b, find, 0)
    requires ReplaceAll(a[1..] + b, find, rep) == a[1..] + ReplaceAll(b, find, rep)
    ensures ReplaceAll(a + b, find, rep) == a + ReplaceAll(b, find, rep)
  {
    var s := a + b;
    TailOfConcat(a, b);
    ReplaceAllSkip(s, find, rep);
    KeepFirst(a, ReplaceAll(b, find, rep), ReplaceAll(s[1..], find, rep), ReplaceAll(s, find, rep));
  }

  lemma TailOfConcat(a: string, b: string)
    requires a != []
    ensures (a + b)[0] == a[0] && (a + b)[1..] == a[1..] + b
  {
  }

  lemma KeepFirst(a: string, r: string, rest: string, whole: string)
    requires a != [] && rest == a[1..] + r && whole == [a[0]] + rest
    ensures whole == a + r
  {
    assert [a[0]] + a[1..] == a;
  }

  /** Text shorter than a non-empty `find` is kept. */
  lemma ShortKept(a: string, b: string, find: string, rep: string)
    requires find != [] && |a + b| < |find|
    ensures ReplaceAll(a + b, find, rep) == a + ReplaceAll(b, find, rep)
  {
    assert ReplaceAll(b, find, rep) == b;
  }

  /** No occurrence at the front: the first character is kept and the scan
      moves on by one. */
  lemma ReplaceAllSkip(s: string, find: string, rep: string)
    requires find != [] && |s| >= |find| && !OccursAtIgnoringCase(s, find, 0)
    ensures ReplaceAll(s, find, rep) == [s[0]] + ReplaceAll(s[1..], find, rep)
  {
    assert s[..|find|] == s[0..0 + |find|];
  }

  lemma ShiftNoOccurrence(a: string, b: string, find: string)
    requires a != []
    requires forall i: nat :: i < |a| ==> !OccursAtIgnoringCase(a + b, find, i)
    ensures forall i: nat :: i < |a[1..]| ==> !OccursAtIgnoringCase(a[1..] + b, find, i)
  {
    var s := a + b;
    forall i: nat | i < |a[1..]| ensures !OccursAtIgnoringCase(a[1..] + b, find, i) {
      assert !OccursAtIgnoringCase(s, find, i + 1);
      if i + |find| <= |a[1..] + b| {
        assert (a[1..] + b)[i..i + |find|] == s[i + 1..i + 1 + |find|];
      }
    }
  }

  /** The characters `escapeAsRegExp` protects with a backslash. */
  predicate IsRegExpSpecial(c: char) {
    c in ".*+?^=!:${}()|[]/\\"
  }

  /** `s.escapeAsRegExp()`: every special character gets a backslash in
      front of it. */
  function EscapeAsRegExp(s: string): (r: string)
    ensures |r| >= |s|
  {
    if s == [] then []
    else (if IsRegExpSpecial(s[0]) then ['\\', s[0]] else [s[0]]) + EscapeAsRegExp(s[1..])
  }

  /** Reading an escaped pattern literally: a backslash stands for the
      character after it. */
  function Unescape(p: string): string
    decreases |p|
  {
    if p == [] then []
    else if p[0] == '\\' && |p| > 1 then [p[1]] + Unescape(p[2..])
    else [p[0]] + Unescape(p[1..])
  }

  /** The escaped pattern denotes exactly the original text, which is why
      the regular expression in `replaceAll` matches `find` literally. */
  lemma {:induction false} EscapeRoundTrip(s: string)
    ensures Unescape(EscapeAsRegExp(s)) == s
    decreases |s|
  {
    if s != [] {
      EscapeRoundTrip(s[1..]);
      var rest := EscapeAsRegExp(s[1..]);
      if IsRegExpSpecial(s[0]) {
        assert EscapeAsRegExp(s) == ['\\', s[0]] + rest;
        UnescapeProtected(s[0], rest);
      } else {
        assert EscapeAsRegExp(s) == [s[0]] + rest;
        UnescapePlain(s[0], rest);
      }
      assert [s[0]] + s[1..] == s;
    }
  }

  lemma UnescapeProtected(c: char, rest: string)
    ensures Unescape(['\\', c] + rest) == [c] + Unescape(rest)
  {
    assert (['\\', c] + rest)[2..] == rest;
  }

  lemma UnescapePlain(c: char, rest: string)
    requires !IsRegExpSpecial(c)
    ensures Unescape([c] + rest) == [c] + Unescape(rest)
  {
    assert c != '\\';
    assert ([c] + rest)[1..] == rest;
  }

  /** The escape works character by character: escaping a concatenation
      is the concatenation of the escapes. */
  lemma {:induction false} EscapeAppend(a: string, b: string)
    ensures EscapeAsRegExp(a + b) == EscapeAsRegExp(a) + EscapeAsRegExp(b)
    decreases |a|
  {
    if a != [] {
      EscapeAppend(a[1..], b);
      assert (a + b)[0] == a[0] && (a + b)[1..] == a[1..] + b;
    } else {
      assert a + b == b;
    }
  }

  /** In the escaped pattern no special character stands unprotected: at
      every position of the text, a special character is escaped as a
      backslash followed by it, and any other character as itself. */
  lemma EscapeProtects(s: string, i: nat)
    requires i < |s|
    ensures EscapeAsRegExp(s) ==
              EscapeAsRegExp(s[..i]) + (if IsRegExpSpecial(s[i]) then ['\\', s[i]] else [s[i]]) +
              EscapeAsRegExp(s[i + 1..])
  {
    var pre, t := s[..i], s[i..];
    SliceAt(s, i);
    EscapeAppend(pre, t);
    EscapeHead(t);
    var head := if IsRegExpSpecial(s[i]) then ['\\', s[i]] else [s[i]];
    GlueStrings(EscapeAsRegExp(pre), head, EscapeAsRegExp(t[1..]));
  }

  lemma SliceAt(s: string, i: nat)
    requires i < |s|
    ensures s == s[..i] + s[i..] && s[i..] != [] && s[i..][0] == s[i] && s[i..][1..] == s[i + 1..]
  {
  }

  lemma EscapeHead(t: string)
    requires t != []
    ensures EscapeAsRegExp(t) == (if IsRegExpSpecial(t[0]) then ['\\', t[0]] else [t[0]]) + EscapeAsRegExp(t[1..])
  {
  }

  lemma GlueStrings(x: string, y: string, z: string)
    ensures x + (y + z) == x + y + z
  {
  }
}
