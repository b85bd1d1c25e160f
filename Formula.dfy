/** The `eval(formula)` of lib/rule.js:112, on the text a rule's formula
    becomes once its condition names are `true`/`false` and its `AND`/`OR`
    are `&&`/`||`: the boolean literals, the two connectives and
    parentheses, as JavaScript reads them (`&&` binds tighter than `||`,
    both group to the left). Text with nothing but white space evaluates
    to undefined; any other text throws. */
module Formula {
  import opened Wrappers
  import opened JsValues

  datatype Token = TTrue | TFalse | TAnd | TOr | TOpen | TClose

  /** A boolean expression: a literal, `l && r` or `l || r`. */
  datatype Expr = Lit(b: bool) | Both(l: Expr, r: Expr) | Either(l: Expr, r: Expr)

  /** The value JavaScript gives an expression. */
  function Value(e: Expr): bool {
    match e
    case Lit(b) => b
    case Both(l, r) => Value(l) && Value(r)
    case Either(l, r) => Value(l) || Value(r)
  }

  // ---------------------------------------------------------------------
  // tokens

  /** A character of an identifier, keyword or number. */
  predicate IsWordChar(c: char) {
    ('a' <= c <= 'z') || ('A' <= c <= 'Z') || ('0' <= c <= '9') || c == '_' || c == '$'
  }

  /** The length of the run of word characters at the front of `s`. */
  function WordRun(s: string): (n: nat)
    ensures n <= |s|
    ensures forall i :: 0 <= i < n ==> IsWordChar(s[i])
    ensures n < |s| ==> !IsWordChar(s[n])
  {
    if s == [] || !IsWordChar(s[0]) then 0 else 1 + WordRun(s[1..])
  }

  /** The token at the front of `s` and its length; a word other than
      `true` or `false` is an undeclared name (or a number, or another
      keyword) and any other character is outside the language. */
  function NextToken(s: string): (r: Result<(Token, nat)>)
    requires s != []
    ensures r.Ok? ==> 0 < r.value.1 <= |s|
  {
    if s[0] == '(' then Ok((TOpen, 1))
    else if s[0] == ')' then Ok((TClose, 1))
    else if |s| >= 2 && s[0] == '&' && s[1] == '&' then Ok((TAnd, 2))
    else if |s| >= 2 && s[0] == '|' && s[1] == '|' then Ok((TOr, 2))
    else if IsWordChar(s[0]) then
      var n := WordRun(s);
      if s[..n] == "true" then Ok((TTrue, n))
      else if s[..n] == "false" then Ok((TFalse, n))
      else Err(ReferenceError)
    else Err(SyntaxError)
  }

  /** The tokens of `s`, white space between them skipped. */
  function Lex(s: string): Result<seq<Token>>
    decreases |s|
  {
    if s == [] then Ok([])
    else if IsWhite(s[0]) then Lex(s[1..])
    else
      var (t, n) :- NextToken(s);
      var rest :- Lex(s[n..]);
      Ok([t] + rest)
  }

  // ---------------------------------------------------------------------
  // the parser: Or := And ('||' And)*, And := Atom ('&&' Atom)*,
  // Atom := 'true' | 'false' | '(' Or ')'

  function ParseOr(ts: seq<Token>): (r: Result<(Expr, seq<Token>)>)
    ensures r.Ok? ==> |r.value.1| < |ts|
    decreases |ts|, 3
  {
    var (l, rest) :- ParseAnd(ts);
    OrTail(l, rest)
  }

  function OrTail(l: Expr, ts: seq<Token>): (r: Result<(Expr, seq<Token>)>)
    ensures r.Ok? ==> |r.value.1| <= |ts|
    decreases |ts|, 4
  {
    if ts != [] && ts[0] == TOr then
      var (right, rest) :- ParseAnd(ts[1..]);
      OrTail(Either(l, right), rest)
    else Ok((l, ts))
  }

  function ParseAnd(ts: seq<Token>): (r: Result<(Expr, seq<Token>)>)
    ensures r.Ok? ==> |r.value.1| < |ts|
    decreases |ts|, 2
  {
    var (l, rest) :- ParseAtom(ts);
    AndTail(l, rest)
  }

  function AndTail(l: Expr, ts: seq<Token>): (r: Result<(Expr, seq<Token>)>)
    ensures r.Ok? ==> |r.value.1| <= |ts|
    decreases |ts|, 4
  {
    if ts != [] && ts[0] == TAnd then
      var (right, rest) :- ParseAtom(ts[1..]);
      AndTail(Both(l, right), rest)
    else Ok((l, ts))
  }

  function ParseAtom(ts: seq<Token>): (r: Result<(Expr, seq<Token>)>)
    ensures r.Ok? ==> |r.value.1| < |ts|
    decreases |ts|, 1
  {
    if ts == [] then Err(SyntaxError)
    else if ts[0] == TTrue then Ok((Lit(true), ts[1..]))
    else if ts[0] == TFalse then Ok((Lit(false), ts[1..]))
    else if ts[0] == TOpen then
      var (e, rest) :- ParseOr(ts[1..]);
      if rest != [] && rest[0] == TClose then Ok((e, rest[1..])) else Err(SyntaxError)
    else Err(SyntaxError)
  }

  /** A whole program: no tokens is the empty program (undefined), and
      tokens left over are a syntax error. */
  function Parse(ts: seq<Token>): Result<Option<Expr>> {
    if ts == [] then Ok(None)
    else
      var (e, rest) :- ParseOr(ts);
      if rest == [] then Ok(Some(e)) else Err(SyntaxError)
  }

  /** `eval(formula)`: `None` is undefined. */
  function Eval(formula: string): Result<Option<bool>> {
    var ts :- Lex(formula);
    var e :- Parse(ts);
    Ok(if e.None? then None else Some(Value(e.value)))
  }

  // ---------------------------------------------------------------------
  // printing, and the round trip

  /** An expression as tokens, every connective in parentheses. */
  function Render(e: Expr): seq<Token> {
    match e
    case Lit(b) => if b then [TTrue] else [TFalse]
    case Both(l, r) => [TOpen] + Render(l) + [TAnd] + Render(r) + [TClose]
    case Either(l, r) => [TOpen] + Render(l) + [TOr] + Render(r) + [TClose]
  }

  function TokenText(t: Token): string {
    match t
    case TTrue => "true"
    case TFalse => "false"
    case TAnd => "&&"
    case TOr => "||"
    case TOpen => "("
    case TClose => ")"
  }

  /** Tokens as text, each followed by a space. */
  function Show(ts: seq<Token>): string {
    if ts == [] then "" else TokenText(ts[0]) + " " + Show(ts[1..])
  }

  /** A rendered expression is one atom, whatever follows it. */
  lemma {:induction false} ParseAtomRender(e: Expr, rest: seq<Token>)
    ensures ParseAtom(Render(e) + rest) == Ok((e, rest))
  {
    match e
    case Lit(b) =>
      assert (Render(e) + rest)[1..] == rest;
    case Both(l, r) =>
      ParseAtomRender(l, [TAnd] + Render(r) + [TClose] + rest);
      ParseAtomRender(r, [TClose] + rest);
      ParenRender(TAnd, l, r, rest);
    case Either(l, r) =>
      ParseAtomRender(l, [TOr] + Render(r) + [TClose] + rest);
      ParseAtomRender(r, [TClose] + rest);
      ParenRender(TOr, l, r, rest);
  }

  lemma ParenRender(op: Token, l: Expr, r: Expr, rest: seq<Token>)
    requires op == TAnd || op == TOr
    requires ParseAtom(Render(l) + ([op] + Render(r) + [TClose] + rest)) == Ok((l, [op] + Render(r) + [TClose] + rest))
    requires ParseAtom(Render(r) + ([TClose] + rest)) == Ok((r, [TClose] + rest))
    ensures var e := if op == TAnd then Both(l, r) else Either(l, r);
            ParseAtom(Render(e) + rest) == Ok((e, rest))
  {
    ParenAtom(op, l, r, Render(l), Render(r), rest);
    ParenSplit(op, Render(l), Render(r), rest);
  }

  lemma ParenSplit(op: Token, lts: seq<Token>, rts: seq<Token>, rest: seq<Token>)
    ensures [TOpen] + lts + [op] + rts + [TClose] + rest == [TOpen] + (lts + ([op] + rts + [TClose] + rest))
  {
  }

  /** The connective of two atoms, in parentheses, is one atom. */
  lemma ParenAtom(op: Token, l: Expr, r: Expr, lts: seq<Token>, rts: seq<Token>, rest: seq<Token>)
    requires op == TAnd || op == TOr
    requires ParseAtom(lts + ([op] + rts + [TClose] + rest)) == Ok((l, [op] + rts + [TClose] + rest))
    requires ParseAtom(rts + ([TClose] + rest)) == Ok((r, [TClose] + rest))
    ensures ParseAtom([TOpen] + (lts + ([op] + rts + [TClose] + rest)))
            == Ok((if op == TAnd then Both(l, r) else Either(l, r), rest))
  {
    var closing := [TClose] + rest;
    var after := [op] + rts + [TClose] + rest;
    var inner := lts + after;
    assert after[1..] == rts + closing;
    if op == TAnd {
      BothInner(l, r, lts, after, rts + closing, closing);
    } else {
      EitherInner(l, r, lts, after, rts + closing, closing);
    }
    assert ([TOpen] + inner)[1..] == inner;
    assert closing[1..] == rest;
  }

  lemma BothInner(l: Expr, r: Expr, lts: seq<Token>, after: seq<Token>, right: seq<Token>, closing: seq<Token>)
    requires after != [] && after[0] == TAnd && after[1..] == right
    requires closing != [] && closing[0] == TClose
    requires ParseAtom(lts + after) == Ok((l, after))
    requires ParseAtom(right) == Ok((r, closing))
    ensures ParseOr(lts + after) == Ok((Both(l, r), closing))
  {
    assert AndTail(Both(l, r), closing) == Ok((Both(l, r), closing));
    assert AndTail(l, after) == Ok((Both(l, r), closing));
    assert ParseAnd(lts + after) == Ok((Both(l, r), closing));
    assert OrTail(Both(l, r), closing) == Ok((Both(l, r), closing));
  }

  lemma EitherInner(l: Expr, r: Expr, lts: seq<Token>, after: seq<Token>, right: seq<Token>, closing: seq<Token>)
    requires after != [] && after[0] == TOr && after[1..] == right
    requires closing != [] && closing[0] == TClose
    requires ParseAtom(lts + after) == Ok((l, after))
    requires ParseAtom(right) == Ok((r, closing))
    ensures ParseOr(lts + after) == Ok((Either(l, r), closing))
  {
    assert AndTail(l, after) == Ok((l, after));
    assert ParseAnd(lts + after) == Ok((l, after));
    assert AndTail(r, closing) == Ok((r, closing));
    assert ParseAnd(right) == Ok((r, closing));
    assert OrTail(Either(l, r), closing) == Ok((Either(l, r), closing));
    assert OrTail(l, after) == Ok((Either(l, r), closing));
  }

  /** The parser reads back what the printer wrote. */
  lemma ParseRender(e: Expr)
    ensures Parse(Render(e)) == Ok(Some(e))
  {
    ParseAtomRender(e, []);
    assert Render(e) + [] == Render(e);
    assert ParseAnd(Render(e)) == Ok((e, []));
    assert ParseOr(Render(e)) == Ok((e, []));
  }

  lemma {:induction false} WordRunOf(w: string, rest: string)
    requires forall i :: 0 <= i < |w| ==> IsWordChar(w[i])
    requires rest == [] || !IsWordChar(rest[0])
    ensures WordRun(w + rest) == |w|
    decreases |w|
  {
    if w == [] {
      assert w + rest == rest;
    } else {
      assert (w + rest)[1..] == w[1..] + rest;
      WordRunOf(w[1..], rest);
    }
  }

  /** A token's text is read back as that token when what follows does
      not continue a word. */
  lemma NextTokenText(t: Token, rest: string)
    requires rest == [] || !IsWordChar(rest[0])
    ensures NextToken(TokenText(t) + rest) == Ok((t, |TokenText(t)|))
  {
    var w := TokenText(t);
    var s := w + rest;
    assert s[0] == w[0];
    if t == TTrue || t == TFalse {
      WordRunOf(w, rest);
      assert s[..|w|] == w;
    } else if t == TAnd || t == TOr {
      assert s[1] == w[1];
    }
  }

  lemma LexToken(t: Token, rest: string)
    requires rest == [] || !IsWordChar(rest[0])
    requires Lex(rest).Ok?
    ensures Lex(TokenText(t) + rest) == Ok([t] + Lex(rest).value)
  {
    var s := TokenText(t) + rest;
    NextTokenText(t, rest);
    assert s[|TokenText(t)|..] == rest;
  }

  lemma LexSpace(rest: string)
    ensures Lex(" " + rest) == Lex(rest)
  {
    assert (" " + rest)[1..] == rest;
  }

  /** The lexer reads back the printed tokens. */
  lemma {:induction false} LexShow(ts: seq<Token>)
    ensures Lex(Show(ts)) == Ok(ts)
  {
    if ts != [] {
      LexShow(ts[1..]);
      LexSpaced(ts[0], Show(ts[1..]));
      assert [ts[0]] + ts[1..] == ts;
    }
  }

  /** Printing an expression and evaluating the text gives its value. */
  lemma EvalShowRender(e: Expr)
    ensures Eval(Show(Render(e))) == Ok(Some(Value(e)))
  {
    LexShow(Render(e));
    ParseRender(e);
  }

  /** White space alone evaluates to undefined, so a rule whose formula
      resolves to nothing takes its `else` branch. */
  lemma {:induction false} BlankIsUndefined(s: string)
    requires forall i :: 0 <= i < |s| ==> IsWhite(s[i])
    ensures Eval(s) == Ok(None)
  {
    BlankLexesEmpty(s);
  }

  lemma {:induction false} BlankLexesEmpty(s: string)
    requires forall i :: 0 <= i < |s| ==> IsWhite(s[i])
    ensures Lex(s) == Ok([])
    decreases |s|
  {
    if s != [] {
      BlankLexesEmpty(s[1..]);
    }
  }

  /** Two expressions side by side, with no connective between them, are
      not a program: the first is parsed and the second is left over.
      `true false` is the smallest case. */
  lemma AdjacentLiteralsFail(a: Expr, b: Expr, rest: seq<Token>)
    ensures Parse(Render(a) + Render(b) + rest) == Err(SyntaxError)
    ensures Eval(Show(Render(a) + Render(b))) == Err(SyntaxError)
  {
    AdjacentParse(a, b, rest);
    AdjacentParse(a, b, []);
    assert Render(a) + Render(b) + [] == Render(a) + Render(b);
    LexShow(Render(a) + Render(b));
  }

  lemma AdjacentParse(a: Expr, b: Expr, rest: seq<Token>)
    ensures Parse(Render(a) + Render(b) + rest) == Err(SyntaxError)
  {
    var after := Render(b) + rest;
    assert Render(a) + Render(b) + rest == Render(a) + after;
    ParseAtomRender(a, after);
    RenderStart(b);
    assert after[0] == Render(b)[0];
    assert AndTail(a, after) == Ok((a, after));
    assert ParseAnd(Render(a) + after) == Ok((a, after));
    assert OrTail(a, after) == Ok((a, after));
  }

  /** A rendered expression starts with a literal or an opening
      parenthesis. */
  lemma RenderStart(e: Expr)
    ensures Render(e) != [] && Render(e)[0] in {TTrue, TFalse, TOpen}
  {
  }

  function LitToken(b: bool): Token {
    if b then TTrue else TFalse
  }

  /** The resolution of `A AND B` and of `A OR B`, two literals joined by a
      connective between spaces, is the conjunction or the disjunction of
      the two; with `A` true and `B` false, `A AND B` takes the rule's
      `else` branch. */
  lemma EvalConnective(a: bool, b: bool)
    ensures Eval(TokenText(LitToken(a)) + " && " + TokenText(LitToken(b))) == Ok(Some(a && b))
    ensures Eval(TokenText(LitToken(a)) + " || " + TokenText(LitToken(b))) == Ok(Some(a || b))
  {
    var wa, wb := TokenText(LitToken(a)), TokenText(LitToken(b));
    assert Joined(a, TAnd, b) == wa + " && " + wb;
    assert Joined(a, TOr, b) == wa + " || " + wb;
    EvalJoined(a, b, TAnd);
    EvalJoined(a, b, TOr);
  }

  /** Two literals with a connective between them, spaced. */
  function Joined(a: bool, op: Token, b: bool): string {
    TokenText(LitToken(a)) + " " + TokenText(op) + " " + TokenText(LitToken(b))
  }

  lemma EvalJoined(a: bool, b: bool, op: Token)
    requires op == TAnd || op == TOr
    ensures Eval(Joined(a, op, b)) == Ok(Some(if op == TAnd then a && b else a || b))
  {
    LexJoined(a, b, op);
    ParseJoined(a, b, op);
    assert Value(if op == TAnd then Both(Lit(a), Lit(b)) else Either(Lit(a), Lit(b)))
           == if op == TAnd then a && b else a || b;
  }

  lemma LexJoined(a: bool, b: bool, op: Token)
    requires op == TAnd || op == TOr
    ensures Lex(Joined(a, op, b)) == Ok([LitToken(a), op, LitToken(b)])
  {
    var tail := TokenText(op) + " " + TokenText(LitToken(b));
    LexConnective(op, b);
    LexSpaced(LitToken(a), tail);
    assert [LitToken(a)] + [op, LitToken(b)] == [LitToken(a), op, LitToken(b)];
    JoinedParts(a, op, b);
  }

  lemma JoinedParts(a: bool, op: Token, b: bool)
    ensures Joined(a, op, b) == TokenText(LitToken(a)) + " " + (TokenText(op) + " " + TokenText(LitToken(b)))
  {
  }

  /** A connective, a space and a literal. */
  lemma LexConnective(op: Token, b: bool)
    requires op == TAnd || op == TOr
    ensures Lex(TokenText(op) + " " + TokenText(LitToken(b))) == Ok([op, LitToken(b)])
  {
    LexLiteral(b);
    LexSpaced(op, TokenText(LitToken(b)));
    assert [op] + [LitToken(b)] == [op, LitToken(b)];
  }

  lemma LexLiteral(b: bool)
    ensures Lex(TokenText(LitToken(b))) == Ok([LitToken(b)])
  {
    var w := TokenText(LitToken(b));
    LexToken(LitToken(b), []);
    assert w + [] == w;
    assert Lex([]) == Ok([]);
    assert [LitToken(b)] + [] == [LitToken(b)];
  }

  /** A token, a space, and text that lexes. */
  lemma LexSpaced(t: Token, rest: string)
    requires Lex(rest).Ok?
    ensures Lex(TokenText(t) + " " + rest) == Ok([t] + Lex(rest).value)
  {
    LexSpace(rest);
    assert (" " + rest)[0] == ' ';
    LexToken(t, " " + rest);
    assert TokenText(t) + " " + rest == TokenText(t) + (" " + rest);
  }

  lemma ParseJoined(a: bool, b: bool, op: Token)
    requires op == TAnd || op == TOr
    ensures Parse([LitToken(a), op, LitToken(b)])
            == Ok(Some(if op == TAnd then Both(Lit(a), Lit(b)) else Either(Lit(a), Lit(b))))
  {
    var ts := [LitToken(a), op, LitToken(b)];
    var t1, t2 := [op, LitToken(b)], [LitToken(b)];
    var la, lb := Lit(a), Lit(b);
    assert ts[1..] == t1 && t1[1..] == t2 && t2[1..] == [];
    assert ParseAtom(ts) == Ok((la, t1));
    assert ParseAtom(t2) == Ok((lb, []));
    if op == TAnd {
      assert AndTail(la, t1) == Ok((Both(la, lb), []));
      assert ParseOr(ts) == Ok((Both(la, lb), []));
    } else {
      assert AndTail(la, t1) == Ok((la, t1));
      assert ParseAnd(t2) == Ok((lb, []));
      assert OrTail(la, t1) == Ok((Either(la, lb), []));
      assert ParseOr(ts) == Ok((Either(la, lb), []));
    }
  }
}
