/**
 * `Q.parse`: the query language `&` (AND), `|` (OR), prefix `~` (NOT) and
 * parentheses over key literals, with insignificant whitespace. `~` binds
 * tighter than `&`, which binds tighter than `|`; chains group to the left.
 *
 *   or   = and ('|' and)*
 *   and  = not ('&' not)*
 *   not  = '~' not | '(' or ')' | key
 *   key  = one or more characters that are neither whitespace nor operators
 *
 * The text is first split into tokens; the grammar is then read off the tokens.
 */
module QueryParser {
  import opened Wrappers
  import opened Query

  predicate IsSpace(c: char) {
    c == ' ' || c == '\t' || c == '\n' || c == '\r'
  }

  predicate IsOperator(c: char) {
    c == '&' || c == '|' || c == '~' || c == '(' || c == ')'
  }

  predicate IsKeyChar(c: char) {
    !IsSpace(c) && !IsOperator(c)
  }

  predicate AllSpace(w: string) {
    forall i :: 0 <= i < |w| ==> IsSpace(w[i])
  }

  /** A key the language can spell: non-empty, no whitespace, no operator. */
  predicate IsKeyWord(k: string) {
    k != [] && forall i :: 0 <= i < |k| ==> IsKeyChar(k[i])
  }

  /** Every literal of the query is spellable. */
  predicate WellFormed(q: Query) {
    match q
    case Lit(k) => IsKeyWord(k)
    case And(a, b) => WellFormed(a) && WellFormed(b)
    case Or(a, b) => WellFormed(a) && WellFormed(b)
    case Not(a) => WellFormed(a)
  }

  // ---------------------------------------------------------------------------
  // Tokens

  datatype Token = KeyTok(key: string) | AndTok | OrTok | NotTok | Open | Close

  function OperatorToken(c: char): Token
    requires IsOperator(c)
  {
    match c
    case '&' => AndTok
    case '|' => OrTok
    case '~' => NotTok
    case '(' => Open
    case _ => Close
  }

  /** Length of the key `s` starts with. */
  function KeyRun(s: string): (n: nat)
    ensures n <= |s|
  {
    if s != [] && IsKeyChar(s[0]) then 1 + KeyRun(s[1..]) else 0
  }

  /** Splits a query text into tokens; whitespace only separates. */
  function Tokenize(s: string): (r: seq<Token>)
    ensures |r| <= |s|
    decreases |s|
  {
    if s == [] then []
    else if IsSpace(s[0]) then Tokenize(s[1..])
    else if IsOperator(s[0]) then [OperatorToken(s[0])] + Tokenize(s[1..])
    else
      var n := KeyRun(s);
      assert n > 0;
      [KeyTok(s[..n])] + Tokenize(s[n..])
  }

  // ---------------------------------------------------------------------------
  // Grammar

  /** A parsed query and the tokens left after it. */
  datatype Parsed = Parsed(q: Query, rest: seq<Token>)

  function ParseOr(ts: seq<Token>): (r: Result<Parsed>)
    ensures r.Ok? ==> |r.value.rest| < |ts|
    decreases |ts|, 2
  {
    match ParseAnd(ts)
    case Err(e) => Err(e)
    case Ok(p) => OrTail(p.q, p.rest)
  }

  function OrTail(lhs: Query, ts: seq<Token>): (r: Result<Parsed>)
    ensures r.Ok? ==> |r.value.rest| <= |ts|
    decreases |ts|, 3
  {
    if ts != [] && ts[0] == OrTok then
      match ParseAnd(ts[1..])
      case Err(e) => Err(e)
      case Ok(p) => OrTail(Or(lhs, p.q), p.rest)
    else Ok(Parsed(lhs, ts))
  }

  function ParseAnd(ts: seq<Token>): (r: Result<Parsed>)
    ensures r.Ok? ==> |r.value.rest| < |ts|
    decreases |ts|, 1
  {
    match ParseNot(ts)
    case Err(e) => Err(e)
    case Ok(p) => AndTail(p.q, p.rest)
  }

  function AndTail(lhs: Query, ts: seq<Token>): (r: Result<Parsed>)
    ensures r.Ok? ==> |r.value.rest| <= |ts|
    decreases |ts|, 3
  {
    if ts != [] && ts[0] == AndTok then
      match ParseNot(ts[1..])
      case Err(e) => Err(e)
      case Ok(p) => AndTail(And(lhs, p.q), p.rest)
    else Ok(Parsed(lhs, ts))
  }

  function ParseNot(ts: seq<Token>): (r: Result<Parsed>)
    ensures r.Ok? ==> |r.value.rest| < |ts|
    decreases |ts|, 0
  {
    if ts == [] then Err(QuerySyntaxError)
    else
      match ts[0]
      case NotTok =>
        (match ParseNot(ts[1..])
         case Err(e) => Err(e)
         case Ok(p) => Ok(Parsed(Not(p.q), p.rest)))
      case Open =>
        (match ParseOr(ts[1..])
         case Err(e) => Err(e)
         case Ok(p) =>
           if p.rest != [] && p.rest[0] == Close then Ok(Parsed(p.q, p.rest[1..]))
           else Err(QuerySyntaxError))
      case KeyTok(k) => Ok(Parsed(Lit(k), ts[1..]))
      case _ => Err(QuerySyntaxError)
  }

  /**
   * `Q.parse(s)`: the whole text must be one query; an operator out of place,
   * an unbalanced parenthesis or anything left over is a QuerySyntaxError.
   */
  function Parse(s: string): (r: Result<Query>)
    ensures r.Err? ==> r.error == QuerySyntaxError
  {
    match ParseOr(Tokenize(s))
    case Err(_) => Err(QuerySyntaxError)
    case Ok(p) => if p.rest == [] then Ok(p.q) else Err(QuerySyntaxError)
  }

  /** The text of a query, every AND and OR parenthesised. */
  function Show(q: Query): string {
    match q
    case Lit(k) => k
    case And(a, b) => "(" + Show(a) + " & " + Show(b) + ")"
    case Or(a, b) => "(" + Show(a) + " | " + Show(b) + ")"
    case Not(a) => "~" + Show(a)
  }

  /** The tokens of Show(q). */
  function ShowTokens(q: Query): seq<Token> {
    match q
    case Lit(k) => [KeyTok(k)]
    case And(a, b) => [Open] + ShowTokens(a) + [AndTok] + ShowTokens(b) + [Close]
    case Or(a, b) => [Open] + ShowTokens(a) + [OrTok] + ShowTokens(b) + [Close]
    case Not(a) => [NotTok] + ShowTokens(a)
  }

  // ---------------------------------------------------------------------------
  // Tokenizer lemmas

  /** `s` cannot continue a key that precedes it. */
  predicate Boundary(s: string) {
    s == [] || !IsKeyChar(s[0])
  }

  lemma {:induction false} KeyRunAppend(a: string, b: string)
    requires Boundary(b)
    ensures KeyRun(a + b) == KeyRun(a)
    decreases |a|
  {
    if a != [] && IsKeyChar(a[0]) {
      assert (a + b)[1..] == a[1..] + b;
      KeyRunAppend(a[1..], b);
    }
  }

  /** A text ending where `b` begins tokenizes on its own: keys never run across the seam. */
  lemma {:induction false} TokenizeAppend(a: string, b: string)
    requires Boundary(b)
    ensures Tokenize(a + b) == Tokenize(a) + Tokenize(b)
    decreases |a|
  {
    if a == [] {
      assert a + b == b;
    } else if IsSpace(a[0]) || IsOperator(a[0]) {
      assert (a + b)[1..] == a[1..] + b;
      TokenizeAppend(a[1..], b);
    } else {
      var n := KeyRun(a);
      KeyRunAppend(a, b);
      assert (a + b)[..n] == a[..n];
      assert (a + b)[n..] == a[n..] + b;
      TokenizeAppend(a[n..], b);
    }
  }

  lemma {:induction false} KeyRunChars(s: string)
    ensures forall i :: 0 <= i < KeyRun(s) ==> IsKeyChar(s[i])
    decreases |s|
  {
    if s != [] && IsKeyChar(s[0]) {
      KeyRunChars(s[1..]);
      assert forall i :: 1 <= i < KeyRun(s) ==> s[i] == s[1..][i - 1];
    }
  }

  /** Every key token the tokenizer emits is a key the language can spell. */
  lemma {:induction false} TokenKeysWellFormed(s: string)
    ensures forall i :: 0 <= i < |Tokenize(s)| && Tokenize(s)[i].KeyTok? ==> IsKeyWord(Tokenize(s)[i].key)
    decreases |s|
  {
    if s == [] {
    } else if IsSpace(s[0]) {
      TokenKeysWellFormed(s[1..]);
    } else if IsOperator(s[0]) {
      TokenKeysWellFormed(s[1..]);
      assert forall i :: 1 <= i < |Tokenize(s)| ==> Tokenize(s)[i] == Tokenize(s[1..])[i - 1];
    } else {
      var n := KeyRun(s);
      KeyRunChars(s);
      TokenKeysWellFormed(s[n..]);
      assert Tokenize(s)[0] == KeyTok(s[..n]);
      assert forall i :: 1 <= i < |Tokenize(s)| ==> Tokenize(s)[i] == Tokenize(s[n..])[i - 1];
    }
  }

  lemma {:induction false} KeyRunOfKey(k: string)
    requires forall i :: 0 <= i < |k| ==> IsKeyChar(k[i])
    ensures KeyRun(k) == |k|
    decreases |k|
  {
    if k != [] {
      KeyRunOfKey(k[1..]);
    }
  }

  /** A key word is one key token. */
  lemma KeyTokenize(k: string)
    requires IsKeyWord(k)
    ensures Tokenize(k) == [KeyTok(k)]
  {
    KeyRunOfKey(k);
    assert k[..|k|] == k;
    assert k[|k|..] == [];
  }

  lemma {:induction false} SpacesTokenize(w: string, s: string)
    requires AllSpace(w)
    ensures Tokenize(w + s) == Tokenize(s)
    decreases |w|
  {
    if w == [] {
      assert w + s == s;
    } else {
      assert (w + s)[1..] == w[1..] + s;
      SpacesTokenize(w[1..], s);
    }
  }

  /** An operator with whitespace on either side is one operator token. */
  lemma SeparatorTokenize(w1: string, op: char, w2: string, s: string)
    requires AllSpace(w1) && IsOperator(op) && AllSpace(w2)
    ensures Tokenize(w1 + [op] + w2 + s) == [OperatorToken(op)] + Tokenize(s)
  {
    assert w1 + [op] + w2 + s == w1 + ([op] + (w2 + s));
    SpacesTokenize(w1, [op] + (w2 + s));
    assert ([op] + (w2 + s))[1..] == w2 + s;
    SpacesTokenize(w2, s);
  }

  /** The text of a query splits into the tokens of the query. */
  lemma {:induction false} TokenizeShow(q: Query)
    requires WellFormed(q)
    ensures Tokenize(Show(q)) == ShowTokens(q)
  {
    match q
    case Lit(k) =>
      KeyTokenize(k);
    case Not(a) =>
      assert Show(q) == ['~'] + Show(a);
      assert (['~'] + Show(a))[1..] == Show(a);
      TokenizeShow(a);
    case And(a, b) =>
      TokenizeShow(a);
      TokenizeShow(b);
      BinaryTokenize(Show(a), '&', Show(b), ShowTokens(a), ShowTokens(b));
    case Or(a, b) =>
      TokenizeShow(a);
      TokenizeShow(b);
      BinaryTokenize(Show(a), '|', Show(b), ShowTokens(a), ShowTokens(b));
  }

  lemma OpenTokenize(s: string)
    ensures Tokenize(['('] + s) == [Open] + Tokenize(s)
  {
    assert (['('] + s)[1..] == s;
  }

  /** ` op b)` tokenizes as the operator, the tokens of `b`, then `)`. */
  lemma OperandTokenize(op: char, b: string, tb: seq<Token>)
    requires IsOperator(op) && Tokenize(b) == tb
    ensures Tokenize([' ', op, ' '] + (b + ")")) == [OperatorToken(op)] + (tb + [Close])
  {
    assert [' ', op, ' '] + (b + ")") == [' '] + [op] + [' '] + (b + ")");
    SeparatorTokenize([' '], op, [' '], b + ")");
    TokenizeAppend(b, ")");
    assert Tokenize(")") == [Close];
  }

  /** `(a op b)` tokenizes as `(`, the tokens of `a`, the operator, those of `b`, `)`. */
  lemma BinaryTokenize(a: string, op: char, b: string, ta: seq<Token>, tb: seq<Token>)
    requires IsOperator(op) && Tokenize(a) == ta && Tokenize(b) == tb
    ensures Tokenize("(" + a + [' ', op, ' '] + b + ")") == [Open] + ta + [OperatorToken(op)] + tb + [Close]
  {
    var sop := [' ', op, ' '] + (b + ")");
    BinaryShape(a, op, b);
    OpenTokenize(a + sop);
    TokenizeAppend(a, sop);
    OperandTokenize(op, b, tb);
    TokensShape(ta, OperatorToken(op), tb);
  }

  lemma BinaryShape(a: string, op: char, b: string)
    ensures "(" + a + [' ', op, ' '] + b + ")" == ['('] + (a + ([' ', op, ' '] + (b + ")")))
  {
  }

  lemma TokensShape(ta: seq<Token>, t: Token, tb: seq<Token>)
    ensures [Open] + (ta + ([t] + (tb + [Close]))) == [Open] + ta + [t] + tb + [Close]
  {
  }

  // ---------------------------------------------------------------------------
  // Parser lemmas

  /** The tokens of any query read back as one factor, whatever follows them. */
  lemma {:induction false} ParseShowTokens(q: Query, rest: seq<Token>)
    ensures ParseNot(ShowTokens(q) + rest) == Ok(Parsed(q, rest))
    decreases q, 1
  {
    var ts := ShowTokens(q) + rest;
    match q
    case Lit(k) =>
      assert ts[0] == KeyTok(k) && ts[1..] == rest;
    case Not(a) =>
      assert ts[0] == NotTok && ts[1..] == ShowTokens(a) + rest;
      ParseShowTokens(a, rest);
    case And(a, b) =>
      var r2 := [Close] + rest;
      var r1 := [AndTok] + (ShowTokens(b) + r2);
      assert ts == [Open] + (ShowTokens(a) + r1);
      assert ts[1..] == ShowTokens(a) + r1;
      ParseShowTokens(a, r1);
      assert r1[1..] == ShowTokens(b) + r2;
      ParseShowTokens(b, r2);
      assert AndTail(a, r1) == Ok(Parsed(And(a, b), r2));
      assert ParseOr(ts[1..]) == Ok(Parsed(And(a, b), r2));
      ParenParses(ts, And(a, b), rest);
    case Or(a, b) =>
      var r2 := [Close] + rest;
      var r1 := [OrTok] + (ShowTokens(b) + r2);
      assert ts == [Open] + (ShowTokens(a) + r1);
      assert ts[1..] == ShowTokens(a) + r1;
      FactorParsesAsTerm(a, r1);
      assert r1[1..] == ShowTokens(b) + r2;
      FactorParsesAsTerm(b, r2);
      assert OrTail(a, r1) == Ok(Parsed(Or(a, b), r2));
      assert ParseOr(ts[1..]) == Ok(Parsed(Or(a, b), r2));
      ParenParses(ts, Or(a, b), rest);
  }

  /** A parenthesised expression followed by `)` reads back as one factor. */
  lemma ParenParses(ts: seq<Token>, q: Query, rest: seq<Token>)
    requires ts != [] && ts[0] == Open
    requires ParseOr(ts[1..]) == Ok(Parsed(q, [Close] + rest))
    ensures ParseNot(ts) == Ok(Parsed(q, rest))
  {
    assert ([Close] + rest)[1..] == rest;
  }

  /** Followed by anything but `&`, the tokens of a query read back as a whole AND-term. */
  lemma {:induction false} FactorParsesAsTerm(q: Query, rest: seq<Token>)
    requires rest == [] || rest[0] != AndTok
    ensures ParseAnd(ShowTokens(q) + rest) == Ok(Parsed(q, rest))
    decreases q, 2
  {
    ParseShowTokens(q, rest);
  }

  /** Printing a well-formed query and parsing the text gives the query back. */
  lemma ParseShow(q: Query)
    requires WellFormed(q)
    ensures Parse(Show(q)) == Ok(q)
  {
    TokenizeShow(q);
    assert ShowTokens(q) + [] == ShowTokens(q);
    FactorParsesAsTerm(q, []);
    assert OrTail(q, []) == Ok(Parsed(q, []));
    assert ParseOr(ShowTokens(q)) == Ok(Parsed(q, []));
  }

  /** A text ending in a dangling `&` or `|` is rejected. */
  lemma DanglingOperatorRejected(q: Query, op: char)
    requires WellFormed(q) && (op == '&' || op == '|')
    ensures Parse(Show(q) + [op]) == Err(QuerySyntaxError)
  {
    var t := OperatorToken(op);
    TokenizeAppend(Show(q), [op]);
    TokenizeShow(q);
    assert Tokenize([op]) == [t];
    var ts := ShowTokens(q) + [t];
    ParseShowTokens(q, [t]);
    assert [t][1..] == [];
    if op == '&' {
      assert AndTail(q, [t]).Err?;
      assert ParseAnd(ts).Err?;
    } else {
      assert AndTail(q, [t]) == Ok(Parsed(q, [t]));
      assert OrTail(q, [t]).Err?;
    }
    assert ParseOr(ts).Err?;
  }

  /** A text opening a parenthesis it never closes is rejected. */
  lemma UnclosedParenthesisRejected(q: Query)
    requires WellFormed(q)
    ensures Parse("(" + Show(q)) == Err(QuerySyntaxError)
  {
    TokenizeShow(q);
    assert ("(" + Show(q))[1..] == Show(q);
    assert Tokenize("(" + Show(q)) == [Open] + ShowTokens(q);
    assert ShowTokens(q) + [] == ShowTokens(q);
    FactorParsesAsTerm(q, []);
    assert OrTail(q, []) == Ok(Parsed(q, []));
    assert ParseOr(ShowTokens(q)) == Ok(Parsed(q, []));
    var ts := [Open] + ShowTokens(q);
    assert ts[1..] == ShowTokens(q);
    assert ParseNot(ts).Err?;
    assert ParseAnd(ts).Err?;
  }

  /** Text holding nothing but whitespace is rejected. */
  lemma BlankRejected(w: string)
    requires AllSpace(w)
    ensures Parse(w) == Err(QuerySyntaxError)
  {
    SpacesTokenize(w, []);
    assert w + [] == w;
  }

  // ---------------------------------------------------------------------------
  // Flat chains: `q0 & q1 & ... & qn` and `q0 | q1 | ... | qn`

  /** Each of `qs` preceded by the separator `sep`. */
  function SepRest(qs: seq<Query>, sep: string): string
    decreases |qs|
  {
    if qs == [] then "" else sep + Show(qs[0]) + SepRest(qs[1..], sep)
  }

  /** The terms of `qs` joined by `sep`. */
  function ChainText(qs: seq<Query>, sep: string): string
    requires qs != []
  {
    Show(qs[0]) + SepRest(qs[1..], sep)
  }

  /** Each of `qs`'s tokens preceded by the operator token `op`. */
  function TailTokens(op: Token, qs: seq<Query>): seq<Token>
    decreases |qs|
  {
    if qs == [] then [] else [op] + ShowTokens(qs[0]) + TailTokens(op, qs[1..])
  }

  predicate AllWellFormed(qs: seq<Query>) {
    forall i :: 0 <= i < |qs| ==> WellFormed(qs[i])
  }

  lemma AllWellFormedTail(qs: seq<Query>)
    requires qs != [] && AllWellFormed(qs)
    ensures WellFormed(qs[0]) && AllWellFormed(qs[1..])
  {
    forall i | 0 <= i < |qs[1..]| ensures WellFormed(qs[1..][i]) {
      assert qs[1..][i] == qs[i + 1];
    }
  }

  /** What follows a term in a chain starts with a space or the operator. */
  lemma SepRestBoundary(qs: seq<Query>, w1: string, op: char, w2: string)
    requires AllSpace(w1) && IsOperator(op)
    ensures Boundary(SepRest(qs, w1 + [op] + w2))
  {
    if qs != [] {
      assert SepRest(qs, w1 + [op] + w2) == w1 + [op] + w2 + (Show(qs[0]) + SepRest(qs[1..], w1 + [op] + w2));
      assert SepRest(qs, w1 + [op] + w2)[0] == if w1 == [] then op else w1[0];
    }
  }

  lemma {:induction false} TokenizeSepRest(qs: seq<Query>, w1: string, op: char, w2: string)
    requires AllWellFormed(qs) && AllSpace(w1) && IsOperator(op) && AllSpace(w2)
    ensures Tokenize(SepRest(qs, w1 + [op] + w2)) == TailTokens(OperatorToken(op), qs)
    decreases |qs|
  {
    var sep := w1 + [op] + w2;
    if qs != [] {
      var tail := SepRest(qs[1..], sep);
      AllWellFormedTail(qs);
      TokenizeSepRest(qs[1..], w1, op, w2);
      SepRestBoundary(qs[1..], w1, op, w2);
      assert SepRest(qs, sep) == w1 + [op] + w2 + (Show(qs[0]) + tail);
      SeparatorTokenize(w1, op, w2, Show(qs[0]) + tail);
      TokenizeAppend(Show(qs[0]), tail);
      TokenizeShow(qs[0]);
    }
  }


  lemma {:induction false} TokenizeChain(qs: seq<Query>, w1: string, op: char, w2: string)
    requires qs != [] && AllWellFormed(qs) && AllSpace(w1) && IsOperator(op) && AllSpace(w2)
    ensures Tokenize(ChainText(qs, w1 + [op] + w2))
         == ShowTokens(qs[0]) + TailTokens(OperatorToken(op), qs[1..])
  {
    AllWellFormedTail(qs);
    TokenizeSepRest(qs[1..], w1, op, w2);
    SepRestBoundary(qs[1..], w1, op, w2);
    TokenizeAppend(Show(qs[0]), SepRest(qs[1..], w1 + [op] + w2));
    TokenizeShow(qs[0]);
  }

  lemma {:induction false} AndTailChain(lhs: Query, qs: seq<Query>, rest: seq<Token>)
    requires rest == [] || rest[0] != AndTok
    ensures AndTail(lhs, TailTokens(AndTok, qs) + rest) == Ok(Parsed(AndFrom(lhs, qs), rest))
    decreases |qs|
  {
    if qs != [] {
      var after := TailTokens(AndTok, qs[1..]) + rest;
      var ts := TailTokens(AndTok, qs) + rest;
      assert ts == [AndTok] + (ShowTokens(qs[0]) + after);
      assert ts[1..] == ShowTokens(qs[0]) + after;
      ParseShowTokens(qs[0], after);
      AndTailChain(And(lhs, qs[0]), qs[1..], rest);
    } else {
      assert TailTokens(AndTok, qs) + rest == rest;
    }
  }

  lemma {:induction false} OrTailChain(lhs: Query, qs: seq<Query>, rest: seq<Token>)
    requires rest == [] || (rest[0] != AndTok && rest[0] != OrTok)
    ensures OrTail(lhs, TailTokens(OrTok, qs) + rest) == Ok(Parsed(OrFrom(lhs, qs), rest))
    decreases |qs|
  {
    if qs != [] {
      var after := TailTokens(OrTok, qs[1..]) + rest;
      var ts := TailTokens(OrTok, qs) + rest;
      assert ts == [OrTok] + (ShowTokens(qs[0]) + after);
      assert ts[1..] == ShowTokens(qs[0]) + after;
      assert after == [] || after[0] != AndTok;
      FactorParsesAsTerm(qs[0], after);
      OrTailChain(Or(lhs, qs[0]), qs[1..], rest);
    } else {
      assert TailTokens(OrTok, qs) + rest == rest;
    }
  }

  /**
   * `q0 & q1 & ... & qn`, with any whitespace around the `&`s, parses as the
   * left-grouped AND of the terms.
   */
  lemma ParseAndChain(qs: seq<Query>, w1: string, w2: string)
    requires qs != [] && AllWellFormed(qs) && AllSpace(w1) && AllSpace(w2)
    ensures Parse(ChainText(qs, w1 + "&" + w2)) == Ok(AndOf(qs))
  {
    TokenizeChain(qs, w1, '&', w2);
    var tail := TailTokens(AndTok, qs[1..]);
    assert tail == [] || tail[0] == AndTok;
    ParseShowTokens(qs[0], tail);
    assert tail + [] == tail;
    AndTailChain(qs[0], qs[1..], []);
    var q := AndFrom(qs[0], qs[1..]);
    assert ParseAnd(ShowTokens(qs[0]) + tail) == Ok(Parsed(q, []));
    assert OrTail(q, []) == Ok(Parsed(q, []));
  }

  /**
   * `q0 | q1 | ... | qn`, with any whitespace around the `|`s, parses as the
   * left-grouped OR of the terms.
   */
  lemma ParseOrChain(qs: seq<Query>, w1: string, w2: string)
    requires qs != [] && AllWellFormed(qs) && AllSpace(w1) && AllSpace(w2)
    ensures Parse(ChainText(qs, w1 + "|" + w2)) == Ok(OrOf(qs))
  {
    TokenizeChain(qs, w1, '|', w2);
    var tail := TailTokens(OrTok, qs[1..]);
    assert tail == [] || tail[0] == OrTok;
    FactorParsesAsTerm(qs[0], tail);
    assert tail + [] == tail;
    OrTailChain(qs[0], qs[1..], []);
  }
}
