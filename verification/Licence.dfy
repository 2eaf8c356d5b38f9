// The licence check of the plugin build (supply_chain.py): SPDX licence expressions, parsed and evaluated in one pass
// over a shared cursor.
module Licence {
  import opened Prelude
  import opened Text

  type Token = string

  datatype LicenceError = EmptyExpression | UnexpectedEnd | Unbalanced | Trailing

  // ----- Tokens -----

  predicate IsParen(c: char) { c == '(' || c == ')' }

  /** `expression.replace("/", " OR ")`. */
  function SlashToOr(s: string): string
  {
    if s == "" then "" else (if s[0] == '/' then " OR " else [s[0]]) + SlashToOr(s[1..])
  }

  function Flush(word: string): seq<Token> { if word == "" then [] else [word] }

  /** Parentheses, and the longest runs of anything else that is not a space; `word` is the run so far. */
  function Scan(s: string, word: string): seq<Token>
    decreases s
  {
    if s == "" then Flush(word)
    else if IsSpace(s[0]) then Flush(word) + Scan(s[1..], "")
    else if IsParen(s[0]) then Flush(word) + [[s[0]]] + Scan(s[1..], "")
    else Scan(s[1..], word + [s[0]])
  }

  function Tokenize(expression: string): seq<Token>
  {
    Scan(SlashToOr(expression), "")
  }

  /** One character of `str.upper`, as far as it can produce a letter of AND, OR or WITH: the dotless i counts. */
  function UpperChar(c: char): char
  {
    if 'a' <= c <= 'z' then (c as int - 32) as char else if c == '\U{131}' then 'I' else c
  }

  predicate IsWord(token: Token, word: string)
  {
    |token| == |word| && forall i :: 0 <= i < |word| ==> UpperChar(token[i]) == word[i]
  }

  /** The next token is the given keyword, in any letter case. */
  predicate Next(ts: seq<Token>, word: string)
  {
    ts != [] && IsWord(ts[0], word)
  }

  // ----- The grammar -----

  datatype Expr = Id(name: string) | And(left: Expr, right: Expr) | Or(left: Expr, right: Expr)

  datatype Parsed = Parsed(expr: Expr, rest: seq<Token>)

  function ReadAtom(ts: seq<Token>): (r: Result<Parsed, LicenceError>)
    ensures r.Ok? ==> |r.value.rest| < |ts|
    decreases |ts|, 0
  {
    if ts == [] then Err(UnexpectedEnd)
    else if ts[0] == "(" then
      var inner :- ReadEither(ts[1..]);
      if inner.rest == [] then Err(UnexpectedEnd)
      else if inner.rest[0] != ")" then Err(Unbalanced)
      else Ok(Parsed(inner.expr, inner.rest[1..]))
    else if Next(ts[1..], "WITH") then
      if |ts| == 2 then Err(UnexpectedEnd) else Ok(Parsed(Id(ts[0] + " WITH " + ts[2]), ts[3..]))
    else Ok(Parsed(Id(ts[0]), ts[1..]))
  }

  function ReadBoth(ts: seq<Token>): (r: Result<Parsed, LicenceError>)
    ensures r.Ok? ==> |r.value.rest| < |ts|
    decreases |ts|, 1
  {
    var first :- ReadAtom(ts);
    ReadBothRest(first.expr, first.rest)
  }

  function ReadBothRest(left: Expr, ts: seq<Token>): (r: Result<Parsed, LicenceError>)
    ensures r.Ok? ==> |r.value.rest| <= |ts|
    decreases |ts|, 2
  {
    if !Next(ts, "AND") then Ok(Parsed(left, ts))
    else
      var more :- ReadAtom(ts[1..]);
      ReadBothRest(And(left, more.expr), more.rest)
  }

  function ReadEither(ts: seq<Token>): (r: Result<Parsed, LicenceError>)
    ensures r.Ok? ==> |r.value.rest| < |ts|
    decreases |ts|, 3
  {
    var first :- ReadBoth(ts);
    ReadEitherRest(first.expr, first.rest)
  }

  function ReadEitherRest(left: Expr, ts: seq<Token>): (r: Result<Parsed, LicenceError>)
    ensures r.Ok? ==> |r.value.rest| <= |ts|
    decreases |ts|, 4
  {
    if !Next(ts, "OR") then Ok(Parsed(left, ts))
    else
      var more :- ReadBoth(ts[1..]);
      ReadEitherRest(Or(left, more.expr), more.rest)
  }

  function WithoutPlus(name: string): string
  {
    if name != "" && name[|name| - 1] == '+' then name[..|name| - 1] else name
  }

  predicate Eval(expr: Expr, allowed: set<string>)
  {
    match expr
    case Id(name) => WithoutPlus(name) in allowed
    case And(left, right) => Eval(left, allowed) && Eval(right, allowed)
    case Or(left, right) => Eval(left, allowed) || Eval(right, allowed)
  }

  /** The grammar is read without the allowed set, the tree is evaluated with it. */
  function ParseAll(ts: seq<Token>): Result<Expr, LicenceError>
  {
    if ts == [] then Err(EmptyExpression)
    else
      var all :- ReadEither(ts);
      if all.rest == [] then Ok(all.expr) else Err(Trailing)
  }

  function Evaluated(parsed: Result<Expr, LicenceError>, allowed: set<string>): Result<bool, LicenceError>
  {
    match parsed
    case Ok(expr) => Ok(Eval(expr, allowed))
    case Err(error) => Err(error)
  }

  // ----- The parser of the source: one cursor, values computed on the way -----

  class Parser {
    const tokens: seq<Token>
    const allowed: set<string>
    var pos: nat

    constructor (tokens: seq<Token>, allowed: set<string>)
      ensures this.tokens == tokens && this.allowed == allowed && pos == 0
    {
      this.tokens := tokens;
      this.allowed := allowed;
      pos := 0;
    }

    ghost predicate Valid()
      reads this
    {
      pos <= |tokens|
    }

    function Rest(): seq<Token>
      requires Valid()
      reads this
    {
      tokens[pos..]
    }

    /** The outcome of parsing the tokens from `before` on: the same error, or the value and the cursor moved. */
    ghost predicate Follows(r: Result<bool, LicenceError>, spec: Result<Parsed, LicenceError>)
      requires Valid()
      reads this
    {
      match spec
      case Err(error) => r == Err(error)
      case Ok(parsed) => r == Ok(Eval(parsed.expr, allowed)) && Rest() == parsed.rest
    }

    method Take() returns (r: Result<Token, LicenceError>)
      requires Valid()
      modifies this
      ensures Valid()
      ensures old(Rest()) == [] ==> r == Err(UnexpectedEnd) && pos == old(pos)
      ensures old(Rest()) != [] ==> r == Ok(old(Rest())[0]) && pos == old(pos) + 1
    {
      if pos >= |tokens| {
        return Err(UnexpectedEnd);
      }
      pos := pos + 1;
      r := Ok(tokens[pos - 1]);
    }

    method Atom() returns (r: Result<bool, LicenceError>)
      requires Valid()
      modifies this
      ensures Valid() && Follows(r, ReadAtom(old(Rest()))) && old(pos) <= pos && (r.Ok? ==> old(pos) < pos)
      decreases |tokens| - pos, 0
    {
      var word := Take();
      if word.Err? {
        return Err(word.error);
      }
      if word.value == "(" {
        var value := Either();
        if value.Err? {
          return value;
        }
        var close := Take();
        if close.Err? {
          return Err(close.error);
        }
        return if close.value != ")" then Err(Unbalanced) else value;
      }
      var name := word.value;
      if Next(Rest(), "WITH") {
        var _ := Take();
        var exception := Take();
        if exception.Err? {
          return Err(exception.error);
        }
        name := word.value + " WITH " + exception.value;
      }
      r := Ok(WithoutPlus(name) in allowed);
    }

    method Both() returns (r: Result<bool, LicenceError>)
      requires Valid()
      modifies this
      ensures Valid() && Follows(r, ReadBoth(old(Rest()))) && old(pos) <= pos && (r.Ok? ==> old(pos) < pos)
      decreases |tokens| - pos, 1
    {
      hide ReadAtom, IsWord;
      var value := Atom();
      if value.Err? {
        return value;
      }
      ghost var left := ReadAtom(old(Rest())).value.expr;
      while Next(Rest(), "AND")
        invariant Valid() && old(pos) < pos
        invariant value == Ok(Eval(left, allowed))
        invariant ReadBoth(old(Rest())) == ReadBothRest(left, Rest())
        decreases |tokens| - pos
      {
        ghost var here := Rest();
        var _ := Take();
        var more := Atom();
        if more.Err? {
          return more;
        }
        value := Ok(more.value && value.value);
        left := And(left, ReadAtom(here[1..]).value.expr);
      }
      r := value;
    }

    method Either() returns (r: Result<bool, LicenceError>)
      requires Valid()
      modifies this
      ensures Valid() && Follows(r, ReadEither(old(Rest()))) && old(pos) <= pos && (r.Ok? ==> old(pos) < pos)
      decreases |tokens| - pos, 2
    {
      hide ReadBoth, IsWord;
      var value := Both();
      if value.Err? {
        return value;
      }
      ghost var left := ReadBoth(old(Rest())).value.expr;
      while Next(Rest(), "OR")
        invariant Valid() && old(pos) < pos
        invariant value == Ok(Eval(left, allowed))
        invariant ReadEither(old(Rest())) == ReadEitherRest(left, Rest())
        decreases |tokens| - pos
      {
        ghost var here := Rest();
        var _ := Take();
        var more := Both();
        if more.Err? {
          return more;
        }
        value := Ok(more.value || value.value);
        left := Or(left, ReadBoth(here[1..]).value.expr);
      }
      r := value;
    }
  }

  /** `satisfiable`. */
  method Satisfiable(expression: string, allowed: set<string>) returns (r: Result<bool, LicenceError>)
    ensures r == Evaluated(ParseAll(Tokenize(expression)), allowed)
  {
    var tokens := Tokenize(expression);
    if tokens == [] {
      return Err(EmptyExpression);
    }
    var parser := new Parser(tokens, allowed);
    assert parser.Rest() == tokens;
    r := parser.Either();
    if r.Ok? && parser.pos != |tokens| {
      r := Err(Trailing);
    }
  }

  // ----- What the evaluation promises -----

  lemma {:induction false} EvalMonotone(expr: Expr, few: set<string>, many: set<string>)
    requires few <= many && Eval(expr, few)
    ensures Eval(expr, many)
  {
    match expr
    case Id(name) =>
    case And(left, right) =>
      EvalMonotone(left, few, many);
      EvalMonotone(right, few, many);
    case Or(left, right) =>
      if Eval(left, few) { EvalMonotone(left, few, many); } else { EvalMonotone(right, few, many); }
  }

  /** Whether an expression is rejected does not depend on the allowed set; more allowed licences never hurt. */
  lemma AllowedSetMonotone(ts: seq<Token>, few: set<string>, many: set<string>)
    requires few <= many
    ensures var a, b := Evaluated(ParseAll(ts), few), Evaluated(ParseAll(ts), many);
            (a.Err? <==> b.Err?) && (a.Err? ==> a == b) && (a == Ok(true) ==> b == Ok(true))
  {
    var parsed := ParseAll(ts);
    if parsed.Ok? && Eval(parsed.value, few) {
      EvalMonotone(parsed.value, few, many);
    }
  }

  // ----- Printing and reading back -----

  datatype Tree =
    | Leaf(name: string)
    | With(name: string, exception: string)
    | All(left: Tree, right: Tree)
    | Any(left: Tree, right: Tree)

  predicate GoodName(name: string)
  {
    name != "(" && name != ")" && !IsWord(name, "AND") && !IsWord(name, "OR") && !IsWord(name, "WITH")
  }

  predicate GoodTree(t: Tree)
  {
    match t
    case Leaf(name) => GoodName(name)
    case With(name, exception) => GoodName(name) && GoodName(exception)
    case All(left, right) => GoodTree(left) && GoodTree(right)
    case Any(left, right) => GoodTree(left) && GoodTree(right)
  }

  predicate Meaning(t: Tree, allowed: set<string>)
  {
    match t
    case Leaf(name) => WithoutPlus(name) in allowed
    case With(name, exception) => WithoutPlus(name + " WITH " + exception) in allowed
    case All(left, right) => Meaning(left, allowed) && Meaning(right, allowed)
    case Any(left, right) => Meaning(left, allowed) || Meaning(right, allowed)
  }

  /** AND binds tighter than OR: parentheses only around an OR below an AND. */
  function Print(t: Tree): (ts: seq<Token>)
    ensures ts != []
    decreases t, 0
  {
    match t
    case Leaf(name) => [name]
    case With(name, exception) => [name, "WITH", exception]
    case All(left, right) => Factor(left) + ["AND"] + Factor(right)
    case Any(left, right) => Print(left) + ["OR"] + Print(right)
  }

  function Factor(t: Tree): (ts: seq<Token>)
    ensures ts != []
    decreases t, 1
  {
    if t.Any? then ["("] + Print(t) + [")"] else Print(t)
  }

  /** The expression the left-associative loops build. */
  function Expected(t: Tree): Expr
    decreases t, 1
  {
    match t
    case Leaf(name) => Id(name)
    case With(name, exception) => Id(name + " WITH " + exception)
    case All(left, right) => GraftAnd(Expected(left), right)
    case Any(left, right) => GraftOr(Expected(left), right)
  }

  function GraftAnd(e: Expr, t: Tree): Expr
    decreases t, 2
  {
    match t
    case All(left, right) => GraftAnd(GraftAnd(e, left), right)
    case _ => And(e, Expected(t))
  }

  function GraftOr(e: Expr, t: Tree): Expr
    decreases t, 2
  {
    match t
    case Any(left, right) => GraftOr(GraftOr(e, left), right)
    case _ => Or(e, Expected(t))
  }

  lemma ExpectedMeaning(t: Tree, allowed: set<string>)
    ensures Eval(Expected(t), allowed) == Meaning(t, allowed)
    decreases t, 0
  {
    match t
    case Leaf(_) =>
    case With(_, _) =>
    case All(left, right) =>
      ExpectedMeaning(left, allowed);
      GraftMeaning(Expected(left), right, allowed);
    case Any(left, right) =>
      ExpectedMeaning(left, allowed);
      GraftMeaning(Expected(left), right, allowed);
  }

  lemma GraftMeaning(e: Expr, t: Tree, allowed: set<string>)
    ensures Eval(GraftAnd(e, t), allowed) == (Eval(e, allowed) && Meaning(t, allowed))
    ensures Eval(GraftOr(e, t), allowed) == (Eval(e, allowed) || Meaning(t, allowed))
    decreases t, 1
  {
    ExpectedMeaning(t, allowed);
    if t.All? {
      GraftMeaning(e, t.left, allowed);
      GraftMeaning(GraftAnd(e, t.left), t.right, allowed);
    }
    if t.Any? {
      GraftMeaning(e, t.left, allowed);
      GraftMeaning(GraftOr(e, t.left), t.right, allowed);
    }
  }

  lemma Keywords(rest: seq<Token>)
    ensures Next(["AND"] + rest, "AND") && Next(["OR"] + rest, "OR") && Next(["WITH"] + rest, "WITH")
    ensures !Next(["OR"] + rest, "AND") && !Next(["AND"] + rest, "WITH") && !Next(["OR"] + rest, "WITH")
    ensures !Next([")"] + rest, "AND") && !Next([")"] + rest, "OR") && !Next([")"] + rest, "WITH")
  {
    assert UpperChar("AND"[0]) == "AND"[0] != "OR"[0];
  }

  lemma AndComesNext(right: seq<Token>, rest: seq<Token>)
    ensures !Next(["AND"] + right + rest, "WITH")
  {
    Keywords(right + rest);
    assert ["AND"] + right + rest == ["AND"] + (right + rest);
  }

  lemma OrComesNext(right: seq<Token>, rest: seq<Token>)
    ensures !Next(["OR"] + right + rest, "WITH") && !Next(["OR"] + right + rest, "AND")
  {
    Keywords(right + rest);
    assert ["OR"] + right + rest == ["OR"] + (right + rest);
  }

  lemma ParenStep(ts: seq<Token>, inner: Parsed)
    requires ts != [] && ts[0] == "(" && ReadEither(ts[1..]) == Ok(inner) && inner.rest != [] && inner.rest[0] == ")"
    ensures ReadAtom(ts) == Ok(Parsed(inner.expr, inner.rest[1..]))
  {
    hide ReadEither, Next;
  }

  lemma EitherStops(e: Expr, ts: seq<Token>)
    requires !Next(ts, "OR")
    ensures ReadEitherRest(e, ts) == Ok(Parsed(e, ts))
  {
    hide ReadBoth, Next;
  }

  lemma AtomInParens(t: Tree, rest: seq<Token>)
    requires t.Any? && ReadEither(Print(t) + ([")"] + rest)) == ReadEitherRest(Expected(t), [")"] + rest)
    ensures ReadAtom(Factor(t) + rest) == Ok(Parsed(Expected(t), rest))
  {
    hide ReadAtom, ReadEither, ReadEitherRest, Next, Expected, Print;
    var ts := Factor(t) + rest;
    Keywords(rest);
    assert ts[1..] == Print(t) + ([")"] + rest);
    assert ([")"] + rest)[1..] == rest;
    EitherStops(Expected(t), [")"] + rest);
    ParenStep(ts, Parsed(Expected(t), [")"] + rest));
  }

  lemma AtomFactor(t: Tree, rest: seq<Token>)
    requires GoodTree(t) && !t.All? && !Next(rest, "WITH")
    ensures ReadAtom(Factor(t) + rest) == Ok(Parsed(Expected(t), rest))
    decreases t, 1
  {
    var ts := Factor(t) + rest;
    match t
    case Leaf(name) =>
      assert Factor(t) == Print(t) == [name];
      assert ts[1..] == rest;
    case With(name, exception) =>
      assert Factor(t) == Print(t) == [name, "WITH", exception];
      assert ts[1..] == ["WITH"] + ([exception] + rest);
      assert ts[3..] == rest;
      Keywords([exception] + rest);
    case Any(left, right) =>
      Keywords(rest);
      EitherPrint(t, [")"] + rest);
      AtomInParens(t, rest);
  }

  lemma BothFactor(t: Tree, rest: seq<Token>)
    requires GoodTree(t) && !Next(rest, "WITH")
    ensures ReadBoth(Factor(t) + rest) == ReadBothRest(Expected(t), rest)
    decreases t, 2
  {
    hide ReadAtom, ReadBothRest, Next, GraftAnd;
    if t.All? {
      var more := ["AND"] + Factor(t.right) + rest;
      AndComesNext(Factor(t.right), rest);
      assert Factor(t) + rest == Factor(t.left) + more;
      BothFactor(t.left, more);
      BothGraft(Expected(t.left), t.right, rest);
    } else {
      AtomFactor(t, rest);
    }
  }

  lemma BothGraft(e: Expr, t: Tree, rest: seq<Token>)
    requires GoodTree(t) && !Next(rest, "WITH")
    ensures ReadBothRest(e, ["AND"] + Factor(t) + rest) == ReadBothRest(GraftAnd(e, t), rest)
    decreases t, 2
  {
    hide ReadAtom, Next;
    var ts := ["AND"] + Factor(t) + rest;
    if t.All? {
      var more := ["AND"] + Factor(t.right) + rest;
      AndComesNext(Factor(t.right), rest);
      assert ts == ["AND"] + Factor(t.left) + more;
      BothGraft(e, t.left, more);
      BothGraft(GraftAnd(e, t.left), t.right, rest);
    } else {
      AtomFactor(t, rest);
      Keywords(Factor(t) + rest);
      assert ts == ["AND"] + (Factor(t) + rest) && ts[1..] == Factor(t) + rest;
    }
  }

  lemma EitherPrint(t: Tree, rest: seq<Token>)
    requires GoodTree(t) && !Next(rest, "WITH") && !Next(rest, "AND")
    ensures ReadEither(Print(t) + rest) == ReadEitherRest(Expected(t), rest)
    decreases t, if t.Any? then 0 else 3
  {
    hide ReadBoth, ReadEitherRest, Next, GraftOr;
    if t.Any? {
      var more := ["OR"] + Print(t.right) + rest;
      OrComesNext(Print(t.right), rest);
      assert Print(t) + rest == Print(t.left) + more;
      EitherPrint(t.left, more);
      EitherGraft(Expected(t.left), t.right, rest);
    } else {
      BothFactor(t, rest);
    }
  }

  lemma EitherGraft(e: Expr, t: Tree, rest: seq<Token>)
    requires GoodTree(t) && !Next(rest, "WITH") && !Next(rest, "AND")
    ensures ReadEitherRest(e, ["OR"] + Print(t) + rest) == ReadEitherRest(GraftOr(e, t), rest)
    decreases t, if t.Any? then 0 else 3
  {
    hide ReadBoth, Next;
    var ts := ["OR"] + Print(t) + rest;
    if t.Any? {
      var more := ["OR"] + Print(t.right) + rest;
      OrComesNext(Print(t.right), rest);
      assert ts == ["OR"] + Print(t.left) + more;
      EitherGraft(e, t.left, more);
      EitherGraft(GraftOr(e, t.left), t.right, rest);
    } else {
      BothFactor(t, rest);
      Keywords(Factor(t) + rest);
      assert ts == ["OR"] + (Factor(t) + rest) && ts[1..] == Factor(t) + rest;
    }
  }

  /** A printed tree is consumed whole and evaluates to its Boolean meaning. */
  lemma PrintedTreeEvaluates(t: Tree, allowed: set<string>)
    requires GoodTree(t)
    ensures Evaluated(ParseAll(Print(t)), allowed) == Ok(Meaning(t, allowed))
  {
    EitherPrint(t, []);
    assert Print(t) + [] == Print(t);
    ExpectedMeaning(t, allowed);
  }

  // ----- From text to tokens -----

  predicate PlainChar(c: char) { !IsSpace(c) && !IsParen(c) && c != '/' }

  predicate PlainToken(token: Token)
  {
    token == "(" || token == ")" || (token != "" && forall i :: 0 <= i < |token| ==> PlainChar(token[i]))
  }

  function Render(ts: seq<Token>): string
  {
    if ts == [] then "" else ts[0] + " " + Render(ts[1..])
  }

  lemma {:induction false} SlashToOrAppend(a: string, b: string)
    ensures SlashToOr(a + b) == SlashToOr(a) + SlashToOr(b)
  {
    if a == "" {
      assert a + b == b;
    } else {
      assert (a + b)[1..] == a[1..] + b;
      SlashToOrAppend(a[1..], b);
    }
  }

  lemma {:induction false} SlashToOrPlain(a: string)
    requires forall i :: 0 <= i < |a| ==> a[i] != '/'
    ensures SlashToOr(a) == a
  {
    if a == "" {
    } else {
      SlashToOrPlain(a[1..]);
    }
  }

  lemma {:induction false} ScanWord(token: Token, word: string, rest: string)
    requires forall i :: 0 <= i < |token| ==> PlainChar(token[i])
    ensures Scan(token + rest, word) == Scan(rest, word + token)
    decreases token
  {
    if token == "" {
      assert token + rest == rest && word + token == word;
    } else {
      assert (token + rest)[1..] == token[1..] + rest;
      ScanWord(token[1..], word + [token[0]], rest);
      assert word + [token[0]] + token[1..] == word + token;
    }
  }

  lemma ScanToken(token: Token, rest: string)
    requires PlainToken(token)
    ensures Scan(token + " " + rest, "") == [token] + Scan(rest, "")
  {
    var s := token + " " + rest;
    if token == "(" || token == ")" {
      assert s[1..] == " " + rest && (" " + rest)[1..] == rest && token == [s[0]];
    } else {
      assert s == token + (" " + rest);
      ScanWord(token, "", " " + rest);
      assert "" + token == token && (" " + rest)[1..] == rest;
    }
  }

  lemma {:induction false} TokenizeRender(ts: seq<Token>)
    requires forall token :: token in ts ==> PlainToken(token)
    ensures Tokenize(Render(ts)) == ts
  {
    if ts == [] {
    } else {
      TokenizeRender(ts[1..]);
      assert PlainToken(ts[0]);
      var head := ts[0] + " ";
      SlashToOrAppend(head, Render(ts[1..]));
      SlashToOrPlain(head);
      ScanToken(ts[0], SlashToOr(Render(ts[1..])));
    }
  }

  predicate PlainTree(t: Tree)
  {
    match t
    case Leaf(name) => PlainToken(name)
    case With(name, exception) => PlainToken(name) && PlainToken(exception)
    case All(left, right) => PlainTree(left) && PlainTree(right)
    case Any(left, right) => PlainTree(left) && PlainTree(right)
  }

  lemma {:induction false} PrintPlain(t: Tree)
    requires PlainTree(t)
    ensures forall token :: token in Print(t) ==> PlainToken(token)
  {
    if t.All? || t.Any? {
      PrintPlain(t.left);
      PrintPlain(t.right);
    }
  }

  /** The same from text: a licence tree written out with spaces evaluates to its meaning. */
  lemma WrittenTreeEvaluates(t: Tree, allowed: set<string>)
    requires GoodTree(t) && PlainTree(t)
    ensures Evaluated(ParseAll(Tokenize(Render(Print(t)))), allowed) == Ok(Meaning(t, allowed))
  {
    PrintPlain(t);
    TokenizeRender(Print(t));
    PrintedTreeEvaluates(t, allowed);
  }

  lemma {:induction false} ScanAcrossSpace(a: string, b: string, word: string)
    ensures Scan(a + " " + b, word) == Scan(a, word) + Scan(b, "")
    decreases a
  {
    var s := a + " " + b;
    if a == "" {
      assert s[1..] == b;
    } else {
      assert s[1..] == a[1..] + " " + b;
      if IsSpace(a[0]) || IsParen(a[0]) {
        ScanAcrossSpace(a[1..], b, "");
      } else {
        ScanAcrossSpace(a[1..], b, word + [a[0]]);
      }
    }
  }

  lemma SlashToOrMiddle(a: string, b: string)
    ensures SlashToOr(a + "/" + b) == SlashToOr(a) + " OR " + SlashToOr(b)
  {
    SlashToOrAppend(a + "/", b);
    SlashToOrAppend(a, "/");
    assert SlashToOr("/") == " OR " by { assert "/"[1..] == ""; }
  }

  /** Cargo's older `A/B` reads as `A OR B`. */
  lemma SlashMeansOr(a: string, b: string)
    ensures Tokenize(a + "/" + b) == Tokenize(a) + ["OR"] + Tokenize(b)
  {
    hide Scan, SlashToOr;
    SlashToOrMiddle(a, b);
    var x, y := SlashToOr(a), SlashToOr(b);
    assert x + " OR " + y == x + " " + ("OR" + " " + y);
    ScanAcrossSpace(x, "OR" + " " + y, "");
    ScanToken("OR", y);
  }

  /** `str.upper` turns the dotless i into I, so a token that is not an ASCII spelling of WITH still joins two names. */
  lemma DotlessIReadsAsWith(a: string, b: string)
    requires a != "("
    ensures IsWord("w\U{131}th", "WITH") && ReadAtom([a, "w\U{131}th", b]) == Ok(Parsed(Id(a + " WITH " + b), []))
  {
    var ts: seq<Token> := [a, "w\U{131}th", b];
    assert |"w\U{131}th"| == 4 && |"WITH"| == 4;
    assert UpperChar('\U{131}') == 'I';
    assert ts[1..][0] == "w\U{131}th" && ts[3..] == [];
  }
}
