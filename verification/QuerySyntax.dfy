/**
 Expressions of the filter language, printed with as few parentheses as the binding strengths
 allow (`!` over juxtaposition over `|`), and the proof that tokenizing and parsing the print
 gives a query with the expression's own meaning (internal/core/query.go).
 */
module QuerySyntax {
  import opened Wrappers
  import opened QueryMatch
  import opened QueryParser
  import opened QueryTokens

  datatype Atom = Word(s: string) | Pattern(s: string) | Quoted(s: string)

  datatype Expr = Lit(a: Atom) | Neg(e: Expr) | Both(l: Expr, r: Expr) | Either(l: Expr, r: Expr)

  /** A word stands for itself, a pattern is a whole /regexp/, a quoted atom may hold any other text. */
  predicate CleanAtom(a: Atom) {
    match a
    case Word(s) =>
      s != "" && (forall i :: 0 <= i < |s| ==> !Delimiter(s[i])) && s[0] != '/' && s[0] != '"' && !IsOr(s)
    case Pattern(s) => 2 <= |s| && s[0] == '/' && s[|s| - 1] == '/' && RegexStop(s, 1) == |s| - 1
    case Quoted(s) =>
      '"' !in s && s != "" && s != "(" && s != ")" && s != "|" && s != "!"
  }

  predicate CleanExpr(e: Expr) {
    match e
    case Lit(a) => CleanAtom(a)
    case Neg(x) => CleanExpr(x)
    case Both(l, r) => CleanExpr(l) && CleanExpr(r)
    case Either(l, r) => CleanExpr(l) && CleanExpr(r)
  }

  /** What an expression means: the parser's tree does not appear here. */
  predicate Holds(env: Env, e: Expr, f: Flow) {
    match e
    case Lit(a) => MatchFlow(env, Compile(env, a.s), f)
    case Neg(x) => !Holds(env, x, f)
    case Both(l, r) => Holds(env, l, f) && Holds(env, r, f)
    case Either(l, r) => Holds(env, l, f) || Holds(env, r, f)
  }

  datatype Level = OrLevel | AndLevel | UnaryLevel

  predicate NeedsParens(e: Expr, l: Level) {
    (e.Either? && l != OrLevel) || (e.Both? && l == UnaryLevel)
  }

  /** The tokens of an expression printed where binding strength l is wanted. */
  function Toks(e: Expr, l: Level): seq<string>
    decreases e, if NeedsParens(e, l) then 1 else 0
  {
    if NeedsParens(e, l) then ["("] + Toks(e, OrLevel) + [")"]
    else
      match e
      case Lit(a) => [a.s]
      case Neg(x) => ["!"] + Toks(x, UnaryLevel)
      case Both(x, y) => Toks(x, AndLevel) + Toks(y, AndLevel)
      case Either(x, y) => Toks(x, OrLevel) + ["|"] + Toks(y, OrLevel)
  }

  /** The text of an expression printed where binding strength l is wanted. */
  function Print(e: Expr, l: Level): string
    decreases e, if NeedsParens(e, l) then 1 else 0
  {
    if NeedsParens(e, l) then "(" + Print(e, OrLevel) + ")"
    else
      match e
      case Lit(Quoted(s)) => "\"" + s + "\""
      case Lit(a) => a.s
      case Neg(x) => "!" + Print(x, UnaryLevel)
      case Both(x, y) => Print(x, AndLevel) + (" " + Print(y, AndLevel))
      case Either(x, y) => Print(x, OrLevel) + (" | " + Print(y, OrLevel))
  }

  // ---- tokenizing the print -----------------------------------------------

  /** What may follow a printed atom. */
  predicate Breaks(rest: string) { rest == "" || rest[0] == ' ' || rest[0] == ')' }

  lemma {:induction false} WordStops(s: string, rest: string, j: nat)
    requires j <= |s| && (forall i :: 0 <= i < |s| ==> !Delimiter(s[i])) && Breaks(rest)
    ensures WordStop(s + rest, j) == |s|
    decreases |s| - j
  {
    if j < |s| {
      assert (s + rest)[j] == s[j];
      WordStops(s, rest, j + 1);
    } else if rest != "" {
      assert (s + rest)[j] == rest[0];
    }
  }

  lemma {:induction false} QuoteStops(s: string, rest: string, j: nat)
    requires 1 <= j <= |s| + 1 && '"' !in s
    ensures QuoteStop("\"" + s + "\"" + rest, j) == |s| + 1
    decreases |s| - j
  {
    var t := "\"" + s + "\"" + rest;
    if j <= |s| {
      assert t[j] == s[j - 1];
      QuoteStops(s, rest, j + 1);
    } else {
      assert t[j] == '"';
    }
  }

  lemma {:induction false} RegexStops(s: string, rest: string, j: nat)
    requires j <= |s| && RegexStop(s, j) < |s|
    ensures RegexStop(s + rest, j) == RegexStop(s, j)
    decreases |s| - j
  {
    var t := s + rest;
    assert forall i :: 0 <= i < |s| ==> t[i] == s[i];
    if j < |s| {
      if s[j] == '\\' && j + 1 < |s| {
        RegexStops(s, rest, j + 2);
      } else if s[j] == '/' || s[j] == ' ' || s[j] == '\t' {
      } else {
        RegexStops(s, rest, j + 1);
      }
    }
  }

  /** A piece of text whose first piece is one token tokenizes to that token and the rest. */
  lemma TakeToken(src: string, tok: string, rest: string)
    requires src != "" && FirstPiece(src + rest) == Piece([tok], |src|)
    ensures Tokens(src + rest) == [tok] + Tokens(rest)
  {
    hide FirstPiece;
    assert (src + rest)[|src|..] == rest;
  }

  lemma TakeAtom(a: Atom, rest: string)
    requires CleanAtom(a) && Breaks(rest)
    ensures Tokens(Print(Lit(a), UnaryLevel) + rest) == [a.s] + Tokens(rest)
  {
    var src := Print(Lit(a), UnaryLevel);
    match a
    case Word(s) =>
      WordStops(s, rest, 0);
      assert (s + rest)[0] == s[0] && (s + rest)[..|s|] == s;
      TakeToken(src, s, rest);
    case Pattern(s) =>
      RegexStops(s, rest, 1);
      assert (s + rest)[0] == s[0] && (s + rest)[|s| - 1] == s[|s| - 1] && (s + rest)[..|s|] == s;
      TakeToken(src, s, rest);
    case Quoted(s) =>
      QuoteStops(s, rest, 1);
      assert (src + rest)[1..|s| + 1] == s;
      assert src + rest == "\"" + s + "\"" + rest;
      TakeToken(src, s, rest);
  }

  lemma TakeMark(c: char, rest: string)
    requires c == '(' || c == ')' || c == '|' || c == '!'
    ensures Tokens([c] + rest) == [[c]] + Tokens(rest)
  {
    TakeToken([c], [c], rest);
  }

  lemma TakeSpace(rest: string)
    ensures Tokens(" " + rest) == Tokens(rest)
  {
    var s := " " + rest;
    assert FirstPiece(s) == Piece([], 1) && s[1..] == rest;
  }

  lemma TakeBar(rest: string)
    ensures Tokens(" | " + rest) == ["|"] + Tokens(rest)
  {
    assert " | " + rest == " " + ("|" + (" " + rest));
    TakeSpace("|" + (" " + rest));
    TakeMark('|', " " + rest);
    TakeSpace(rest);
  }

  lemma Regroup<T>(a: seq<T>, b: seq<T>, c: seq<T>, d: seq<T>)
    ensures a + b + c + d == a + (b + (c + d))
    ensures (a + (b + c)) + d == a + (b + (c + d))
    ensures (a + b) + d == a + (b + d)
  {
  }

  /** Tokenizing the print gives the expression's tokens. */
  lemma {:induction false} TokensOfPrint(e: Expr, l: Level, rest: string)
    requires CleanExpr(e) && Breaks(rest)
    ensures Tokens(Print(e, l) + rest) == Toks(e, l) + Tokens(rest)
    decreases e, if NeedsParens(e, l) then 1 else 0
  {
    hide Tokens, FirstPiece, CleanAtom;
    if NeedsParens(e, l) {
      var inner := Print(e, OrLevel);
      Regroup("(", inner, ")", rest);
      TakeMark('(', inner + (")" + rest));
      TokensOfPrint(e, OrLevel, ")" + rest);
      TakeMark(')', rest);
      Regroup(["("], Toks(e, OrLevel), [")"], Tokens(rest));
    } else {
      match e
      case Lit(a) =>
        assert Print(e, l) == Print(Lit(a), UnaryLevel);
        TakeAtom(a, rest);
      case Neg(x) =>
        var inner := Print(x, UnaryLevel);
        Regroup("!", inner, [], rest);
        TakeMark('!', inner + rest);
        TokensOfPrint(x, UnaryLevel, rest);
      case Both(x, y) =>
        var px, py := Print(x, AndLevel), Print(y, AndLevel);
        Regroup(px, " ", py, rest);
        TokensOfPrint(x, AndLevel, " " + (py + rest));
        TakeSpace(py + rest);
        TokensOfPrint(y, AndLevel, rest);
        Regroup(Toks(x, AndLevel), Toks(y, AndLevel), [], Tokens(rest));
      case Either(x, y) =>
        var px, py := Print(x, OrLevel), Print(y, OrLevel);
        Regroup(px, " | ", py, rest);
        TokensOfPrint(x, OrLevel, " | " + (py + rest));
        TakeBar(py + rest);
        TokensOfPrint(y, OrLevel, rest);
        Regroup(Toks(x, OrLevel), ["|"], Toks(y, OrLevel), Tokens(rest));
    }
  }

  // ---- parsing the tokens -------------------------------------------------

  /** The first atom of the expression that does not compile, after an earlier error. */
  function FirstBad(env: Env, e: Expr, err: Err): Err {
    match e
    case Lit(a) => if Compile(env, a.s).bad then Note(err, BadRegex(a.s)) else err
    case Neg(x) => FirstBad(env, x, err)
    case Both(l, r) => FirstBad(env, r, FirstBad(env, l, err))
    case Either(l, r) => FirstBad(env, r, FirstBad(env, l, err))
  }

  lemma {:induction false} EvalAllConcat(env: Env, a: seq<Node>, b: seq<Node>, f: Flow)
    ensures EvalAll(env, a + b, f) == (EvalAll(env, a, f) && EvalAll(env, b, f))
  {
    if a == [] {
      assert a + b == b;
    } else {
      assert (a + b)[1..] == a[1..] + b;
      EvalAllConcat(env, a[1..], b, f);
    }
  }

  lemma {:induction false} EvalAnyConcat(env: Env, a: seq<Node>, b: seq<Node>, f: Flow)
    ensures EvalAny(env, a + b, f) == (EvalAny(env, a, f) || EvalAny(env, b, f))
  {
    if a == [] {
      assert a + b == b;
    } else {
      assert (a + b)[1..] == a[1..] + b;
      EvalAnyConcat(env, a[1..], b, f);
    }
  }

  ghost predicate AllMean(env: Env, kids: seq<Node>, e: Expr) {
    forall f :: EvalAll(env, kids, f) == Holds(env, e, f)
  }

  ghost predicate AnyMean(env: Env, kids: seq<Node>, e: Expr) {
    forall f :: EvalAny(env, kids, f) == Holds(env, e, f)
  }

  lemma OneMeans(env: Env, kids: seq<Node>, all: bool, f: Flow)
    ensures Eval(env, One(kids, all), f) == if all || |kids| == 1 then EvalAll(env, kids, f) else EvalAny(env, kids, f)
    ensures |kids| == 1 ==> EvalAll(env, kids, f) == EvalAny(env, kids, f)
  {
    if |kids| == 1 {
      assert kids[1..] == [];
    }
  }

  datatype Read = AsUnary | AsAnd | AsAlternatives | AsOr

  /** The order in which the reading lemmas call each other on one expression. */
  function Rank(e: Expr, r: Read): nat {
    match r
    case AsUnary => if e.Either? then 3 else if e.Both? then 4 else 1
    case AsAnd => if e.Either? then 4 else if e.Both? then 1 else 2
    case AsAlternatives => if e.Either? then 1 else if e.Both? then 2 else 3
    case AsOr => if e.Either? then 2 else if e.Both? then 3 else 4
  }

  /** A printed unary is read back as one factor. */
  lemma {:induction false} ReadUnary(env: Env, e: Expr, rest: seq<string>, err: Err)
    requires CleanExpr(e)
    ensures var r := ParseUnary(env, Toks(e, UnaryLevel) + rest, err);
            r.rest == rest && r.err == FirstBad(env, e, err)
            && forall f :: Eval(env, r.node, f) == Holds(env, e, f)
    decreases e, Rank(e, AsUnary)
  {
    var ts := Toks(e, UnaryLevel) + rest;
    match e
    case Lit(a) =>
      assert ts == [a.s] + rest;
      AtomIsPlain(a);
    case Neg(x) =>
      assert ts == ["!"] + (Toks(x, UnaryLevel) + rest);
      ReadUnary(env, x, rest, err);
    case _ =>
      Regroup(["("], Toks(e, OrLevel), [")"], rest);
      ReadOr(env, e, [")"] + rest, err);
      ReadGroup(env, Toks(e, OrLevel) + ([")"] + rest), rest, e, err);
  }

  lemma ReadGroup(env: Env, inner: seq<string>, rest: seq<string>, e: Expr, err: Err)
    requires var r := OrKids(env, inner, err); r.rest == [")"] + rest && AnyMean(env, r.kids, e)
    ensures var r, u := OrKids(env, inner, err), ParseUnary(env, ["("] + inner, err);
            u.rest == rest && u.err == r.err && forall f :: Eval(env, u.node, f) == Holds(env, e, f)
  {
    var r := OrKids(env, inner, err);
    assert (["("] + inner)[1..] == inner;
    hide AndKids, OrMore, Compile;
    forall f
      ensures Eval(env, One(r.kids, false), f) == Holds(env, e, f)
    {
      OneMeans(env, r.kids, false, f);
    }
  }

  lemma AtomIsPlain(a: Atom)
    requires CleanAtom(a)
    ensures a.s != "" && a.s != "(" && a.s != ")" && a.s != "|" && a.s != "!"
  {
    if a.Word? {
      assert a.s != "" && !Delimiter(a.s[0]);
    }
  }

  lemma StartsFactor(e: Expr, l: Level)
    requires CleanExpr(e) && l != OrLevel
    ensures Toks(e, l) != [] && !EndsAnd(Toks(e, l)[0])
    decreases e
  {
    if !NeedsParens(e, l) {
      match e
      case Lit(a) => AtomIsPlain(a);
      case Neg(_) =>
      case Both(x, _) => StartsFactor(x, AndLevel);
    }
  }

  /** A printed conjunction is read back as factors in front of those of the rest. */
  lemma {:induction false} ReadAnd(env: Env, e: Expr, rest: seq<string>, err: Err) returns (ks: seq<Node>)
    requires CleanExpr(e)
    ensures var e1 := FirstBad(env, e, err);
            var more := AndKids(env, rest, e1);
            AndKids(env, Toks(e, AndLevel) + rest, err) == ParsedList(ks + more.kids, more.rest, more.err)
    ensures ks != [] && AllMean(env, ks, e)
    decreases e, Rank(e, AsAnd)
  {
    if e.Both? {
      hide AndKids, ParseUnary, Eval, CleanAtom;
      var ts := Toks(e.r, AndLevel) + rest;
      Regroup(Toks(e.l, AndLevel), Toks(e.r, AndLevel), [], rest);
      var a := ReadAnd(env, e.l, ts, err);
      var b := ReadAnd(env, e.r, rest, FirstBad(env, e.l, err));
      ks := a + b;
      Regroup(a, b, [], AndKids(env, rest, FirstBad(env, e, err)).kids);
      forall f
        ensures EvalAll(env, ks, f) == Holds(env, e, f)
      {
        EvalAllConcat(env, a, b, f);
      }
    } else {
      assert Toks(e, AndLevel) == Toks(e, UnaryLevel);
      StartsFactor(e, UnaryLevel);
      ReadUnary(env, e, rest, err);
      var u := ParseUnary(env, Toks(e, UnaryLevel) + rest, err);
      ks := [u.node];
      SingleMeans(env, u.node, e);
    }
  }

  /** A printed disjunction, where `|`, `)` or the end follows, is read back as alternatives. */
  lemma {:induction false} ReadAlternatives(env: Env, e: Expr, rest: seq<string>, err: Err) returns (ks: seq<Node>)
    requires CleanExpr(e) && (rest == [] || rest[0] == "|" || rest[0] == ")")
    ensures var more := OrMore(env, rest, FirstBad(env, e, err));
            OrKids(env, Toks(e, OrLevel) + rest, err) == ParsedList(ks + more.kids, more.rest, more.err)
    ensures ks != [] && AnyMean(env, ks, e)
    decreases e, Rank(e, AsAlternatives)
  {
    if e.Either? {
      hide AndKids, ParseUnary, Eval, CleanAtom, OrKids;
      var ts := ["|"] + (Toks(e.r, OrLevel) + rest);
      Regroup(Toks(e.l, OrLevel), ["|"], Toks(e.r, OrLevel), rest);
      var a := ReadAlternatives(env, e.l, ts, err);
      var b := ReadAlternatives(env, e.r, rest, FirstBad(env, e.l, err));
      assert Tail(ts) == Toks(e.r, OrLevel) + rest;
      ks := a + b;
      Regroup(a, b, [], OrMore(env, rest, FirstBad(env, e, err)).kids);
      forall f
        ensures EvalAny(env, ks, f) == Holds(env, e, f)
      {
        EvalAnyConcat(env, a, b, f);
      }
    } else {
      assert Toks(e, OrLevel) == Toks(e, AndLevel);
      var a := ReadAnd(env, e, rest, err);
      assert AndKids(env, rest, FirstBad(env, e, err)) == ParsedList([], rest, FirstBad(env, e, err));
      hide AndKids, ParseUnary, CleanExpr, Holds, OrMore;
      assert a + [] == a;
      ks := [One(a, true)];
      OneMeansAny(env, a, e);
    }
  }

  lemma SingleMeans(env: Env, n: Node, e: Expr)
    requires forall f :: Eval(env, n, f) == Holds(env, e, f)
    ensures AllMean(env, [n], e)
  {
    assert [n][1..] == [];
  }

  lemma OneMeansAny(env: Env, a: seq<Node>, e: Expr)
    requires AllMean(env, a, e)
    ensures AnyMean(env, [One(a, true)], e)
  {
    var ks := [One(a, true)];
    forall f
      ensures EvalAny(env, ks, f) == Holds(env, e, f)
    {
      OneMeans(env, a, true, f);
      assert ks[1..] == [];
    }
  }

  lemma {:induction false} ReadOr(env: Env, e: Expr, rest: seq<string>, err: Err)
    requires CleanExpr(e) && (rest == [] || rest[0] == ")")
    ensures var r := OrKids(env, Toks(e, OrLevel) + rest, err);
            r.rest == rest && r.err == FirstBad(env, e, err) && AnyMean(env, r.kids, e)
    decreases e, Rank(e, AsOr)
  {
    var ks := ReadAlternatives(env, e, rest, err);
    assert ks + [] == ks;
  }

  /**
   Printing an expression, tokenizing and parsing give a query that matches a flow exactly when
   the expression holds of it, and whose error is the first atom that does not compile.
   */
  lemma ParseOfPrint(env: Env, e: Expr)
    requires CleanExpr(e)
    ensures var q := CompileQuery(env, Print(e, OrLevel));
            q.err == FirstBad(env, e, None) && forall f :: q.Match(env, f) == Holds(env, e, f)
  {
    var s := Print(e, OrLevel);
    TokensOfPrint(e, OrLevel, "");
    NoTokens();
    assert s + "" == s && Toks(e, OrLevel) + [] == Toks(e, OrLevel);
    ReadOr(env, e, [], None);
    var r := OrKids(env, Toks(e, OrLevel), None);
    SomeTokens(e, OrLevel);
    forall f
      ensures CompileQuery(env, s).Match(env, f) == Holds(env, e, f)
    {
      OneMeans(env, r.kids, false, f);
    }
  }

  lemma SomeTokens(e: Expr, l: Level)
    ensures Toks(e, l) != []
  {
  }
}
