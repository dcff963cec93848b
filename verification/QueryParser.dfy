/** The recursive-descent parser and the expression tree (internal/core/query.go). */
module QueryParser {
  import opened Sequences
  import opened Wrappers
  import opened QueryMatch
  import QueryTokens

  datatype Node = All(kids: seq<Node>) | Any(kids: seq<Node>) | Not(kid: Node) | Leaf(t: Token)

  predicate Eval(env: Env, n: Node, f: Flow) {
    match n
    case All(kids) => EvalAll(env, kids, f)
    case Any(kids) => EvalAny(env, kids, f)
    case Not(kid) => !Eval(env, kid, f)
    case Leaf(t) => MatchFlow(env, t, f)
  }

  predicate EvalAll(env: Env, kids: seq<Node>, f: Flow) {
    kids == [] || (Eval(env, kids[0], f) && EvalAll(env, kids[1..], f))
  }

  predicate EvalAny(env: Env, kids: seq<Node>, f: Flow) {
    kids != [] && (Eval(env, kids[0], f) || EvalAny(env, kids[1..], f))
  }

  datatype Error = MissingParen | UnexpectedParen | BadRegex(tok: string) | Leftover(tok: string)

  type Err = Option<Error>

  datatype Parsed = Parsed(node: Node, rest: seq<string>, err: Err)

  datatype ParsedList = ParsedList(kids: seq<Node>, rest: seq<string>, err: Err)

  /** The empty string stands for the end of the input. */
  function Peek(ts: seq<string>): string {
    if ts == [] then "" else ts[0]
  }

  function Tail(ts: seq<string>): seq<string> {
    if ts == [] then [] else ts[1..]
  }

  /** Only the first error is kept. */
  function Note(err: Err, e: Error): Err {
    if err.None? then Some(e) else err
  }

  predicate EndsAnd(t: string) { t == "" || t == "|" || t == ")" }

  function One(kids: seq<Node>, all: bool): Node {
    if |kids| == 1 then kids[0] else if all then All(kids) else Any(kids)
  }

  /** Alternatives, with the tokens left over. */
  function ParseOr(env: Env, ts: seq<string>, err: Err): (r: Parsed)
    ensures |r.rest| <= |ts|
    decreases |ts|, 4
  {
    var l := OrKids(env, ts, err);
    Parsed(One(l.kids, false), l.rest, l.err)
  }

  function OrKids(env: Env, ts: seq<string>, err: Err): (r: ParsedList)
    ensures |r.rest| <= |ts| && r.kids != []
    decreases |ts|, 3
  {
    var a := AndKids(env, ts, err);
    var more := OrMore(env, a.rest, a.err);
    ParsedList([One(a.kids, true)] + more.kids, more.rest, more.err)
  }

  function OrMore(env: Env, ts: seq<string>, err: Err): (r: ParsedList)
    ensures |r.rest| <= |ts|
    decreases |ts|, 2
  {
    if Peek(ts) == "|" then OrKids(env, Tail(ts), err) else ParsedList([], ts, err)
  }

  /** The factors up to the next `|`, `)` or end. */
  function AndKids(env: Env, ts: seq<string>, err: Err): (r: ParsedList)
    ensures |r.rest| <= |ts|
    decreases |ts|, 1
  {
    if EndsAnd(Peek(ts)) then ParsedList([], ts, err)
    else
      var u := ParseUnary(env, ts, err);
      var more := AndKids(env, u.rest, u.err);
      ParsedList([u.node] + more.kids, more.rest, more.err)
  }

  function ParseUnary(env: Env, ts: seq<string>, err: Err): (r: Parsed)
    ensures |r.rest| <= |ts| && (ts != [] ==> |r.rest| < |ts|)
    decreases |ts|, 0
  {
    var t, rest := Peek(ts), Tail(ts);
    if t == "!" then
      var k := ParseUnary(env, rest, err);
      Parsed(Not(k.node), k.rest, k.err)
    else if t == "(" then
      var inner := ParseOr(env, rest, err);
      if Peek(inner.rest) == ")" then inner.(rest := Tail(inner.rest))
      else inner.(err := Note(inner.err, MissingParen))
    else if t == ")" then Parsed(All([]), rest, Note(err, UnexpectedParen))
    else
      var tok := Compile(env, t);
      Parsed(Leaf(tok), rest, if tok.bad then Note(err, BadRegex(t)) else err)
  }

  lemma OrMoreStep(env: Env, ts: seq<string>, err: Err)
    ensures if Peek(ts) != "|" then OrMore(env, ts, err) == ParsedList([], ts, err)
            else
              var a := AndKids(env, Tail(ts), err);
              var m := OrMore(env, a.rest, a.err);
              OrMore(env, ts, err) == ParsedList([One(a.kids, true)] + m.kids, m.rest, m.err)
  {
  }

  lemma AndStep(env: Env, ts: seq<string>, err: Err)
    ensures if EndsAnd(Peek(ts)) then AndKids(env, ts, err) == ParsedList([], ts, err)
            else
              var u := ParseUnary(env, ts, err);
              var m := AndKids(env, u.rest, u.err);
              AndKids(env, ts, err) == ParsedList([u.node] + m.kids, m.rest, m.err)
  {
  }

  lemma UnaryBang(env: Env, ts: seq<string>, err: Err)
    requires ts != [] && ts[0] == "!"
    ensures var k := ParseUnary(env, ts[1..], err); ParseUnary(env, ts, err) == Parsed(Not(k.node), k.rest, k.err)
  {
  }

  lemma UnaryOpen(env: Env, ts: seq<string>, err: Err)
    requires ts != [] && ts[0] == "("
    ensures var l := OrKids(env, ts[1..], err);
            ParseUnary(env, ts, err) == if Peek(l.rest) == ")" then Parsed(One(l.kids, false), Tail(l.rest), l.err)
                                        else Parsed(One(l.kids, false), l.rest, Note(l.err, MissingParen))
  {
  }

  // ---- queries ------------------------------------------------------------

  /** A compiled filter; no tree matches everything. */
  datatype Query = Query(root: Option<Node>, err: Err) {
    predicate Match(env: Env, f: Flow) {
      root.None? || Eval(env, root.value, f)
    }
  }

  function CompileTokens(env: Env, toks: seq<string>): Query {
    if toks == [] then Query(None, None)
    else
      var r := ParseOr(env, toks, None);
      Query(Some(r.node), if r.rest != [] then Note(r.err, Leftover(r.rest[0])) else r.err)
  }

  function CompileQuery(env: Env, raw: string): Query {
    CompileTokens(env, QueryTokens.Tokens(raw))
  }

  // ---- the parser object --------------------------------------------------

  class QParser {
    const env: Env
    const toks: seq<string>
    var pos: nat
    var err: Err

    constructor (env: Env, toks: seq<string>)
      ensures this.env == env && this.toks == toks && pos == 0 && err == None
    {
      this.env, this.toks, pos, err := env, toks, 0, None;
    }

    /** The tokens not read yet; reading past the end leaves none. */
    ghost function Left(): seq<string>
      reads this
    {
      if pos <= |toks| then toks[pos..] else []
    }

    function PeekTok(): (t: string)
      reads this
      ensures t == Peek(Left())
    {
      if |toks| <= pos then "" else toks[pos]
    }

    method Next() returns (t: string)
      modifies this`pos
      ensures t == Peek(old(Left())) && Left() == Tail(old(Left()))
    {
      t := PeekTok();
      pos := pos + 1;
    }

    method ParseOrNode() returns (n: Node)
      modifies this
      ensures Parsed(n, Left(), err) == ParseOr(env, old(Left()), old(err))
      decreases |Left()|, 3
    {
      hide AndKids, ParseUnary, OrMore, Compile;
      ghost var goal := OrKids(env, Left(), err);
      var first := ParseAndNode();
      var kids := [first];
      while PeekTok() == "|"
        invariant ParsedList(kids + OrMore(env, Left(), err).kids, OrMore(env, Left(), err).rest, OrMore(env, Left(), err).err) == goal
        invariant |Left()| <= |old(Left())|
        decreases |Left()|
      {
        OrMoreStep(env, Left(), err);
        var _ := Next();
        var kid := ParseAndNode();
        Assoc(kids, [kid], OrMore(env, Left(), err).kids);
        kids := kids + [kid];
      }
      OrMoreStep(env, Left(), err);
      assert kids + [] == kids;
      n := if |kids| == 1 then kids[0] else Any(kids);
    }

    method ParseAndNode() returns (n: Node)
      modifies this
      ensures var r := AndKids(env, old(Left()), old(err)); n == One(r.kids, true) && Left() == r.rest && err == r.err
      decreases |Left()|, 2
    {
      hide AndKids, ParseUnary, Compile;
      ghost var goal := AndKids(env, Left(), err);
      var kids := [];
      while true
        invariant var r := AndKids(env, Left(), err); ParsedList(kids + r.kids, r.rest, r.err) == goal
        invariant |Left()| <= |old(Left())|
        decreases |Left()|
      {
        AndStep(env, Left(), err);
        var t := PeekTok();
        if t == "" || t == "|" || t == ")" {
          break;
        }
        var kid := ParseUnaryNode();
        Assoc(kids, [kid], AndKids(env, Left(), err).kids);
        kids := kids + [kid];
      }
      assert kids + [] == kids;
      if |kids| == 0 {
        n := All([]);
      } else if |kids| == 1 {
        n := kids[0];
      } else {
        n := All(kids);
      }
    }

    method ParseUnaryNode() returns (n: Node)
      modifies this
      ensures Parsed(n, Left(), err) == ParseUnary(env, old(Left()), old(err))
      decreases |Left()|, 1
    {
      var t := Next();
      if t == "!" {
        var kid := ParseUnaryNode();
        return Not(kid);
      }
      if t == "(" {
        var inner := ParseOrNode();
        if PeekTok() == ")" {
          var _ := Next();
        } else if err.None? {
          err := Some(MissingParen);
        }
        return inner;
      }
      if t == ")" {
        if err.None? {
          err := Some(UnexpectedParen);
        }
        return All([]);
      }
      var tok := Compile(env, t);
      if tok.bad && err.None? {
        err := Some(BadRegex(t));
      }
      n := Leaf(tok);
    }
  }

  /** CompileQuery: tokenize, parse, and report what is left over. */
  method Compiled(env: Env, raw: string) returns (q: Query)
    ensures q == CompileQuery(env, raw)
  {
    var toks := QueryTokens.Tokenize(raw);
    if |toks| == 0 {
      return Query(None, None);
    }
    var p := new QParser(env, toks);
    var root := p.ParseOrNode();
    if p.err.None? && p.pos < |toks| {
      p.err := Some(Leftover(toks[p.pos]));
    }
    q := Query(Some(root), p.err);
  }
}
