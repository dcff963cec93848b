/** Queries put together: `|` between two token lists, and lists in parentheses side by side. */
module QueryCompose {
  import opened Wrappers
  import opened QueryMatch
  import opened QueryParser
  import A = QueryAtoms
  import E = QueryErrors
  import S = QuerySyntax
  import Text

  predicate LastNotBang(ts: seq<string>) { ts == [] || ts[|ts| - 1] != "!" }

  /** Tokens that end whatever is being parsed before them. */
  predicate Ends(ext: seq<string>) { ext != [] && (ext[0] == "|" || ext[0] == ")") }

  /** More tokens after an error-free parse change nothing but what is left over. */
  lemma {:induction false} UnaryExtends(env: Env, ts: seq<string>, ext: seq<string>)
    requires ts != [] && LastNotBang(ts) && Ends(ext) && ParseUnary(env, ts, None).err.None?
    ensures var r := ParseUnary(env, ts, None);
            ParseUnary(env, ts + ext, None) == Parsed(r.node, r.rest + ext, None) && LastNotBang(r.rest)
    decreases |ts|, 1
  {
    hide OrKids, AndKids, Compile;
    assert (ts + ext)[1..] == ts[1..] + ext && (ts + ext)[0] == ts[0];
    if ts[0] == "!" {
      UnaryBang(env, ts, None);
      UnaryBang(env, ts + ext, None);
      UnaryExtends(env, ts[1..], ext);
    } else if ts[0] == "(" {
      OpenExtends(env, ts, ext);
    }
  }

  lemma {:induction false} OpenExtends(env: Env, ts: seq<string>, ext: seq<string>)
    requires ts != [] && ts[0] == "(" && LastNotBang(ts) && Ends(ext) && ParseUnary(env, ts, None).err.None?
    ensures var r := ParseUnary(env, ts, None);
            ParseUnary(env, ts + ext, None) == Parsed(r.node, r.rest + ext, None) && LastNotBang(r.rest)
    decreases |ts|, 0
  {
    hide ParseUnary, OrKids;
    assert (ts + ext)[1..] == ts[1..] + ext;
    UnaryOpen(env, ts, None);
    UnaryOpen(env, ts + ext, None);
    var inner := OrKids(env, ts[1..], None);
    OrExtends(env, ts[1..], ext);
    assert (inner.rest + ext)[1..] == inner.rest[1..] + ext;
  }

  lemma {:induction false} AndExtends(env: Env, ts: seq<string>, ext: seq<string>)
    requires LastNotBang(ts) && Ends(ext) && AndKids(env, ts, None).err.None?
    ensures var r := AndKids(env, ts, None);
            AndKids(env, ts + ext, None) == ParsedList(r.kids, r.rest + ext, None) && LastNotBang(r.rest)
    decreases |ts|, 2
  {
    if ts == [] {
      assert ts + ext == ext;
    } else if !EndsAnd(ts[0]) {
      var u := ParseUnary(env, ts, None);
      E.AndKeeps(env, u.rest, u.err);
      UnaryExtends(env, ts, ext);
      AndExtends(env, u.rest, ext);
    }
  }

  lemma {:induction false} OrExtends(env: Env, ts: seq<string>, ext: seq<string>)
    requires LastNotBang(ts) && Ends(ext) && OrKids(env, ts, None).err.None?
    ensures var r := OrKids(env, ts, None);
            && LastNotBang(r.rest)
            && (r.rest != [] ==> OrKids(env, ts + ext, None) == ParsedList(r.kids, r.rest + ext, None))
            && (r.rest == [] ==>
                  var more := OrMore(env, ext, None);
                  OrKids(env, ts + ext, None) == ParsedList(r.kids + more.kids, more.rest, more.err))
    decreases |ts|, 4
  {
    var a := AndKids(env, ts, None);
    E.OrMoreKeeps(env, a.rest, a.err);
    AndExtends(env, ts, ext);
    MoreExtends(env, a.rest, ext);
    var head := [One(a.kids, true)];
    hide AndKids, OrMore;
    var m := OrMore(env, a.rest, None);
    S.Regroup(head, m.kids, [], OrMore(env, ext, None).kids);
  }

  lemma {:induction false} MoreExtends(env: Env, ts: seq<string>, ext: seq<string>)
    requires LastNotBang(ts) && Ends(ext) && OrMore(env, ts, None).err.None?
    ensures var r := OrMore(env, ts, None);
            && LastNotBang(r.rest)
            && (r.rest != [] ==> OrMore(env, ts + ext, None) == ParsedList(r.kids, r.rest + ext, None))
            && (r.rest == [] ==>
                  var more := OrMore(env, ext, None);
                  OrMore(env, ts + ext, None) == ParsedList(r.kids + more.kids, more.rest, more.err))
    decreases |ts|, 3
  {
    hide OrKids;
    if ts != [] && ts[0] == "|" {
      assert (ts + ext)[1..] == ts[1..] + ext;
      OrExtends(env, ts[1..], ext);
    } else if ts == [] {
      assert [] + ext == ext;
      var more := OrMore(env, ext, None);
      assert [] + more.kids == more.kids;
    }
  }

  /** What an error-free query over a token list means. */
  lemma QueryMeans(env: Env, ts: seq<string>, f: Flow)
    requires CompileTokens(env, ts).err.None?
    ensures var r := OrKids(env, ts, None);
            r.rest == [] && r.err.None? && CompileTokens(env, ts).Match(env, f) == EvalAny(env, r.kids, f)
  {
    var r := OrKids(env, ts, None);
    if ts == [] {
      assert AndKids(env, ts, None) == ParsedList([], [], None);
      assert r.kids == [All([])] && Eval(env, All([]), f);
    } else {
      S.OneMeans(env, r.kids, false, f);
    }
  }

  lemma BarReads(env: Env, a: seq<string>, b: seq<string>)
    requires CompileTokens(env, a).err.None? && CompileTokens(env, b).err.None? && LastNotBang(a)
    ensures OrKids(env, a + ["|"] + b, None)
         == ParsedList(OrKids(env, a, None).kids + OrKids(env, b, None).kids, [], None)
  {
    var ext := ["|"] + b;
    assert a + ["|"] + b == a + ext && ext[1..] == b;
    NothingLeft(env, a);
    NothingLeft(env, b);
    hide OrKids, CompileTokens;
    OrExtends(env, a, ext);
  }

  lemma NothingLeft(env: Env, ts: seq<string>)
    requires CompileTokens(env, ts).err.None?
    ensures var r := OrKids(env, ts, None); r.rest == [] && r.err.None?
  {
  }

  /** `|` between two error-free token lists is the disjunction of the two queries. */
  lemma BarIsOr(env: Env, a: seq<string>, b: seq<string>)
    requires CompileTokens(env, a).err.None? && CompileTokens(env, b).err.None? && LastNotBang(a)
    ensures var q := CompileTokens(env, a + ["|"] + b);
            q.err.None?
            && forall f :: q.Match(env, f) == (CompileTokens(env, a).Match(env, f) || CompileTokens(env, b).Match(env, f))
  {
    var ts := a + ["|"] + b;
    BarReads(env, a, b);
    assert CompileTokens(env, ts).err.None?;
    forall f
      ensures CompileTokens(env, ts).Match(env, f)
           == (CompileTokens(env, a).Match(env, f) || CompileTokens(env, b).Match(env, f))
    {
      QueryMeans(env, a, f);
      QueryMeans(env, b, f);
      QueryMeans(env, ts, f);
      hide OrKids, CompileTokens;
      S.EvalAnyConcat(env, OrKids(env, a, None).kids, OrKids(env, b, None).kids, f);
    }
  }

  // ---- a bar after a bang -------------------------------------------------

  /** Directly after a `!` the bar is taken for an atom, whatever follows. */
  lemma BangTakesTheBar(env: Env, ts: seq<string>, err: Err)
    ensures ParseUnary(env, ["!", "|"] + ts, err) == Parsed(Not(Leaf(Compile(env, "|"))), ts, err)
  {
    hide Compile;
    var all := ["!", "|"] + ts;
    UnaryBang(env, all, err);
    assert all[1..][0] == "|" && all[1..][1..] == ts;
    ShortBar(env);
  }

  lemma ShortBar(env: Env)
    ensures !Compile(env, "|").bad
  {
    E.ShortCompiles(env, "|");
  }

  /** A token that is an atom wherever it stands. */
  predicate Ordinary(w: string) { w != "" && w != "(" && w != ")" && w != "|" && w != "!" }

  /** The same tokens, but for bars directly after a bang, which may have become `w`. */
  predicate Swapped(x: seq<string>, y: seq<string>, w: string, bang: bool) {
    if x == [] then y == []
    else
      && y != [] && (y[0] == x[0] || (bang && x[0] == "|" && y[0] == w))
      && Swapped(x[1..], y[1..], w, x[0] == "!")
  }

  lemma {:induction false} SwapNothing(ts: seq<string>, w: string, bang: bool)
    ensures Swapped(ts, ts, w, bang)
  {
    if ts != [] {
      SwapNothing(ts[1..], w, ts[0] == "!");
    }
  }

  lemma {:induction false} SwapOne(pre: seq<string>, b: seq<string>, w: string, bang: bool)
    ensures Swapped(pre + (["!", "|"] + b), pre + (["!", w] + b), w, bang)
  {
    var x, y := pre + (["!", "|"] + b), pre + (["!", w] + b);
    if pre == [] {
      assert x[1..] == ["|"] + b && y[1..] == [w] + b && x[1..][1..] == b && y[1..][1..] == b;
      SwapNothing(b, w, false);
    } else {
      assert x[1..] == pre[1..] + (["!", "|"] + b) && y[1..] == pre[1..] + (["!", w] + b);
      SwapOne(pre[1..], b, w, pre[0] == "!");
    }
  }

  lemma {:induction false} UnarySwap(env: Env, x: seq<string>, y: seq<string>, w: string, bang: bool, err: Err)
    requires Swapped(x, y, w, bang) && Ordinary(w) && Compile(env, w) == Compile(env, "|")
    requires x != [] && (bang || !EndsAnd(x[0]))
    ensures var r, q := ParseUnary(env, x, err), ParseUnary(env, y, err);
            q.node == r.node && q.err == r.err && Swapped(r.rest, q.rest, w, false)
    decreases |x|, 1
  {
    hide ParseUnary, Compile;
    if x[0] == "!" {
      UnaryBang(env, x, err);
      UnaryBang(env, y, err);
      if x[1..] == [] {
        LastBang(env, err);
      } else {
        UnarySwap(env, x[1..], y[1..], w, true, err);
      }
    } else if x[0] == "(" {
      OpenSwap(env, x, y, w, bang, err);
    } else {
      ShortBar(env);
      AtomRead(env, x, err);
      AtomRead(env, y, err);
    }
  }

  lemma AtomRead(env: Env, ts: seq<string>, err: Err)
    requires ts != [] && ts[0] != "!" && ts[0] != "("
    ensures ParseUnary(env, ts, err)
         == if ts[0] == ")" then Parsed(All([]), ts[1..], Note(err, UnexpectedParen))
            else
              var tok := Compile(env, ts[0]);
              Parsed(Leaf(tok), ts[1..], if tok.bad then Note(err, BadRegex(ts[0])) else err)
  {
    hide Compile;
  }

  lemma LastBang(env: Env, err: Err)
    ensures ParseUnary(env, [], err).rest == []
  {
  }

  lemma {:induction false} OpenSwap(env: Env, x: seq<string>, y: seq<string>, w: string, bang: bool, err: Err)
    requires Swapped(x, y, w, bang) && Ordinary(w) && Compile(env, w) == Compile(env, "|")
    requires x != [] && x[0] == "("
    ensures var r, q := ParseUnary(env, x, err), ParseUnary(env, y, err);
            q.node == r.node && q.err == r.err && Swapped(r.rest, q.rest, w, false)
    decreases |x|, 0
  {
    hide ParseUnary, OrKids, Compile;
    UnaryOpen(env, x, err);
    UnaryOpen(env, y, err);
    OrSwap(env, x[1..], y[1..], w, err);
  }

  lemma {:induction false} AndSwap(env: Env, x: seq<string>, y: seq<string>, w: string, err: Err)
    requires Swapped(x, y, w, false) && Ordinary(w) && Compile(env, w) == Compile(env, "|")
    ensures var r, q := AndKids(env, x, err), AndKids(env, y, err);
            q.kids == r.kids && q.err == r.err && Swapped(r.rest, q.rest, w, false)
    decreases |x|, 2
  {
    hide ParseUnary, Compile;
    if !EndsAnd(Peek(x)) {
      UnarySwap(env, x, y, w, false, err);
      var u, v := ParseUnary(env, x, err), ParseUnary(env, y, err);
      AndSwap(env, u.rest, v.rest, w, u.err);
    }
  }

  lemma {:induction false} OrMoreSwap(env: Env, x: seq<string>, y: seq<string>, w: string, err: Err)
    requires Swapped(x, y, w, false) && Ordinary(w) && Compile(env, w) == Compile(env, "|")
    ensures var r, q := OrMore(env, x, err), OrMore(env, y, err);
            q.kids == r.kids && q.err == r.err && Swapped(r.rest, q.rest, w, false)
    decreases |x|, 3
  {
    hide OrKids, Compile;
    if Peek(x) == "|" {
      OrSwap(env, x[1..], y[1..], w, err);
    }
  }

  lemma {:induction false} OrSwap(env: Env, x: seq<string>, y: seq<string>, w: string, err: Err)
    requires Swapped(x, y, w, false) && Ordinary(w) && Compile(env, w) == Compile(env, "|")
    ensures var r, q := OrKids(env, x, err), OrKids(env, y, err);
            q.kids == r.kids && q.err == r.err && Swapped(r.rest, q.rest, w, false)
    decreases |x|, 4
  {
    hide AndKids, OrMore, Compile, Swapped;
    AndSwap(env, x, y, w, err);
    var a, b := AndKids(env, x, err), AndKids(env, y, err);
    OrMoreSwap(env, a.rest, b.rest, w, a.err);
  }

  /**
   The case that `BarIsOr` leaves out. Where the first list ends in `!`, the bar is no alternative: the
   query, tree and error, is the one with any atom `w` of the same meaning in the bar's place.
   */
  lemma BarAfterBang(env: Env, pre: seq<string>, b: seq<string>, w: string)
    requires Ordinary(w) && Compile(env, w) == Compile(env, "|")
    ensures CompileTokens(env, pre + ["!"] + ["|"] + b) == CompileTokens(env, pre + ["!"] + [w] + b)
  {
    hide OrKids, Compile;
    var x, y := pre + ["!"] + ["|"] + b, pre + ["!"] + [w] + b;
    assert x == pre + (["!", "|"] + b) && y == pre + (["!", w] + b);
    SwapOne(pre, b, w, false);
    OrSwap(env, x, y, w, None);
  }

  /** And there is such an atom: the bar, searched for in the URL. */
  lemma BarSearchesURL(env: Env)
    requires env.lower("url") == "url"
    ensures Ordinary("url:|") && Compile(env, "url:|") == Compile(env, "|")
  {
    hide Text.Index, Keyed;
    var w := "url:|";
    A.IndexIs(w, ":", 3);
    KeyedURL(env);
    forall k: nat
      ensures !Text.OccursAt("|", ":", k)
    {
      A.CharAt("|", ':', k);
    }
    assert Text.Index("|", ":") == -1;
    A.NotBefore("|", "!");
    A.NotBefore(w, "!");
    assert Compile(env, "|") == Token(false, Url, env.lower("|"), false);
  }

  lemma KeyedURL(env: Env)
    requires env.lower("url") == "url"
    ensures Keyed(env, false, "url:|", 3) == Token(false, Url, env.lower("|"), false)
  {
    assert "url:|"[..3] == "url" && "url:|"[4..] == "|";
  }

  /** Each list in parentheses, one after the other. */
  function Groups(lists: seq<seq<string>>): seq<string> {
    if lists == [] then [] else ["("] + lists[0] + [")"] + Groups(lists[1..])
  }

  predicate AllMatch(env: Env, lists: seq<seq<string>>, f: Flow) {
    forall i :: 0 <= i < |lists| ==> CompileTokens(env, lists[i]).Match(env, f)
  }

  lemma AllMatchCons(env: Env, lists: seq<seq<string>>, f: Flow)
    requires lists != []
    ensures AllMatch(env, lists, f) == (CompileTokens(env, lists[0]).Match(env, f) && AllMatch(env, lists[1..], f))
  {
    hide CompileTokens;
    assert forall i :: 0 < i < |lists| ==> lists[i] == lists[1..][i - 1];
  }

  lemma AndCons(env: Env, ts: seq<string>, f: Flow)
    requires ts != [] && !EndsAnd(ts[0])
    ensures var u := ParseUnary(env, ts, None);
            var r, more := AndKids(env, ts, None), AndKids(env, u.rest, u.err);
            r.rest == more.rest && r.err == more.err
            && EvalAll(env, r.kids, f) == (Eval(env, u.node, f) && EvalAll(env, more.kids, f))
  {
    var u := ParseUnary(env, ts, None);
    var more := AndKids(env, u.rest, u.err);
    assert ([u.node] + more.kids)[1..] == more.kids;
  }

  lemma {:induction false} GroupsRead(env: Env, lists: seq<seq<string>>, f: Flow)
    requires forall i :: 0 <= i < |lists| ==> CompileTokens(env, lists[i]).err.None? && LastNotBang(lists[i])
    ensures var r := AndKids(env, Groups(lists), None);
            r.rest == [] && r.err.None? && EvalAll(env, r.kids, f) == AllMatch(env, lists, f)
  {
    if lists != [] {
      var ts, tail := lists[0], Groups(lists[1..]);
      S.Regroup(["("], ts, [")"], tail);
      GroupRead(env, ts, tail, f);
      GroupsRead(env, lists[1..], f);
      AndCons(env, Groups(lists), f);
      AllMatchCons(env, lists, f);
    }
  }

  lemma GroupRead(env: Env, ts: seq<string>, tail: seq<string>, f: Flow)
    requires CompileTokens(env, ts).err.None? && LastNotBang(ts)
    ensures var u := ParseUnary(env, ["("] + (ts + ([")"] + tail)), None);
            u.rest == tail && u.err.None? && Eval(env, u.node, f) == CompileTokens(env, ts).Match(env, f)
  {
    var ext := [")"] + tail;
    QueryMeans(env, ts, f);
    OrExtends(env, ts, ext);
    assert (["("] + (ts + ext))[1..] == ts + ext && ext[1..] == tail;
    var r := OrKids(env, ts, None);
    assert r.kids + [] == r.kids;
    assert OrKids(env, ts + ext, None) == ParsedList(r.kids, ext, None);
    S.OneMeans(env, r.kids, false, f);
  }

  /** A list that ends in `!` leaves that `!` directly in front of its closing parenthesis. */
  lemma {:induction false} BangCloses(lists: seq<seq<string>>, i: nat)
    requires i < |lists| && !LastNotBang(lists[i])
    ensures !E.NoBangClose(Groups(lists))
  {
    var ts, tail := lists[0], Groups(lists[1..]);
    var n := 2 + |ts|;
    assert Groups(lists) == ["("] + ts + [")"] + tail;
    if i == 0 {
      assert Groups(lists)[n - 2] == ts[|ts| - 1] && Groups(lists)[n - 1] == ")";
    } else {
      BangCloses(lists[1..], i - 1);
      var j :| 0 <= j < |tail| - 1 && tail[j] == "!" && tail[j + 1] == ")";
      assert Groups(lists)[n + j] == tail[j] && Groups(lists)[n + j + 1] == tail[j + 1];
    }
  }

  /**
   Error-free lists in parentheses side by side are an error exactly when some list ends in `!`, and
   otherwise the conjunction of their queries.
   */
  lemma GroupsAreAnd(env: Env, lists: seq<seq<string>>, f: Flow)
    requires forall i :: 0 <= i < |lists| ==> CompileTokens(env, lists[i]).err.None?
    ensures var q := CompileTokens(env, Groups(lists));
            && (q.err.None? <==> forall i :: 0 <= i < |lists| ==> LastNotBang(lists[i]))
            && (q.err.None? ==> q.Match(env, f) == AllMatch(env, lists, f))
  {
    hide AndKids, CompileTokens, Groups;
    var ts := Groups(lists);
    if i :| 0 <= i < |lists| && !LastNotBang(lists[i]) {
      BangCloses(lists, i);
      E.ErrorExactly(env, ts);
    } else {
      GroupsRead(env, lists, f);
      OneAlternative(env, ts, f);
      QueryMeans(env, ts, f);
    }
  }

  lemma OneAlternative(env: Env, ts: seq<string>, f: Flow)
    requires var a := AndKids(env, ts, None); a.rest == [] && a.err.None?
    ensures CompileTokens(env, ts).err.None?
    ensures EvalAny(env, OrKids(env, ts, None).kids, f) == EvalAll(env, AndKids(env, ts, None).kids, f)
  {
    var a := AndKids(env, ts, None);
    var k := One(a.kids, true);
    hide AndKids;
    assert OrMore(env, [], None) == ParsedList([], [], None);
    assert OrKids(env, ts, None) == ParsedList([k], [], None) by { assert [k] + [] == [k]; }
    S.OneMeans(env, a.kids, true, f);
    assert [k][1..] == [];
  }
}
