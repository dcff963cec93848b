/** When the filter parser reports an error (internal/core/query.go). */
module QueryErrors {
  import opened Wrappers
  import opened QueryMatch
  import opened QueryParser

  /** Parenthesis depth after the tokens, or None where it would go below zero. */
  function Depth(ts: seq<string>, d: nat): Option<nat> {
    if ts == [] then Some(d)
    else if ts[0] == "(" then Depth(ts[1..], d + 1)
    else if ts[0] == ")" then if d == 0 then None else Depth(ts[1..], d - 1)
    else Depth(ts[1..], d)
  }

  predicate Balanced(ts: seq<string>) { Depth(ts, 0) == Some(0) }

  /** No `!` is directly followed by `)`. */
  predicate NoBangClose(ts: seq<string>) {
    forall i :: 0 <= i < |ts| - 1 ==> !(ts[i] == "!" && ts[i + 1] == ")")
  }

  /** Every empty token, which is what a quoted empty string gives, directly follows a `!`. */
  predicate EmptyAfterBang(ts: seq<string>) {
    forall i :: 0 <= i < |ts| && ts[i] == "" ==> 0 < i && ts[i - 1] == "!"
  }

  /** No atom is a broken regular expression. */
  predicate AllCompile(env: Env, ts: seq<string>) {
    forall i :: 0 <= i < |ts| ==> !Compile(env, ts[i]).bad
  }

  // ---- the conditions, token by token -------------------------------------

  /** What is asked of one token, given whether a `!` stands before it. */
  predicate Fine(env: Env, t: string, bang: bool) {
    (if bang then t != ")" else t != "") && !Compile(env, t).bad
  }

  predicate AllFine(env: Env, ts: seq<string>, bang: bool) {
    ts == [] || (Fine(env, ts[0], bang) && AllFine(env, ts[1..], ts[0] == "!"))
  }

  predicate FineAt(env: Env, ts: seq<string>, bang: bool, i: nat)
    requires i < |ts|
  {
    Fine(env, ts[i], if i == 0 then bang else ts[i - 1] == "!")
  }

  lemma {:induction false} AllFineAt(env: Env, ts: seq<string>, bang: bool)
    ensures AllFine(env, ts, bang) <==> forall i :: 0 <= i < |ts| ==> FineAt(env, ts, bang, i)
  {
    hide Fine;
    if ts != [] {
      var tail, b := ts[1..], ts[0] == "!";
      AllFineAt(env, tail, b);
      assert FineAt(env, ts, bang, 0) == Fine(env, ts[0], bang);
      assert forall i :: 0 <= i < |tail| ==> FineAt(env, tail, b, i) == FineAt(env, ts, bang, i + 1);
      assert forall i :: 1 <= i < |ts| ==> FineAt(env, ts, bang, i) == FineAt(env, tail, b, i - 1);
    }
  }

  lemma AllFineMeans(env: Env, ts: seq<string>)
    ensures AllFine(env, ts, false) <==> NoBangClose(ts) && EmptyAfterBang(ts) && AllCompile(env, ts)
  {
    hide Compile, AllFine;
    AllFineAt(env, ts, false);
    if NoBangClose(ts) && EmptyAfterBang(ts) && AllCompile(env, ts) {
      forall i | 0 <= i < |ts|
        ensures FineAt(env, ts, false, i)
      {
        assert 0 < i ==> !(ts[i - 1] == "!" && ts[i - 1 + 1] == ")");
      }
    }
    if AllFine(env, ts, false) {
      forall i | 0 <= i < |ts|
        ensures !Compile(env, ts[i]).bad
      {
        assert FineAt(env, ts, false, i);
      }
      forall i | 0 <= i < |ts| && ts[i] == ""
        ensures 0 < i && ts[i - 1] == "!"
      {
        assert FineAt(env, ts, false, i);
      }
      forall i | 0 <= i < |ts| - 1
        ensures !(ts[i] == "!" && ts[i + 1] == ")")
      {
        assert FineAt(env, ts, false, i + 1);
      }
    }
  }

  lemma ShortCompiles(env: Env, t: string)
    requires |t| <= 1
    ensures !Compile(env, t).bad
  {
    hide Keyed;
    if t != "" && t != "!" {
      KeyedCompiles(env, t);
    }
  }

  lemma KeyedCompiles(env: Env, t: string)
    requires t != "" && |t| <= 1
    ensures forall neg, i: nat :: i < |t| ==> !Keyed(env, neg, t, i).bad
  {
    hide StatusPredicate;
  }

  // ---- an error stays -----------------------------------------------------

  lemma {:induction false} UnaryKeeps(env: Env, ts: seq<string>, err: Err)
    ensures err.Some? ==> ParseUnary(env, ts, err).err == err
    decreases |ts|, 1
  {
    if ts != [] && ts[0] == "!" {
      hide ParseUnary;
      UnaryBang(env, ts, err);
      UnaryKeeps(env, ts[1..], err);
    } else if ts != [] && ts[0] == "(" {
      OpenKeeps(env, ts, err);
    } else {
      hide OrKids;
    }
  }

  lemma {:induction false} OpenKeeps(env: Env, ts: seq<string>, err: Err)
    requires ts != [] && ts[0] == "("
    ensures err.Some? ==> ParseUnary(env, ts, err).err == err
    decreases |ts|, 0
  {
    hide ParseUnary, OrKids;
    UnaryOpen(env, ts, err);
    OrKeeps(env, ts[1..], err);
  }

  lemma {:induction false} AndKeeps(env: Env, ts: seq<string>, err: Err)
    ensures err.Some? ==> AndKids(env, ts, err).err == err
    decreases |ts|, 2
  {
    if !EndsAnd(Peek(ts)) {
      UnaryKeeps(env, ts, err);
      var u := ParseUnary(env, ts, err);
      AndKeeps(env, u.rest, u.err);
    }
  }

  lemma {:induction false} OrMoreKeeps(env: Env, ts: seq<string>, err: Err)
    ensures err.Some? ==> OrMore(env, ts, err).err == err
    decreases |ts|, 3
  {
    if Peek(ts) == "|" {
      OrKeeps(env, ts[1..], err);
    }
  }

  lemma {:induction false} OrKeeps(env: Env, ts: seq<string>, err: Err)
    ensures err.Some? ==> OrKids(env, ts, err).err == err
    decreases |ts|, 4
  {
    AndKeeps(env, ts, err);
    var a := AndKids(env, ts, err);
    OrMoreKeeps(env, a.rest, a.err);
  }

  // ---- what a parse says about the tokens it took -------------------------

  /** No error: the tokens taken were fine and balanced. An error: the tokens, if balanced, are not all fine. */
  ghost predicate Sound(env: Env, ts: seq<string>, bang: bool, rest: seq<string>, err: Err) {
    if err.None? then
      && (forall d: nat :: Depth(ts, d) == Depth(rest, d))
      && AllFine(env, ts, bang) == AllFine(env, rest, false)
    else
      forall d: nat :: Depth(ts, d) == Some(0) ==> !AllFine(env, ts, bang)
  }

  lemma SoundThen(env: Env, ts: seq<string>, bang: bool, mid: seq<string>, rest: seq<string>, err: Err)
    requires Sound(env, ts, bang, mid, None) && Sound(env, mid, false, rest, err)
    ensures Sound(env, ts, bang, rest, err)
  {
    if err.Some? {
      forall d: nat | Depth(ts, d) == Some(0)
        ensures !AllFine(env, ts, bang)
      {
        assert Depth(mid, d) == Some(0);
      }
    }
  }

  lemma BangStep(env: Env, ts: seq<string>, bang: bool, rest: seq<string>, err: Err)
    requires ts != [] && ts[0] == "!" && Sound(env, ts[1..], true, rest, err)
    ensures Sound(env, ts, bang, rest, err)
  {
    ShortCompiles(env, "!");
    assert forall d: nat :: Depth(ts, d) == Depth(ts[1..], d);
    if err.Some? {
      forall d: nat | Depth(ts, d) == Some(0)
        ensures !AllFine(env, ts, bang)
      {
        assert Depth(ts[1..], d) == Some(0);
      }
    }
  }

  lemma {:induction false} UnarySound(env: Env, ts: seq<string>, bang: bool)
    requires ts != [] && (bang || !EndsAnd(ts[0]))
    ensures var r := ParseUnary(env, ts, None); Sound(env, ts, bang, r.rest, r.err)
    decreases |ts|, 1
  {
    var rest := ts[1..];
    if ts[0] == "!" {
      UnaryBang(env, ts, None);
      if rest == [] {
        ShortCompiles(env, "");
        ShortCompiles(env, "!");
        hide Compile;
        assert ParseUnary(env, rest, None) == Parsed(Leaf(Compile(env, "")), [], None);
        assert forall d: nat :: Depth(ts, d) == Depth([], d);
        assert AllFine(env, rest, true);
      } else {
        UnarySound(env, rest, true);
        hide ParseUnary, Sound;
        var k := ParseUnary(env, rest, None);
        BangStep(env, ts, bang, k.rest, k.err);
      }
    } else if ts[0] == "(" {
      GroupSound(env, ts, bang);
    } else {
      AtomSound(env, ts, bang);
    }
  }

  lemma AtomSound(env: Env, ts: seq<string>, bang: bool)
    requires ts != [] && ts[0] != "!" && ts[0] != "(" && (bang || !EndsAnd(ts[0]))
    ensures var r := ParseUnary(env, ts, None); Sound(env, ts, bang, r.rest, r.err)
  {
    hide Compile;
    var rest := ts[1..];
    assert AllFine(env, ts, bang) == (Fine(env, ts[0], bang) && AllFine(env, rest, false));
    if ts[0] == ")" {
      assert !AllFine(env, ts, bang);
    } else {
      assert forall d: nat :: Depth(ts, d) == Depth(rest, d);
    }
  }

  lemma OpenStep(env: Env, ts: seq<string>, bang: bool)
    requires ts != [] && ts[0] == "("
    ensures forall d: nat :: Depth(ts, d) == Depth(ts[1..], d + 1)
    ensures AllFine(env, ts, bang) == AllFine(env, ts[1..], false)
  {
    ShortCompiles(env, "(");
  }

  lemma CloseStep(env: Env, ts: seq<string>)
    requires ts != [] && ts[0] == ")"
    ensures forall d: nat :: Depth(ts, d + 1) == Depth(ts[1..], d)
    ensures AllFine(env, ts, false) == AllFine(env, ts[1..], false)
  {
    ShortCompiles(env, ")");
  }

  lemma GroupLifts(env: Env, ts: seq<string>, bang: bool, rest: seq<string>, err: Err)
    requires ts != [] && ts[0] == "(" && Sound(env, ts[1..], false, rest, err)
    ensures err.Some? ==> Sound(env, ts, bang, rest, err)
    ensures err.None? && (rest == [] || rest[0] == "") ==> Sound(env, ts, bang, rest, Some(MissingParen))
    ensures err.None? && rest != [] && rest[0] == ")" ==> Sound(env, ts, bang, rest[1..], None)
  {
    OpenStep(env, ts, bang);
    if err.Some? {
      forall d: nat | Depth(ts, d) == Some(0)
        ensures !AllFine(env, ts, bang)
      {
        assert Depth(ts[1..], d + 1) == Some(0);
      }
    } else if rest == [] {
      forall d: nat
        ensures Depth(ts, d) != Some(0)
      {
        assert Depth(ts[1..], d + 1) == Depth([], d + 1);
      }
    } else if rest[0] == ")" {
      CloseStep(env, rest);
      forall d: nat
        ensures Depth(ts, d) == Depth(rest[1..], d)
      {
        assert Depth(ts[1..], d + 1) == Depth(rest, d + 1);
      }
    }
  }

  lemma {:induction false} GroupSound(env: Env, ts: seq<string>, bang: bool)
    requires ts != [] && ts[0] == "("
    ensures var r := ParseUnary(env, ts, None); Sound(env, ts, bang, r.rest, r.err)
    decreases |ts|, 0
  {
    OrSound(env, ts[1..]);
    UnaryOpen(env, ts, None);
    var inner := OrKids(env, ts[1..], None);
    hide Sound, Depth, AllFine, ParseUnary, OrKids;
    GroupLifts(env, ts, bang, inner.rest, inner.err);
  }

  lemma {:induction false} AndSound(env: Env, ts: seq<string>)
    ensures var r := AndKids(env, ts, None);
            && Sound(env, ts, false, r.rest, r.err)
            && (r.err.None? ==> r.rest == [] || EndsAnd(r.rest[0]))
    decreases |ts|, 2
  {
    if !EndsAnd(Peek(ts)) {
      UnarySound(env, ts, false);
      var u := ParseUnary(env, ts, None);
      if u.err.Some? {
        AndKeeps(env, u.rest, u.err);
      } else {
        AndSound(env, u.rest);
        var m := AndKids(env, u.rest, None);
        SoundThen(env, ts, false, u.rest, m.rest, m.err);
      }
    }
  }

  lemma BarStep(env: Env, ts: seq<string>)
    requires ts != [] && ts[0] == "|"
    ensures Sound(env, ts, false, ts[1..], None)
  {
    ShortCompiles(env, "|");
    assert forall d: nat :: Depth(ts, d) == Depth(ts[1..], d);
  }

  lemma {:induction false} OrSound(env: Env, ts: seq<string>)
    ensures var r := OrKids(env, ts, None);
            && Sound(env, ts, false, r.rest, r.err)
            && (r.err.None? ==> r.rest == [] || r.rest[0] == ")" || r.rest[0] == "")
    decreases |ts|, 3
  {
    AndSound(env, ts);
    var a := AndKids(env, ts, None);
    hide Sound;
    if a.err.Some? {
      OrMoreKeeps(env, a.rest, a.err);
      ErrorIgnoresRest(env, ts, a.rest, OrMore(env, a.rest, a.err).rest, a.err);
    } else if Peek(a.rest) == "|" {
      var rest := a.rest[1..];
      OrSound(env, rest);
      var m := OrKids(env, rest, None);
      BarStep(env, a.rest);
      SoundThen(env, a.rest, false, rest, m.rest, m.err);
      SoundThen(env, ts, false, a.rest, m.rest, m.err);
    }
  }

  lemma ErrorIgnoresRest(env: Env, ts: seq<string>, a: seq<string>, b: seq<string>, err: Err)
    requires Sound(env, ts, false, a, err) && err.Some?
    ensures Sound(env, ts, false, b, err)
  {
  }

  /**
   For every list of tokens an error is reported exactly when the parentheses are unbalanced, some `!` is
   directly followed by `)`, some empty token does not directly follow a `!`, or some atom does not compile.
   */
  lemma ErrorExactly(env: Env, ts: seq<string>)
    ensures CompileTokens(env, ts).err.None?
        <==> Balanced(ts) && NoBangClose(ts) && EmptyAfterBang(ts) && AllCompile(env, ts)
  {
    hide Compile;
    AllFineMeans(env, ts);
    if ts != [] {
      OrSound(env, ts);
      var r := OrKids(env, ts, None);
      assert Depth(ts, 0) == Some(0) && AllFine(env, ts, false) ==> r.err.None?;
      if r.err.None? {
        assert Depth(ts, 0) == Depth(r.rest, 0);
      }
    }
  }
}
