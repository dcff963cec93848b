/** The filter atoms as the guide documents them (internal/core/query.go, compileToken to matchPositive). */
module QueryAtoms {
  import opened Wrappers
  import opened Text
  import opened QueryMatch
  import Decimal

  predicate NoCapitals(s: string) {
    forall i :: 0 <= i < |s| ==> s[i] as int < 128 && !('A' <= s[i] <= 'Z')
  }

  predicate NoSmalls(s: string) {
    forall i :: 0 <= i < |s| ==> s[i] as int < 128 && !('a' <= s[i] <= 'z')
  }

  /** What is used of Unicode case mapping: ASCII text without capitals, or without small letters, is its own. */
  ghost predicate CaseOk(env: Env) {
    (forall s :: NoCapitals(s) ==> env.lower(s) == s) && (forall s :: NoSmalls(s) ==> env.upper(s) == s)
  }

  predicate Int64(n: int) { -Decimal.MAX_INT - 1 <= n <= Decimal.MAX_INT }

  // ---- keys ---------------------------------------------------------------

  lemma CharAt(s: string, c: char, k: nat)
    ensures OccursAt(s, [c], k) <==> k < |s| && s[k] == c
  {
    if k < |s| {
      assert s[k..k + 1] == [s[k]];
    }
  }

  lemma IndexIs(s: string, sub: string, k: nat)
    requires |sub| == 1 && k < |s| && s[k] == sub[0]
    requires forall j :: 0 <= j < k ==> s[j] != sub[0]
    ensures Index(s, sub) == k
  {
    assert sub == [sub[0]];
    forall j: nat | j < k ensures !OccursAt(s, sub, j) {
      CharAt(s, sub[0], j);
    }
    CharAt(s, sub[0], k);
  }

  predicate IsKey(key: string) {
    key != "" && NoCapitals(key) && ':' !in key && key[0] != '!' && key[0] != '/'
  }

  lemma KeyedAtom(env: Env, key: string, v: string)
    requires CaseOk(env) && IsKey(key)
    ensures var tok := key + (":" + v);
            && Compile(env, tok) == Keyed(env, false, tok, |key|)
            && env.lower(tok[..|key|]) == key && tok[|key| + 1..] == v
  {
    hide Keyed, Index;
    IndexIs(key + (":" + v), ":", |key|);
    var tok := key + (":" + v);
    assert tok[0] == key[0] && tok[..|key|] == key;
  }

  predicate StatusKey(key: string) { key == "status" || key == "s" || key == "code" }

  lemma StatusAtom(env: Env, key: string, v: string)
    requires CaseOk(env) && StatusKey(key)
    ensures Compile(env, key + (":" + v)) == Token(false, Status(StatusPredicate(env, v)), env.lower(v), false)
  {
    hide Compile, StatusPredicate;
    KeyedAtom(env, key, v);
  }

  // ---- status -------------------------------------------------------------

  lemma ItoaChars(n: int)
    ensures forall i :: 0 <= i < |Itoa(n)| ==> Itoa(n)[i] == '-' || '0' <= Itoa(n)[i] <= '9'
    ensures '0' <= Itoa(n)[|Itoa(n)| - 1] <= '9' && NoCapitals(Itoa(n))
  {
    hide Decimal.Digits;
    var s, c := Itoa(n), CharCodes(Itoa(n));
    forall i | 0 <= i < |s| ensures s[i] == '-' || '0' <= s[i] <= '9' {
      assert c[i] == s[i] as int;
    }
    assert c[|s| - 1] == s[|s| - 1] as int;
  }

  /** The value as it is tested: nothing to trim, nothing to lower. */
  lemma PlainValue(env: Env, v: string)
    requires CaseOk(env) && NoCapitals(v) && Trimmed(v)
    ensures env.lower(TrimSpace(v)) == v && env.lower(v) == v
  {
    hide TrimSpace, IsSpace;
    TrimPadded("", v, "");
    assert "" + v + "" == v;
  }

  predicate EndsInDigit(v: string) {
    v != "" && '0' <= v[|v| - 1] <= '9'
  }

  lemma NotBefore(v: string, p: string)
    requires v != "" && p != "" && v[0] != p[0]
    ensures !HasPrefix(v, p)
  {
    assert |p| <= |v| ==> v[..|p|][0] == v[0];
  }

  lemma NotAfter(v: string, t: string)
    requires v != "" && t != "" && v[|v| - 1] != t[|t| - 1]
    ensures !HasSuffix(v, t)
  {
    assert |t| <= |v| ==> v[|v| - |t|..][|t| - 1] == v[|v| - 1];
  }

  lemma NoOtherForm(v: string)
    requires EndsInDigit(v)
    ensures !HasSuffix(v, "xx") && v != "err" && v != "error"
  {
    NotAfter(v, "xx");
  }

  lemma NoMark(v: string)
    requires v != "" && (v[0] == '-' || '0' <= v[0] <= '9')
    ensures !HasPrefix(v, ">") && !HasPrefix(v, "<") && !HasPrefix(v, ">=") && !HasPrefix(v, "<=")
  {
    hide HasPrefix;
    NotBefore(v, ">");
    NotBefore(v, "<");
    NotBefore(v, ">=");
    NotBefore(v, "<=");
  }

  lemma Visible(c: char)
    requires 33 <= c as int < 127
    ensures !IsSpace(c)
  {
  }

  lemma VisibleTrims(v: string)
    requires v != "" && 33 <= v[0] as int < 127 && 33 <= v[|v| - 1] as int < 127
    ensures Trimmed(v)
  {
    hide IsSpace;
    Visible(v[0]);
    Visible(v[|v| - 1]);
  }

  lemma MarkedNumber(mark: string, n: int)
    requires forall i :: 0 <= i < |mark| ==> '<' <= mark[i] <= '>'
    ensures var v := mark + Itoa(n);
            NoCapitals(v) && Trimmed(v) && EndsInDigit(v) && v[|mark|..] == Itoa(n)
  {
    hide Itoa, Trimmed;
    ItoaChars(n);
    var v := mark + Itoa(n);
    assert v[|v| - 1] == Itoa(n)[|Itoa(n)| - 1];
    VisibleTrims(v);
  }

  lemma ZeroIsZero(n: int)
    requires Int64(n)
    ensures Itoa(n) == "0" <==> n == 0
  {
    AtoiOfItoa(n);
    AtoiOfItoa(0);
    assert CharCodes("0") == [48] && Decimal.Itoa(0) == [48];
    var s := Itoa(0);
    assert CharCodes(s)[0] == s[0] as int;
    assert s == "0";
  }

  lemma NumberTest(env: Env, n: int)
    requires CaseOk(env) && Int64(n)
    ensures StatusPredicate(env, Itoa(n)) == Exactly(n)
  {
    hide Itoa, TrimSpace, Atoi, HasSuffix, HasPrefix, Trimmed, EndsInDigit, NoCapitals;
    var v := Itoa(n);
    MarkedNumber("", n);
    assert "" + v == v;
    NoOtherForm(v);
    PlainValue(env, v);
    AtoiOfItoa(n);
    ItoaChars(n);
    NoMark(v);
  }

  lemma StatusMeans(env: Env, test: StatusTest, v: string, f: Flow)
    ensures MatchFlow(env, Token(false, Status(test), v, false), f)
        <==> if f.status == 0 then v == "0" || v == "err" || v == "error" else test.Holds(f.status)
  {
  }

  /** `status:404` selects exactly the flows with that status, 0 included. */
  lemma StatusIsExact(env: Env, key: string, n: int, f: Flow)
    requires CaseOk(env) && StatusKey(key) && Int64(n)
    ensures MatchFlow(env, Compile(env, key + (":" + Itoa(n))), f) <==> f.status == n
  {
    hide MatchFlow, Compile, Itoa, Atoi, StatusPredicate, EndsInDigit, TrimSpace, Trimmed, NoCapitals, HasSuffix, StatusKey, CaseOk;
    var v := Itoa(n);
    StatusAtom(env, key, v);
    StatusMeans(env, Exactly(n), v, f);
    MarkedNumber("", n);
    assert "" + v == v;
    NoOtherForm(v);
    PlainValue(env, v);
    NumberTest(env, n);
    ZeroIsZero(n);
  }

  datatype Comparison = Ge | Le | Gt | Lt

  function Mark(c: Comparison): string {
    match c
    case Ge => ">="
    case Le => "<="
    case Gt => ">"
    case Lt => "<"
  }

  predicate Compared(c: Comparison, code: int, n: int) {
    match c
    case Ge => code >= n
    case Le => code <= n
    case Gt => code > n
    case Lt => code < n
  }

  /** Which marks a marked number starts with. */
  lemma MarkStarts(c: Comparison, rest: string)
    requires rest != "" && rest[0] != '='
    ensures var v := Mark(c) + rest;
            && (HasPrefix(v, ">=") <==> c.Ge?) && (HasPrefix(v, "<=") <==> c.Le?)
            && (HasPrefix(v, ">") <==> c.Gt? || c.Ge?) && (HasPrefix(v, "<") <==> c.Lt? || c.Le?)
            && v[|Mark(c)|..] == rest
  {
    var v := Mark(c) + rest;
    assert v[..1] == [v[0]] && v[..2] == [v[0], v[1]];
  }

  /** The test of a value of known shape. */
  lemma ShapeTest(env: Env, c: Comparison, rest: string, n: int)
    requires var v := Mark(c) + rest;
             env.lower(TrimSpace(v)) == v && !HasSuffix(v, "xx") && rest != "" && rest[0] != '='
    requires Atoi(rest) == Some(n)
    ensures forall code :: StatusPredicate(env, Mark(c) + rest).Holds(code) <==> Compared(c, code, n)
  {
    hide TrimSpace, Atoi, HasSuffix, HasPrefix;
    MarkStarts(c, rest);
  }

  lemma MarkTest(env: Env, c: Comparison, n: int)
    requires CaseOk(env) && Int64(n)
    ensures forall code :: StatusPredicate(env, Mark(c) + Itoa(n)).Holds(code) <==> Compared(c, code, n)
  {
    hide Itoa, TrimSpace, Atoi, HasSuffix, Trimmed, NoCapitals, EndsInDigit, CaseOk, StatusPredicate;
    var v := Mark(c) + Itoa(n);
    MarkedNumber(Mark(c), n);
    NoOtherForm(v);
    PlainValue(env, v);
    AtoiOfItoa(n);
    ItoaChars(n);
    ShapeTest(env, c, Itoa(n), n);
  }

  /** `status:>=400` and its like compare, and never select a flow without a response. */
  lemma StatusCompares(env: Env, key: string, c: Comparison, n: int, f: Flow)
    requires CaseOk(env) && StatusKey(key) && Int64(n)
    ensures MatchFlow(env, Compile(env, key + (":" + (Mark(c) + Itoa(n)))), f)
        <==> f.status != 0 && Compared(c, f.status, n)
  {
    hide Compile, Itoa, TrimSpace, Atoi, HasSuffix, Trimmed, NoCapitals, EndsInDigit, StatusKey, CaseOk, StatusPredicate;
    var v := Mark(c) + Itoa(n);
    StatusAtom(env, key, v);
    MarkedNumber(Mark(c), n);
    NoOtherForm(v);
    PlainValue(env, v);
    MarkTest(env, c, n);
    assert v[0] == Mark(c)[0];
  }

  lemma OneDigit(d: char)
    requires '0' <= d <= '9'
    ensures Atoi([d]) == Some(d as int - 48)
  {
    var c := CharCodes([d]);
    assert c == [d as int];
    assert Decimal.Unsigned(c) == (false, c) && Decimal.IsNumeral(c);
    var ds := Decimal.FromCodes(c);
    assert ds[..0] == [] && Decimal.Value(ds) == ds[0];
  }

  /** `status:4xx` selects exactly the statuses of that hundred. */
  lemma StatusClass(env: Env, key: string, d: char, f: Flow)
    requires CaseOk(env) && StatusKey(key) && '0' <= d <= '9'
    ensures MatchFlow(env, Compile(env, key + (":" + [d, 'x', 'x'])), f)
        <==> f.status != 0 && f.status / 100 == d as int - 48
  {
    hide Compile, TrimSpace, Trimmed, NoCapitals, Atoi, StatusPredicate, StatusKey, CaseOk;
    var v := [d, 'x', 'x'];
    StatusAtom(env, key, v);
    ClassValue(env, d);
    ClassTest(env, d);
  }

  lemma ClassValue(env: Env, d: char)
    requires CaseOk(env) && '0' <= d <= '9'
    ensures env.lower(TrimSpace([d, 'x', 'x'])) == [d, 'x', 'x'] && env.lower([d, 'x', 'x']) == [d, 'x', 'x']
  {
    hide TrimSpace, Trimmed;
    VisibleTrims([d, 'x', 'x']);
    PlainValue(env, [d, 'x', 'x']);
  }

  lemma ClassTest(env: Env, d: char)
    requires CaseOk(env) && '0' <= d <= '9'
    ensures StatusPredicate(env, [d, 'x', 'x']) == Between((d as int - 48) * 100, (d as int - 48) * 100 + 99)
  {
    hide TrimSpace, Trimmed, Atoi, HasPrefix, CaseOk;
    var v := [d, 'x', 'x'];
    ClassValue(env, d);
    OneDigit(d);
    assert v[1..] == "xx" && v[..1] == [d];
  }

  /** `status:err` selects exactly the flows that never got a response. */
  lemma StatusError(env: Env, key: string, v: string, f: Flow)
    requires CaseOk(env) && StatusKey(key) && (v == "err" || v == "error")
    ensures MatchFlow(env, Compile(env, key + (":" + v)), f) <==> f.status == 0
  {
    hide Compile, TrimSpace, Trimmed, Atoi, StatusPredicate, StatusKey, CaseOk;
    StatusAtom(env, key, v);
    VisibleTrims(v);
    PlainValue(env, v);
    NeverTest(env, v);
  }

  lemma NeverTest(env: Env, v: string)
    requires CaseOk(env) && (v == "err" || v == "error")
    ensures StatusPredicate(env, v) == Never
  {
    hide TrimSpace, Trimmed, Atoi;
    VisibleTrims(v);
    PlainValue(env, v);
    NoNumber(v);
  }

  lemma NoNumber(v: string)
    requires v == "err" || v == "error"
    ensures Atoi(v).None?
  {
    var c := CharCodes(v);
    assert c[0] == 'e' as int && Decimal.Unsigned(c) == (false, c);
    assert !Decimal.IsNumeral(c);
  }

  // ---- negation, methods, substrings --------------------------------------

  lemma KeyedSigns(env: Env, field: string, i: nat)
    requires i < |field|
    ensures Keyed(env, true, field, i) == Keyed(env, false, field, i).(neg := true) && !Keyed(env, false, field, i).neg
  {
    hide StatusPredicate;
  }

  lemma SameSense(env: Env, t: Token, f: Flow)
    ensures MatchPositive(env, t.(neg := true), f) == MatchPositive(env, t, f)
  {
    hide AnyMethod, AnyTag, Contains;
  }

  /** `!` in front of an atom is its exact negation. */
  lemma NegatedAtom(env: Env, s: string, f: Flow)
    requires !HasPrefix(s, "!")
    ensures MatchFlow(env, Compile(env, "!" + s), f) == !MatchFlow(env, Compile(env, s), f)
  {
    hide Index, Keyed, MatchPositive;
    assert ("!" + s)[..1] == "!" && ("!" + s)[1..] == s;
    if 0 < Index(s, ":") {
      KeyedSigns(env, s, Index(s, ":"));
    }
    SameSense(env, Compile(env, s), f);
  }

  predicate MethodName(m: string) {
    m != "" && NoSmalls(m) && ',' !in m && Trimmed(m)
  }

  lemma {:induction false} SplitOfJoin(ms: seq<string>)
    requires ms != [] && forall i :: 0 <= i < |ms| ==> ',' !in ms[i]
    ensures Split(Join(ms, ","), ",") == ms
  {
    var s := Join(ms, ",");
    if |ms| == 1 {
      forall k: nat ensures !OccursAt(s, ",", k) {
        CharAt(s, ',', k);
      }
    } else {
      var m := ms[0];
      var rest := Join(ms[1..], ",");
      IndexIs(s, ",", |m|);
      assert s[..|m|] == m && s[|m| + 1..] == rest;
      SplitOfJoin(ms[1..]);
    }
  }

  lemma {:induction false} JoinHasNoSmalls(ms: seq<string>)
    requires forall i :: 0 <= i < |ms| ==> NoSmalls(ms[i])
    ensures NoSmalls(Join(ms, ","))
  {
    if 1 < |ms| {
      JoinHasNoSmalls(ms[1..]);
    }
  }

  lemma MethodToken(env: Env, v: string)
    requires CaseOk(env) && NoSmalls(v)
    ensures Compile(env, "method" + (":" + v)) == Token(false, Method, v, false)
  {
    hide Compile;
    KeyedAtom(env, "method", v);
  }

  lemma NamesTrim(ms: seq<string>, m: string)
    requires forall i :: 0 <= i < |ms| ==> MethodName(ms[i])
    ensures AnyMethod(ms, m) <==> m in ms
  {
    hide TrimSpace, Trimmed, NoSmalls;
    forall i | 0 <= i < |ms| ensures TrimSpace(ms[i]) == ms[i] {
      assert MethodName(ms[i]);
      TrimPadded("", ms[i], "");
      assert "" + ms[i] + "" == ms[i];
    }
  }

  /** `method:GET,POST` selects exactly the flows with one of those methods. */
  lemma MethodIsListed(env: Env, ms: seq<string>, f: Flow)
    requires CaseOk(env) && ms != [] && forall i :: 0 <= i < |ms| ==> MethodName(ms[i])
    ensures MatchFlow(env, Compile(env, "method" + (":" + Join(ms, ","))), f) <==> f.method_ in ms
  {
    hide Compile, Split, Join, AnyMethod, NoSmalls, Trimmed, CaseOk;
    assert forall i :: 0 <= i < |ms| ==> MethodName(ms[i]) && NoSmalls(ms[i]) && ',' !in ms[i];
    JoinHasNoSmalls(ms);
    MethodToken(env, Join(ms, ","));
    SplitOfJoin(ms);
    NamesTrim(ms, f.method_);
  }

  ghost predicate Within(s: string, sub: string) {
    exists i: nat :: OccursAt(s, sub, i)
  }

  lemma ContainsIsWithin(s: string, sub: string)
    ensures Contains(s, sub) <==> Within(s, sub)
  {
    var i := Index(s, sub);
    if 0 <= i {
      assert OccursAt(s, sub, i);
    }
  }

  lemma HostToken(env: Env, v: string)
    requires CaseOk(env)
    ensures Compile(env, "host" + (":" + v)) == Token(false, Host, env.lower(v), false)
  {
    hide Compile;
    KeyedAtom(env, "host", v);
  }

  lemma BodyToken(env: Env, v: string)
    requires CaseOk(env)
    ensures Compile(env, "body" + (":" + v)) == Token(false, Body, env.lower(v), false)
  {
    hide Compile;
    KeyedAtom(env, "body", v);
  }

  /** `host:` and `body:` look for the value anywhere, letter case apart. */
  lemma HostAndBodySearch(env: Env, v: string, f: Flow)
    requires CaseOk(env)
    ensures MatchFlow(env, Compile(env, "host" + (":" + v)), f) <==> Within(env.lower(f.host), env.lower(v))
    ensures MatchFlow(env, Compile(env, "body" + (":" + v)), f)
        <==> Within(env.lower(f.reqBody), env.lower(v)) || Within(env.lower(f.respBody), env.lower(v))
  {
    hide Compile, Within, Contains;
    HostToken(env, v);
    BodyToken(env, v);
    ContainsIsWithin(env.lower(f.host), env.lower(v));
    ContainsIsWithin(env.lower(f.reqBody), env.lower(v));
    ContainsIsWithin(env.lower(f.respBody), env.lower(v));
  }

  /** A bare word looks for itself anywhere in the URL, letter case apart. */
  lemma WordSearchesURL(env: Env, w: string, f: Flow)
    requires w != "" && ':' !in w && w[0] != '!' && w[0] != '/'
    ensures MatchFlow(env, Compile(env, w), f) <==> Within(env.lower(f.url), env.lower(w))
  {
    hide Within, Contains, Keyed;
    forall k: nat ensures !OccursAt(w, ":", k) {
      CharAt(w, ':', k);
    }
    ContainsIsWithin(env.lower(f.url), env.lower(w));
  }
}
