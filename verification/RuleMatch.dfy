/** Which rules are for an exchange (internal/core/rules.go, Match), and what an import reports. */
module RuleMatch {
  import opened Wrappers
  import opened Text
  import opened Rules
  import L = RuleLaws

  /** Library calls: as for parsing, and whether a regular expression matches a text. */
  datatype Matcher = Matcher(upper: string -> string, compiles: string -> bool, matches: (string, string) -> bool)

  // ---- one rule -----------------------------------------------------------

  /** URLPath: what follows the authority of an absolute URL. */
  function URLPath(u: string): string {
    var i := Index(u, "://");
    if i < 0 then u
    else
      var rest := u[i + 3..];
      var j := Index(rest, "/");
      if j < 0 then "/" else rest[j..]
  }

  function Listed(m: Matcher, parts: seq<string>, method_: string): bool {
    parts != []
    && (m.upper(TrimSpace(parts[0])) == method_ || m.upper(TrimSpace(parts[0])) == "*" || Listed(m, parts[1..], method_))
  }

  function MethodMatches(m: Matcher, spec0: string, method_: string): bool {
    var spec := TrimSpace(spec0);
    spec == "" || spec == "*" || Listed(m, Split(spec, ","), method_)
  }

  /** The expression a rule is compiled from. */
  function Pattern(r: Rule): string { if TrimSpace(r.url) == "" then ".*" else r.url }

  predicate Matches(m: Matcher, r: Rule, method_: string, url: string) {
    && r.enabled && MethodMatches(m, r.method_, method_) && m.compiles(Pattern(r))
    && (m.matches(Pattern(r), url) || (URLPath(url) != url && m.matches(Pattern(r), URLPath(url))))
  }

  // ---- all of them --------------------------------------------------------

  function Matching(m: Matcher, rules: seq<Rule>, method_: string, url: string): seq<Rule> {
    if rules == [] then []
    else
      var n := |rules| - 1;
      Matching(m, rules[..n], method_, url) + if Matches(m, rules[n], method_, url) then [rules[n]] else []
  }

  method MethodFits(m: Matcher, spec0: string, method_: string) returns (ok: bool)
    ensures ok == MethodMatches(m, spec0, method_)
  {
    hide TrimSpace, Split;
    var spec := TrimSpace(spec0);
    if spec == "" || spec == "*" {
      return true;
    }
    var parts := Split(spec, ",");
    assert parts[0..] == parts;
    for i := 0 to |parts|
      invariant Listed(m, parts, method_) == Listed(m, parts[i..], method_)
    {
      assert parts[i..][0] == parts[i] && parts[i..][1..] == parts[i + 1..];
      var name := m.upper(TrimSpace(parts[i]));
      if name == method_ || name == "*" {
        return true;
      }
    }
    assert parts[|parts|..] == [];
    ok := false;
  }

  method Match(m: Matcher, r: Rule, method_: string, url: string) returns (ok: bool)
    ensures ok == Matches(m, r, method_, url)
  {
    hide MethodMatches, URLPath, TrimSpace;
    if !r.enabled {
      return false;
    }
    var fits := MethodFits(m, r.method_, method_);
    if !fits || !m.compiles(Pattern(r)) {
      return false;
    }
    if m.matches(Pattern(r), url) {
      return true;
    }
    var p := URLPath(url);
    ok := p != url && m.matches(Pattern(r), p);
  }

  method MatchAll(m: Matcher, rules: seq<Rule>, method_: string, url: string) returns (out: seq<Rule>)
    ensures out == Matching(m, rules, method_, url)
  {
    hide Matches;
    out := [];
    assert rules[..0] == [];
    for i := 0 to |rules|
      invariant out == Matching(m, rules[..i], method_, url)
    {
      assert rules[..i + 1][..i] == rules[..i] && rules[..i + 1][i] == rules[i];
      var ok := Match(m, rules[i], method_, url);
      if ok {
        out := out + [rules[i]];
      }
    }
    assert rules[..|rules|] == rules;
  }

  // ---- what that comes to -------------------------------------------------

  /** Text without a colon, which a scheme is. */
  predicate Scheme(s: string) { ':' !in s }

  /** The path of an absolute URL, or a slash where it has none. */
  lemma PathOfURL(scheme: string, authority: string, path: string)
    requires Scheme(scheme) && '/' !in authority && (path == "" || path[0] == '/')
    ensures URLPath(scheme + "://" + (authority + path)) == if path == "" then "/" else path
  {
    var u, i := scheme + "://" + (authority + path), |scheme|;
    assert u[i..i + 3] == "://" && OccursAt(u, "://", i);
    forall k: nat | k < i
      ensures !OccursAt(u, "://", k)
    {
      assert u[k] == scheme[k] && scheme[k] in scheme;
      if k + 3 <= |u| { assert u[k..k + 3][0] == u[k]; }
    }
    assert Index(u, "://") == i;
    var rest := u[i + 3..];
    assert rest == authority + path;
    AfterAuthority(authority, path);
  }

  lemma AfterAuthority(authority: string, path: string)
    requires '/' !in authority && (path == "" || path[0] == '/')
    ensures var rest := authority + path;
            Index(rest, "/") == (if path == "" then -1 else |authority|) && rest[|authority|..] == path
  {
    var rest := authority + path;
    forall k: nat | k < |authority|
      ensures !OccursAt(rest, "/", k)
    {
      assert rest[k] == authority[k] && authority[k] in authority && rest[k..k + 1] == [rest[k]];
    }
    if path != "" {
      assert rest[|authority|..|authority| + 1] == "/" && OccursAt(rest, "/", |authority|);
    } else {
      forall k: nat ensures !OccursAt(rest, "/", k) {
      }
    }
  }

  /** One part of a list of methods is for this method. */
  predicate IsFor(m: Matcher, part: string, method_: string) {
    m.upper(TrimSpace(part)) == method_ || m.upper(TrimSpace(part)) == "*"
  }

  lemma {:induction false} ListedIs(m: Matcher, parts: seq<string>, method_: string)
    ensures Listed(m, parts, method_) <==> exists i :: 0 <= i < |parts| && IsFor(m, parts[i], method_)
  {
    hide TrimSpace;
    if parts != [] {
      ListedIs(m, parts[1..], method_);
      assert forall i :: 1 <= i < |parts| ==> parts[i] == parts[1..][i - 1];
    }
  }

  /** A rule for every method, or for none in particular, is for any; one for a list is for its members. */
  lemma MethodsFor(m: Matcher, spec: string, method_: string)
    requires L.NoSpace(spec)
    ensures spec == "" || spec == "*" ==> MethodMatches(m, spec, method_)
    ensures spec != "" && spec != "*" ==>
              (MethodMatches(m, spec, method_) <==>
               exists i :: 0 <= i < |Split(spec, ",")| && IsFor(m, Split(spec, ",")[i], method_))
  {
    hide TrimSpace, Split, Listed, IsFor, MethodMatches, L.NoSpace;
    L.SpacelessTrims(spec);
    ListOnly(m, spec, method_);
    ListedIs(m, Split(spec, ","), method_);
  }

  lemma ListOnly(m: Matcher, spec: string, method_: string)
    requires TrimSpace(spec) == spec
    ensures spec == "" || spec == "*" ==> MethodMatches(m, spec, method_)
    ensures spec != "" && spec != "*" ==> MethodMatches(m, spec, method_) == Listed(m, Split(spec, ","), method_)
  {
    hide TrimSpace, Split, Listed;
  }

  ghost predicate From(out: seq<Rule>, rules: seq<Rule>, at: seq<nat>) {
    && |at| == |out| && (forall i :: 0 <= i < |at| ==> at[i] < |rules| && out[i] == rules[at[i]])
    && (forall i, j :: 0 <= i < j < |at| ==> at[i] < at[j])
  }

  /** The rules for an exchange are those of the set that match it, all of them, once each and in order. */
  lemma {:induction false} MatchingIs(m: Matcher, rules: seq<Rule>, method_: string, url: string) returns (at: seq<nat>)
    ensures From(Matching(m, rules, method_, url), rules, at)
    ensures forall i: nat :: i < |rules| ==> (i in at <==> Matches(m, rules[i], method_, url))
    ensures forall i :: i in at ==> i < |rules|
  {
    hide Matches, From;
    if rules == [] {
      at := [];
      FromNone(m, method_, url);
    } else {
      var n := |rules| - 1;
      at := MatchingIs(m, rules[..n], method_, url);
      assert forall i: nat :: i < n ==> rules[..n][i] == rules[i];
      var out := Matching(m, rules[..n], method_, url);
      assert out + [] == out;
      FromMore(out, rules, at);
      if Matches(m, rules[n], method_, url) {
        InSnoc(at, n);
        at := at + [n];
      }
    }
  }

  lemma FromNone(m: Matcher, method_: string, url: string)
    ensures From(Matching(m, [], method_, url), [], [])
  {
  }

  lemma FromMore(out: seq<Rule>, rules: seq<Rule>, at: seq<nat>)
    requires rules != [] && From(out, rules[..|rules| - 1], at)
    ensures From(out, rules, at) && From(out + [rules[|rules| - 1]], rules, at + [|rules| - 1])
  {
  }

  lemma InSnoc(at: seq<nat>, n: nat)
    ensures forall i: nat :: i in at + [n] <==> i in at || i == n
  {
  }

  // ---- what an import reports ---------------------------------------------

  /** A line that is looked at, is no rule, and why. */
  ghost predicate Bad(env: Env, lines: seq<string>, n: nat, e: Error) {
    1 <= n <= |lines| && !Skipped(lines[n - 1]) && Parse(env, TrimSpace(lines[n - 1])) == Err(e)
  }

  lemma ErrorsStep(env: Env, lines: seq<string>)
    requires lines != []
    ensures var k := |lines| - 1;
            var es, all := ImportErrors(env, lines[..k]), ImportErrors(env, lines);
            |es| <= |all| <= |es| + 1 && all[..|es|] == es && (|es| < |all| ==> all[|es|].0 == k + 1)
  {
    hide Parse, TrimSpace, Skipped;
  }

  /** An import reports exactly the lines that are no rules, in order, counted from 1, each with its own error. */
  lemma {:induction false} ImportReports(env: Env, lines: seq<string>)
    ensures forall n: nat, e :: (n, e) in ImportErrors(env, lines) <==> Bad(env, lines, n, e)
    ensures var es := ImportErrors(env, lines);
            (forall i :: 0 <= i < |es| ==> es[i].0 <= |lines|) && forall i, j :: 0 <= i < j < |es| ==> es[i].0 < es[j].0
  {
    hide Parse, TrimSpace, Skipped;
    if lines != [] {
      var k := |lines| - 1;
      ImportReports(env, lines[..k]);
      ErrorsStep(env, lines);
      forall n: nat, e
        ensures (n, e) in ImportErrors(env, lines) <==> Bad(env, lines, n, e)
      {
        assert n <= k ==> (Bad(env, lines[..k], n, e) <==> Bad(env, lines, n, e));
      }
    }
  }
}
