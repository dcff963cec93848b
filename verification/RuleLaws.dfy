/** Printing and reading rules back (internal/core/rules.go). */
module RuleLaws {
  import opened Sequences
  import opened Wrappers
  import opened Text
  import opened Rules

  // ---- characters ---------------------------------------------------------

  predicate NoSpace(s: string) { forall i :: 0 <= i < |s| ==> !IsSpace(s[i]) }

  /** Capital letters, `*` and `,`: what methods are made of. */
  predicate MethodText(s: string) {
    forall i :: 0 <= i < |s| ==> 'A' <= s[i] <= 'Z' || s[i] == '*' || s[i] == ','
  }

  predicate Lower(s: string) { forall i :: 0 <= i < |s| ==> 'a' <= s[i] <= 'z' }

  /** What is used of Unicode case mapping. */
  ghost predicate CaseOk(env: Env) {
    && (forall s :: MethodText(s) ==> env.upper(s) == s)
    && (forall s :: NoSpace(s) ==> NoSpace(env.upper(s)))
    && (forall s :: Lower(s) ==> env.lower(s) == s)
  }

  /** No two colons in a row and, when `oneLine`, no newline. */
  predicate Good(s: string, oneLine: bool) {
    && (forall i :: 0 <= i < |s| - 1 ==> !(s[i] == ':' && s[i + 1] == ':'))
    && (oneLine ==> '\n' !in s)
  }

  lemma GoodSlice(s: string, i: nat, j: nat, oneLine: bool)
    requires i <= j <= |s| && Good(s, oneLine)
    ensures Good(s[i..j], oneLine)
  {
  }

  lemma GoodTrim(s: string, oneLine: bool)
    requires Good(s, oneLine)
    ensures Good(TrimSpace(s), oneLine)
  {
    hide TrimLeft, TrimRight, Good;
    var l := TrimLeft(s);
    GoodSlice(s, |s| - |l|, |s|, oneLine);
    assert l == s[|s| - |l|..|s|];
    var t := TrimRight(l);
    GoodSlice(l, 0, |t|, oneLine);
  }

  /** The parts of a split hold no separator. */
  lemma {:induction false} GoodParts(s: string, oneLine: bool)
    requires oneLine ==> '\n' !in s
    ensures forall k :: 0 <= k < |Split(s, SEP)| ==> Good(Split(s, SEP)[k], oneLine)
    decreases |s|
  {
    var i := Index(s, SEP);
    var n := if i < 0 then |s| else i;
    GoodBefore(s, n, oneLine);
    if i < 0 {
      assert s[..n] == s;
    } else {
      GoodParts(s[i + 2..], oneLine);
      hide Index, Good;
      assert Split(s, SEP) == [s[..i]] + Split(s[i + 2..], SEP);
    }
  }

  lemma GoodBefore(s: string, n: nat, oneLine: bool)
    requires oneLine ==> '\n' !in s
    requires n <= |s| && (Index(s, SEP) == n || (Index(s, SEP) == -1 && n == |s|))
    ensures Good(s[..n], oneLine)
  {
    hide Index;
    forall k | 0 <= k < n - 1
      ensures !(s[k] == ':' && s[k + 1] == ':')
    {
      assert !OccursAt(s, SEP, k);
      assert s[k..k + 2] == [s[k], s[k + 1]];
    }
  }

  // ---- methods ------------------------------------------------------------

  lemma KnownIsText(m: string)
    requires KnownMethod(m)
    ensures MethodText(m) && m != ""
  {
  }

  lemma SplitStep(s: string, sep: string)
    requires sep != ""
    ensures var i := Index(s, sep);
            if i < 0 then Split(s, sep) == [s]
            else s == s[..i] + sep + s[i + |sep|..] && Split(s, sep) == [s[..i]] + Split(s[i + |sep|..], sep)
  {
    var i := Index(s, sep);
    if 0 <= i {
      assert OccursAt(s, sep, i) && s[i..i + |sep|] == sep;
    }
  }

  lemma {:induction false} ListIsText(s: string)
    requires NoSpace(s) && forall i :: 0 <= i < |Split(s, ",")| ==> KnownMethod(TrimSpace(Split(s, ",")[i]))
    ensures MethodText(s)
    decreases |s|
  {
    hide KnownMethod, Split, Index, TrimSpace, IsSpace;
    SplitStep(s, ",");
    var i := Index(s, ",");
    var parts := Split(s, ",");
    PartIsText(parts[0], parts);
    if 0 <= i {
      var rest := s[i + 1..];
      assert forall k :: 0 <= k < |Split(rest, ",")| ==> Split(rest, ",")[k] == parts[k + 1];
      ListIsText(rest);
    }
  }

  lemma SpacelessTrims(p: string)
    requires NoSpace(p)
    ensures TrimSpace(p) == p
  {
    hide IsSpace;
  }

  lemma PartIsText(p: string, parts: seq<string>)
    requires NoSpace(p) && parts != [] && parts[0] == p && KnownMethod(TrimSpace(parts[0]))
    ensures MethodText(p)
  {
    SpacelessTrims(p);
    hide KnownMethod, TrimSpace;
    KnownIsText(p);
  }

  lemma MethodIsText(m: string)
    requires IsMethod(m) && NoSpace(m)
    ensures MethodText(m) && m != ""
  {
    hide KnownMethod, IsSpace, TrimSpace, Split;
    if m != "*" && KnownMethod(m) {
      KnownIsText(m);
    } else if m != "*" {
      assert OccursAt(m, ",", Index(m, ","));
      ListIsText(m);
    }
  }

  lemma TextHasNoSpace(m: string)
    requires MethodText(m)
    ensures NoSpace(m) && ':' !in m && '\n' !in m && '#' !in m
  {
  }

  // ---- what a parsed rule looks like --------------------------------------

  ghost predicate GoodAction(a: Action, oneLine: bool) {
    KnownAction(a.kind) && Trimmed(a.arg) && Good(a.arg, oneLine)
  }

  /** A rule as ParseRule makes it. */
  ghost predicate Canonical(env: Env, r: Rule, oneLine: bool) {
    && r.id == 0 && r.enabled
    && IsMethod(r.method_) && MethodText(r.method_) && r.method_ != ""
    && Trimmed(r.url) && r.url != "" && Good(r.url, oneLine) && env.compiles(r.url)
    && r.actions != [] && forall i :: 0 <= i < |r.actions| ==> GoodAction(r.actions[i], oneLine)
  }

  lemma FirstField(s: string)
    ensures Fields(s) != [] ==> NoSpace(Fields(s)[0])
  {
    hide IsSpace, TrimLeft, FieldEnd, Fields;
    var t := TrimLeft(s);
    FieldsHead(s);
    assert NoSpace(t[..FieldEnd(t)]);
  }

  lemma FieldsHead(s: string)
    ensures Fields(s) != [] ==> Fields(s)[0] == TrimLeft(s)[..FieldEnd(TrimLeft(s))]
  {
    hide TrimLeft, FieldEnd;
  }

  lemma HeadIsCanonical(env: Env, head: string, oneLine: bool)
    requires CaseOk(env) && Trimmed(head) && Good(head, oneLine)
    ensures var (m, url) := ParseHead(env, head);
            && IsMethod(m) && MethodText(m) && m != ""
            && Trimmed(url) && url != "" && Good(url, oneLine)
  {
    hide Good, IsSpace, TrimSpace, IsMethod, Trimmed, MethodText, Fields, OrAny;
    var fs := Fields(head);
    if 1 < |fs| && IsMethod(env.upper(fs[0])) && |fs[0]| <= |head| {
      FirstField(head);
      MethodIsText(env.upper(fs[0]));
      var rest := if HasPrefix(head, fs[0]) then head[|fs[0]|..] else head;
      GoodSlice(head, |head| - |rest|, |head|, oneLine);
      assert rest == head[|head| - |rest|..|head|];
      GoodTrim(rest, oneLine);
      AnyIsFine(TrimSpace(rest), oneLine);
    } else {
      StarIsMethod();
      AnyIsFine(head, oneLine);
    }
  }

  lemma StarIsMethod()
    ensures IsMethod("*") && MethodText("*")
  {
  }

  lemma AnyIsFine(url: string, oneLine: bool)
    requires Trimmed(url) && Good(url, oneLine)
    ensures Trimmed(OrAny(url)) && OrAny(url) != "" && Good(OrAny(url), oneLine)
    ensures url != "" ==> OrAny(url) == url
  {
    TrimOfTrimmed(url);
    DotStarIsFine(oneLine);
    hide Trimmed, Good, TrimSpace;
  }

  lemma DotStarIsFine(oneLine: bool)
    ensures Trimmed(".*") && Good(".*", oneLine)
  {
  }

  lemma TrimOfTrimmed(s: string)
    requires Trimmed(s)
    ensures TrimSpace(s) == s
  {
    hide IsSpace;
  }

  lemma ActionIsCanonical(env: Env, raw: string, oneLine: bool)
    requires Good(raw, oneLine) && ParseAction(env, raw).Ok?
    ensures GoodAction(ParseAction(env, raw).value, oneLine)
  {
    hide KnownAction, Good, IsSpace, TrimSpace, Trimmed, Index;
    var i := Index(raw, "=");
    EmptyIsFine(oneLine);
    if 0 <= i {
      GoodSlice(raw, i + 1, |raw|, oneLine);
      assert raw[i + 1..] == raw[i + 1..|raw|];
      GoodTrim(raw[i + 1..], oneLine);
    }
  }

  lemma EmptyIsFine(oneLine: bool)
    ensures Trimmed("") && Good("", oneLine)
  {
  }

  lemma {:induction false} ActionsAreCanonical(env: Env, parts: seq<string>, oneLine: bool)
    requires ParseActions(env, parts).Ok? && forall k :: 0 <= k < |parts| ==> Good(parts[k], oneLine)
    ensures var as_ := ParseActions(env, parts).value;
            forall i :: 0 <= i < |as_| ==> GoodAction(as_[i], oneLine)
  {
    hide ParseAction, GoodAction, Good, TrimSpace;
    if parts != [] {
      var n := |parts| - 1;
      ActionsAreCanonical(env, parts[..n], oneLine);
      GoodTrim(parts[n], oneLine);
      var raw := TrimSpace(parts[n]);
      if raw != "" {
        ActionIsCanonical(env, raw, oneLine);
      }
    }
  }

  lemma ParsedIsCanonical(env: Env, line: string, oneLine: bool)
    requires CaseOk(env) && (oneLine ==> '\n' !in line)
    ensures Parse(env, line).Ok? ==> Canonical(env, Parse(env, line).value, oneLine)
  {
    hide Good, GoodAction, ParseHead, ParseActions, IsMethod, MethodText, TrimSpace, Split, CaseOk, Trimmed, IsSpace;
    var l := TrimSpace(line);
    TrimDropsNoNewline(line);
    var parts := Split(l, SEP);
    GoodParts(l, oneLine);
    GoodTrim(parts[0], oneLine);
    HeadIsCanonical(env, TrimSpace(parts[0]), oneLine);
    if ParseActions(env, parts[1..]).Ok? {
      ActionsAreCanonical(env, parts[1..], oneLine);
    }
  }

  lemma TrimDropsNoNewline(s: string)
    ensures '\n' !in s ==> '\n' !in TrimSpace(s)
  {
    hide IsSpace, TrimLeft, TrimRight;
    var l := TrimLeft(s);
    assert TrimSpace(s) == l[..|TrimSpace(s)|];
  }

  // ---- splitting the print ------------------------------------------------

  lemma {:induction false} ActionsTextCons(a: Action, rest: seq<Action>)
    ensures ActionsText([a] + rest) == " :: " + ActionText(a) + ActionsText(rest)
  {
    hide ActionText;
    var all := [a] + rest;
    if rest == [] {
      assert all == [a] && [a][..0] == [];
      assert ActionsText([a]) == "" + (" :: " + ActionText(a));
    } else {
      var n := |rest| - 1;
      assert all[..|all| - 1] == [a] + rest[..n] && all[|all| - 1] == rest[n];
      ActionsTextCons(a, rest[..n]);
      Assoc(" :: " + ActionText(a), ActionsText(rest[..n]), " :: " + ActionText(rest[n]));
    }
  }

  /** The parts of `x` followed by the actions. */
  function Parts(x: string, actions: seq<Action>): seq<string>
    decreases |actions|
  {
    if actions == [] then [x] else [x + " "] + Parts(" " + ActionText(actions[0]), actions[1..])
  }

  lemma SplitOnce(x: string, rest: string)
    requires Good(x, false)
    ensures Split(x + " ::" + rest, SEP) == [x + " "] + Split(rest, SEP)
  {
    var s := x + " ::" + rest;
    var i := |x| + 1;
    assert s[i] == ':' && s[i + 1] == ':' && s[i..i + 2] == [s[i], s[i + 1]];
    assert OccursAt(s, SEP, i);
    forall k: nat | k < i
      ensures !OccursAt(s, SEP, k)
    {
      assert k < |x| ==> s[k] == x[k];
      assert k + 1 < |x| ==> s[k + 1] == x[k + 1];
      assert s[|x|] == ' ';
      assert s[k..k + 2] == [s[k], s[k + 1]];
    }
    assert Index(s, SEP) == i;
    assert s[..i] == x + " " && s[i + 2..] == rest;
  }

  lemma NoSplit(x: string)
    requires Good(x, false)
    ensures Split(x, SEP) == [x]
  {
    hide Index;
    forall k: nat
      ensures !OccursAt(x, SEP, k)
    {
      if k + 2 <= |x| {
        assert x[k..k + 2] == [x[k], x[k + 1]];
      }
    }
  }

  lemma ActionTextGood(a: Action)
    requires KnownAction(a.kind) && Good(a.arg, false)
    ensures Good(" " + ActionText(a), false)
  {
    KindIsLower(a.kind);
    hide KnownAction, Good;
    LowerIsGood(a.kind);
    GoodJoin(" ", a.kind);
    if a.arg != "" {
      GoodJoin(" " + a.kind, "=");
      GoodJoin(" " + a.kind + "=", a.arg);
      assert " " + (a.kind + "=" + a.arg) == " " + a.kind + "=" + a.arg;
    }
  }

  lemma LowerIsGood(k: string)
    requires Lower(k)
    ensures Good(k, false) && Good(" ", false) && Good("=", false) && ':' !in k
  {
  }

  /** Texts joined at something other than a colon. */
  lemma GoodJoin(a: string, b: string)
    requires Good(a, false) && Good(b, false) && a != "" && a[|a| - 1] != ':'
    ensures Good(a + b, false)
  {
    var s := a + b;
    forall i | 0 <= i < |s| - 1
      ensures !(s[i] == ':' && s[i + 1] == ':')
    {
      if |a| <= i {
        assert s[i] == b[i - |a|] && s[i + 1] == b[i + 1 - |a|];
      }
    }
  }

  lemma KindIsLower(k: string)
    requires KnownAction(k)
    ensures Lower(k) && k != ""
  {
  }

  lemma {:induction false} SplitOfShow(x: string, actions: seq<Action>)
    requires Good(x, false) && forall i :: 0 <= i < |actions| ==> GoodAction(actions[i], false)
    ensures Split(x + ActionsText(actions), SEP) == Parts(x, actions)
    decreases |actions|
  {
    hide Split, Good, ActionText, KnownAction;
    if actions == [] {
      assert x + "" == x;
      NoSplit(x);
    } else {
      var a, rest := actions[0], actions[1..];
      assert actions == [a] + rest;
      ActionsTextCons(a, rest);
      assert GoodAction(a, false);
      ActionTextGood(a);
      var y := " " + ActionText(a);
      assert x + (" :: " + ActionText(a) + ActionsText(rest)) == x + " ::" + (y + ActionsText(rest));
      SplitOnce(x, y + ActionsText(rest));
      SplitOfShow(y, rest);
    }
  }

  lemma {:induction false} PartsAt(x: string, actions: seq<Action>, i: nat)
    requires i < |actions| && forall k :: 0 <= k < |actions| ==> GoodAction(actions[k], false)
    ensures |Parts(x, actions)| == |actions| + 1
    ensures TrimSpace(Parts(x, actions)[i + 1]) == ActionText(actions[i])
    decreases |actions|
  {
    hide ActionText, TrimSpace, GoodAction;
    var y, rest := " " + ActionText(actions[0]), actions[1..];
    assert forall k :: 0 <= k < |rest| ==> rest[k] == actions[k + 1];
    if 0 < i {
      PartsAt(y, rest, i - 1);
    } else {
      assert GoodAction(actions[0], false);
      ActionTrims(actions[0]);
      PartsLen(y, rest);
    }
  }

  lemma {:induction false} PartsLen(x: string, actions: seq<Action>)
    ensures |Parts(x, actions)| == |actions| + 1
    ensures Parts(x, actions)[0] == if actions == [] then x else x + " "
    decreases |actions|
  {
    if actions != [] {
      PartsLen(" " + ActionText(actions[0]), actions[1..]);
    }
  }

  lemma EdgesTrimmed(s: string, first: string, last: string)
    requires first != "" && last != "" && |first| <= |s| && |last| <= |s|
    requires s[..|first|] == first && s[|s| - |last|..] == last && Trimmed(first) && Trimmed(last)
    ensures Trimmed(s)
  {
    hide IsSpace;
    assert s[0] == first[0] && s[|s| - 1] == last[|last| - 1];
  }

  lemma LowerIsTrimmed(k: string)
    requires Lower(k) && k != ""
    ensures Trimmed(k)
  {
  }

  lemma ActionIsTrimmed(a: Action)
    requires GoodAction(a, false)
    ensures Trimmed(ActionText(a)) && ActionText(a) != ""
  {
    KindIsLower(a.kind);
    LowerIsTrimmed(a.kind);
    hide KnownAction, Good, IsSpace, Trimmed;
    var t := ActionText(a);
    if a.arg != "" {
      assert t[..|a.kind|] == a.kind && t[|t| - |a.arg|..] == a.arg;
      EdgesTrimmed(t, a.kind, a.arg);
    }
  }

  lemma ActionTrims(a: Action)
    requires GoodAction(a, false)
    ensures TrimSpace(" " + ActionText(a)) == ActionText(a)
    ensures TrimSpace(" " + ActionText(a) + " ") == ActionText(a)
  {
    ActionIsTrimmed(a);
    hide ActionText, TrimSpace, GoodAction;
    TrimPadded(" ", ActionText(a), " ");
    TrimPadded(" ", ActionText(a), "");
    assert " " + ActionText(a) + "" == " " + ActionText(a);
  }

  // ---- reading the print --------------------------------------------------

  lemma ActionReadsBack(env: Env, a: Action)
    requires CaseOk(env) && GoodAction(a, false)
    ensures ParseAction(env, ActionText(a)) == Ok(a)
  {
    hide KnownAction, IsSpace, TrimSpace, Good, Index, Trimmed;
    KindIsLower(a.kind);
    var t := ActionText(a);
    LowerTrims(a.kind);
    NoEquals(a.kind, t);
    if a.arg != "" {
      assert t[..|a.kind|] == a.kind && t[|a.kind| + 1..] == a.arg;
      TrimOfTrimmed(a.arg);
    }
  }

  lemma LowerTrims(k: string)
    requires Lower(k)
    ensures TrimSpace(k) == k
  {
    assert NoSpace(k);
    SpacelessTrims(k);
  }

  lemma NoEquals(kind: string, t: string)
    requires Lower(kind) && (t == kind || (|kind| < |t| && t[..|kind|] == kind && t[|kind|] == '='))
    ensures Index(t, "=") == if t == kind then -1 else |kind|
  {
    hide Index;
    forall k: nat | k < |kind|
      ensures !OccursAt(t, "=", k)
    {
      assert t[k..k + 1] == [t[k]] && t[k] == kind[k];
    }
    if t != kind {
      assert t[|kind|..|kind| + 1] == "=";
      assert OccursAt(t, "=", |kind|);
    }
  }

  lemma {:induction false} ActionsReadBack(env: Env, parts: seq<string>, actions: seq<Action>)
    requires CaseOk(env) && |parts| == |actions|
    requires forall k :: 0 <= k < |actions| ==> GoodAction(actions[k], false) && TrimSpace(parts[k]) == ActionText(actions[k])
    ensures ParseActions(env, parts) == Ok(actions)
  {
    hide ParseAction, ActionText, GoodAction, TrimSpace, CaseOk;
    if parts != [] {
      var n := |parts| - 1;
      assert actions == actions[..n] + [actions[n]];
      ActionsReadBack(env, parts[..n], actions[..n]);
      ActionReadsBack(env, actions[n]);
      ActionIsTrimmed(actions[n]);
    }
  }

  lemma {:induction false} FieldEndIs(m: string, rest: string)
    requires NoSpace(m) && rest != "" && IsSpace(rest[0])
    ensures FieldEnd(m + rest) == |m|
  {
    hide IsSpace;
    if m == "" {
      assert m + rest == rest;
    } else {
      assert (m + rest)[0] == m[0] && (m + rest)[1..] == m[1..] + rest;
      FieldEndIs(m[1..], rest);
    }
  }

  lemma {:induction false} NoSpaceIsOne(s: string)
    requires NoSpace(s)
    ensures FieldEnd(s) == |s|
  {
    hide IsSpace;
    if s != "" {
      NoSpaceIsOne(s[1..]);
    }
  }

  lemma TwoFields(m: string, url: string)
    requires NoSpace(m) && m != "" && Trimmed(url) && url != ""
    ensures var fs := Fields(m + " " + url); 2 <= |fs| && fs[0] == m
  {
    var rest := " " + url;
    var head := m + rest;
    assert m + " " + url == head;
    assert head[0] == m[0] && TrimLeft(head) == head;
    FieldEndIs(m, rest);
    assert head[..|m|] == m && head[|m|..] == rest;
    FieldsOfRest(url);
    hide IsSpace, TrimLeft;
    assert Fields(head) == [m] + Fields(rest);
  }

  lemma FieldsOfRest(url: string)
    requires Trimmed(url) && url != ""
    ensures 1 <= |Fields(" " + url)|
  {
    var rest := " " + url;
    assert rest[1..] == url && IsSpace(' ');
    hide IsSpace;
    assert TrimLeft(rest) == url;
  }

  lemma HeadIsTrimmed(m: string, url: string)
    requires NoSpace(m) && m != "" && Trimmed(url) && url != ""
    ensures Trimmed(m + " " + url)
  {
    hide IsSpace;
    var head := m + " " + url;
    assert head[0] == m[0] && head[|head| - 1] == url[|url| - 1];
  }

  lemma HeadReadsBack(env: Env, m: string, url: string)
    requires CaseOk(env) && IsMethod(m) && MethodText(m) && m != "" && Trimmed(url) && url != ""
    ensures ParseHead(env, m + " " + url) == (m, url)
    ensures Trimmed(m + " " + url)
  {
    TextHasNoSpace(m);
    hide IsSpace, TrimSpace, IsMethod, MethodText, Trimmed, Fields, NoSpace, HasPrefix;
    TwoFields(m, url);
    HeadIsTrimmed(m, url);
    AfterMethod(m, url);
    TrimAfterSpace(url);
    TrimOfTrimmed(url);
  }

  lemma AfterMethod(m: string, url: string)
    ensures var head := m + " " + url;
            |m| <= |head| && HasPrefix(head, m) && head[|m|..] == " " + url
  {
    assert m + " " + url == m + (" " + url);
  }

  lemma TrimAfterSpace(url: string)
    requires Trimmed(url)
    ensures TrimSpace(" " + url) == url
  {
    assert Blank(" ") && Blank("");
    hide TrimSpace, Trimmed, IsSpace;
    TrimPadded(" ", url, "");
    assert " " + url + "" == " " + url;
  }

  lemma ShowTrims(r: Rule, env: Env)
    requires Canonical(env, r, false)
    ensures Trimmed(Show(r)) && Show(r) != "" && Show(r)[0] != '#'
    ensures Show(r) == r.method_ + " " + r.url + ActionsText(r.actions)
  {
    hide GoodAction, Good, IsMethod, IsSpace, TrimSpace, MethodText, ActionText, ActionsText, Trimmed, NoSpace;
    TextHasNoSpace(r.method_);
    SpacelessTrims(r.method_);
    var a := r.actions[|r.actions| - 1];
    assert GoodAction(a, false);
    ActionIsTrimmed(a);
    LastAction(r.actions);
    var t, all := ActionText(a), ActionsText(r.actions);
    assert r.method_[0] in r.method_;
    ShowEnds(r.method_, r.url, all[..|all| - |t|], t);
  }

  lemma LastAction(actions: seq<Action>)
    requires actions != []
    ensures var s, t := ActionsText(actions), ActionText(actions[|actions| - 1]);
            |t| <= |s| && s == s[..|s| - |t|] + t
  {
    hide ActionText;
  }

  lemma ShowEnds(m: string, url: string, p: string, t: string)
    requires m != "" && NoSpace(m) && t != "" && Trimmed(t)
    ensures var s := m + " " + url + (p + t); Trimmed(s) && s != "" && s[0] == m[0]
  {
    hide IsSpace;
    var s := m + " " + url + (p + t);
    assert s[0] == m[0] && s[|s| - 1] == t[|t| - 1];
  }

  lemma CanonicalReadsBack(env: Env, r: Rule)
    requires CaseOk(env) && Canonical(env, r, false)
    ensures Parse(env, Show(r)) == Ok(r)
  {
    hide Split, Parts, ParseHead, ParseActions, Show, GoodAction, CaseOk, TrimSpace, Trimmed, Good, IsMethod, MethodText, IsSpace;
    var head := r.method_ + " " + r.url;
    ShowTrims(r, env);
    TrimOfTrimmed(Show(r));
    HeadReadsBack(env, r.method_, r.url);
    HeadIsGood(r.method_, r.url);
    SplitOfShow(head, r.actions);
    var parts := Parts(head, r.actions);
    PartsLen(head, r.actions);
    TrimBeforeSpace(head);
    forall k | 0 <= k < |r.actions|
      ensures TrimSpace(parts[1..][k]) == ActionText(r.actions[k])
    {
      PartsAt(head, r.actions, k);
    }
    ActionsReadBack(env, parts[1..], r.actions);
  }

  lemma TrimBeforeSpace(s: string)
    requires Trimmed(s)
    ensures TrimSpace(s + " ") == s
  {
    assert Blank(" ") && Blank("");
    hide TrimSpace, Trimmed, IsSpace;
    TrimPadded("", s, " ");
    assert "" + s + " " == s + " ";
  }

  lemma HeadIsGood(m: string, url: string)
    requires MethodText(m) && Good(url, false)
    ensures Good(m + " " + url, false)
  {
    TextHasNoSpace(m);
    var s := m + " " + url;
    forall i | 0 <= i < |s| - 1
      ensures !(s[i] == ':' && s[i + 1] == ':')
    {
      if i < |m| {
        assert s[i] == m[i] && m[i] in m;
      } else if |m| < i {
        assert s[i] == url[i - |m| - 1] && s[i + 1] == url[i - |m|];
      }
    }
  }

  /** Parsing the print of a parsed rule gives the same method, URL and actions. */
  lemma RoundTrip(env: Env, line: string)
    requires CaseOk(env)
    ensures Parse(env, line).Ok? ==> Parse(env, Show(Parse(env, line).value)) == Parse(env, line)
  {
    hide Canonical, CaseOk, Show, Parse;
    ParsedIsCanonical(env, line, false);
    if Parse(env, line).Ok? {
      CanonicalReadsBack(env, Parse(env, line).value);
    }
  }

  // ---- exporting and importing --------------------------------------------

  function Shows(rules: seq<Rule>): (ls: seq<string>)
    ensures |ls| == |rules| && forall i :: 0 <= i < |ls| ==> ls[i] == Show(rules[i])
  {
    seq(|rules|, i requires 0 <= i < |rules| => Show(rules[i]))
  }

  lemma {:induction false} ExportCons(r: Rule, rest: seq<Rule>)
    ensures ExportText([r] + rest) == Show(r) + ("\n" + ExportText(rest))
  {
    hide Show;
    var all := [r] + rest;
    if rest == [] {
      assert all[..0] == [] && all[0] == r;
      assert ExportText(all) == "" + Show(r) + "\n";
    } else {
      var n := |rest| - 1;
      assert all[..|all| - 1] == [r] + rest[..n] && all[|all| - 1] == rest[n];
      ExportCons(r, rest[..n]);
      Assoc(Show(r) + ("\n" + ExportText(rest[..n])), Show(rest[n]), "\n");
      assert ExportText(all) == Show(r) + ("\n" + (ExportText(rest[..n]) + Show(rest[n]) + "\n"));
    }
  }

  lemma SplitLine(l: string, rest: string)
    requires '\n' !in l
    ensures Split(l + ("\n" + rest), "\n") == [l] + Split(rest, "\n")
  {
    var s := l + ("\n" + rest);
    assert s[|l|..|l| + 1] == "\n";
    forall k: nat | k < |l|
      ensures !OccursAt(s, "\n", k)
    {
      assert l[k] in l && s[k] == l[k] && s[k..k + 1] == [s[k]];
    }
    assert OccursAt(s, "\n", |l|) && Index(s, "\n") == |l|;
    assert s[..|l|] == l && s[|l| + 1..] == rest;
  }

  lemma NothingExported()
    ensures Split(ExportText([]), "\n") == Shows([]) + [""]
  {
    assert Index("", "\n") == -1;
  }

  lemma {:induction false} ExportSplits(rules: seq<Rule>)
    requires forall i :: 0 <= i < |rules| ==> '\n' !in Show(rules[i])
    ensures Split(ExportText(rules), "\n") == Shows(rules) + [""]
    decreases |rules|
  {
    hide Show, Index, ExportText, Split, Shows;
    if rules == [] {
      NothingExported();
    } else {
      var r, rest := rules[0], rules[1..];
      assert rules == [r] + rest;
      ExportCons(r, rest);
      SplitLine(Show(r), ExportText(rest));
      ExportSplits(rest);
      FirstShow(rules);
    }
  }

  lemma FirstShow(rules: seq<Rule>)
    requires rules != []
    ensures Shows(rules) + [""] == [Show(rules[0])] + (Shows(rules[1..]) + [""])
  {
    hide Show;
  }

  /** The rule ParseRule made, whatever id and switch it has since. */
  function Fresh(r: Rule): Rule { r.(id := 0, enabled := true) }

  lemma ShowIgnores(r: Rule)
    ensures Show(r) == Show(Fresh(r))
  {
  }

  lemma OneLineConcat(a: string, b: string)
    requires '\n' !in a && '\n' !in b
    ensures '\n' !in a + b
  {
  }

  lemma ActionOneLine(a: Action)
    requires GoodAction(a, true)
    ensures '\n' !in ActionText(a)
  {
    KindIsLower(a.kind);
    hide KnownAction, IsSpace;
    OneLineConcat(a.kind, "=");
    OneLineConcat(a.kind + "=", a.arg);
  }

  lemma {:induction false} ActionsOneLine(actions: seq<Action>)
    requires forall i :: 0 <= i < |actions| ==> GoodAction(actions[i], true)
    ensures '\n' !in ActionsText(actions)
  {
    hide GoodAction, ActionText;
    if actions != [] {
      var n := |actions| - 1;
      ActionsOneLine(actions[..n]);
      ActionOneLine(actions[n]);
      OneLineConcat(" :: ", ActionText(actions[n]));
      OneLineConcat(ActionsText(actions[..n]), " :: " + ActionText(actions[n]));
    }
  }

  lemma GoodIsOneLine(s: string)
    requires Good(s, true)
    ensures '\n' !in s
  {
  }

  lemma ShowIsOneLine(env: Env, r: Rule)
    requires Canonical(env, r, true)
    ensures '\n' !in Show(r)
  {
    hide GoodAction, ActionsText, IsMethod, TrimSpace, IsSpace, MethodText, NoSpace, Trimmed, Good;
    TextHasNoSpace(r.method_);
    SpacelessTrims(r.method_);
    ActionsOneLine(r.actions);
    GoodIsOneLine(r.url);
    OneLineConcat(r.method_, " ");
    OneLineConcat(r.method_ + " ", r.url);
    OneLineConcat(r.method_ + " " + r.url, ActionsText(r.actions));
  }

  lemma LoosenCanonical(env: Env, r: Rule)
    requires Canonical(env, r, true)
    ensures Canonical(env, r, false)
  {
    assert forall i :: 0 <= i < |r.actions| ==> GoodAction(r.actions[i], true);
  }

  /** The rules of a set as an import numbers them: in order, enabled, ids from `next` on. */
  function Renumbered(rules: seq<Rule>, next: int): (rs: seq<Rule>)
    ensures |rs| == |rules| && forall i :: 0 <= i < |rs| ==> rs[i] == rules[i].(id := next + i, enabled := true)
  {
    seq(|rules|, i requires 0 <= i < |rules| => rules[i].(id := next + i, enabled := true))
  }

  lemma {:induction false} ImportLines(env: Env, rules: seq<Rule>, next: int)
    requires CaseOk(env) && forall i :: 0 <= i < |rules| ==> Canonical(env, Fresh(rules[i]), true)
    ensures Imported(env, Shows(rules), next) == Renumbered(rules, next)
    ensures ImportErrors(env, Shows(rules)) == []
    decreases |rules|
  {
    hide Canonical, CaseOk, Show, Parse, Skipped, Imported, ImportErrors, Shows, Renumbered;
    if rules == [] {
      NothingImported(env, next);
      assert Shows(rules) == [];
    } else {
      var n := |rules| - 1;
      var f := Fresh(rules[n]);
      ImportLines(env, rules[..n], next);
      LastShow(rules, next);
      ImportOne(env, f);
      ShowIgnores(rules[n]);
      ImportSnoc(env, Shows(rules[..n]), Show(f), next);
    }
  }

  lemma LastShow(rules: seq<Rule>, next: int)
    requires rules != []
    ensures var n := |rules| - 1;
            && Shows(rules) == Shows(rules[..n]) + [Show(rules[n])]
            && Renumbered(rules, next) == Renumbered(rules[..n], next) + [Fresh(rules[n]).(id := next + n)]
  {
    hide Show;
  }

  lemma NothingImported(env: Env, next: int)
    ensures Imported(env, [], next) == [] && ImportErrors(env, []) == []
  {
  }

  lemma ImportSnoc(env: Env, ls: seq<string>, l: string, next: int)
    ensures !Skipped(l) && Parse(env, TrimSpace(l)).Ok? ==>
              var done := Imported(env, ls, next);
              && Imported(env, ls + [l], next) == done + [Parse(env, TrimSpace(l)).value.(id := next + |done|)]
              && ImportErrors(env, ls + [l]) == ImportErrors(env, ls)
  {
    hide Parse, TrimSpace, Skipped;
    assert (ls + [l])[..|ls|] == ls && (ls + [l])[|ls|] == l;
  }

  lemma ImportOne(env: Env, f: Rule)
    requires CaseOk(env) && Canonical(env, f, true)
    ensures !Skipped(Show(f)) && TrimSpace(Show(f)) == Show(f) && Parse(env, Show(f)) == Ok(f)
  {
    hide Canonical, CaseOk, Show, Parse, TrimSpace, Trimmed;
    LoosenCanonical(env, f);
    ShowTrims(f, env);
    TrimOfTrimmed(Show(f));
    CanonicalReadsBack(env, f);
  }

  /**
   Importing the exported text of rules parsed from single lines gives the same rules in order,
   all enabled, under fresh ids, and reports no error.
   */
  lemma ImportOfExport(env: Env, rules: seq<Rule>, lines: seq<string>, next: int)
    requires CaseOk(env) && |lines| == |rules|
    requires forall i :: 0 <= i < |rules| ==> '\n' !in lines[i] && Parse(env, lines[i]) == Ok(Fresh(rules[i]))
    ensures Imported(env, Split(ExportText(rules), "\n"), next) == Renumbered(rules, next)
    ensures ImportErrors(env, Split(ExportText(rules), "\n")) == []
  {
    hide Canonical, CaseOk, Show, Parse, TrimSpace, ExportText, Split;
    forall i | 0 <= i < |rules|
      ensures Canonical(env, Fresh(rules[i]), true) && '\n' !in Show(rules[i])
    {
      ParsedIsCanonical(env, lines[i], true);
      ShowIsOneLine(env, Fresh(rules[i]));
      ShowIgnores(rules[i]);
    }
    ExportSplits(rules);
    ImportLines(env, rules, next);
    var ls := Shows(rules) + [""];
    assert ls[..|ls| - 1] == Shows(rules) && ls[|ls| - 1] == "";
    BlankIsSkipped();
  }

  lemma BlankIsSkipped()
    ensures Skipped("")
  {
  }
}
