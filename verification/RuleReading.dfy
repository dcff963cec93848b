/** How a line of the rule language is first read, whoever wrote it (internal/core/rules.go, ParseRule). */
module RuleReading {
  import opened Wrappers
  import opened Text
  import opened Rules
  import L = RuleLaws

  // ---- the head -----------------------------------------------------------

  const METHODS := {"GET", "POST", "PUT", "PATCH", "DELETE", "HEAD", "OPTIONS", "TRACE", "CONNECT"}

  /** A star, a method, or methods between commas. */
  predicate MethodWord(s: string) {
    s == "*" || s in METHODS
    || (',' in s && forall i :: 0 <= i < |Split(s, ",")| ==> TrimSpace(Split(s, ",")[i]) in METHODS)
  }

  lemma MethodWordIs(s: string)
    ensures IsMethod(s) <==> MethodWord(s)
  {
    hide TrimSpace, Split, Index;
    if ',' in s {
      var k :| 0 <= k < |s| && s[k] == ',';
      assert s[k..k + 1] == "," && OccursAt(s, ",", k);
    } else {
      forall k: nat ensures !OccursAt(s, ",", k) {
        assert k < |s| ==> s[k..k + 1] == [s[k]];
      }
    }
    assert forall m :: KnownMethod(m) <==> m in METHODS;
  }

  /** A head that begins with a method, in any letter case, and has something after it. */
  predicate NamesMethod(env: Env, word: string, gap: string, rest: string) {
    && word != "" && L.NoSpace(word) && MethodWord(env.upper(word))
    && gap != "" && Blank(gap) && rest != "" && Trimmed(rest)
  }

  lemma InkFirst(s: string)
    requires s == "" || !IsSpace(s[0])
    ensures TrimLeft(s) == s
  {
  }

  lemma WordIsFirst(word: string, gap: string, rest: string)
    requires word != "" && L.NoSpace(word) && gap != "" && Blank(gap) && rest != "" && Trimmed(rest)
    ensures var fs := Fields(word + gap + rest); 1 < |fs| && fs[0] == word
    ensures Trimmed(word + gap + rest)
  {
    hide TrimLeft, FieldEnd, IsSpace, Fields;
    var head := word + gap + rest;
    assert head[0] == word[0] && head[|head| - 1] == rest[|rest| - 1];
    InkFirst(head);
    assert head == word + (gap + rest);
    L.FieldEndIs(word, gap + rest);
    assert head[..|word|] == word && head[|word|..] == gap + rest;
    TrimLeftBlank(gap, rest);
    InkFirst(rest);
    FieldsStep(head);
    FieldsStep(gap + rest);
  }

  lemma FieldsStep(s: string)
    requires TrimLeft(s) != ""
    ensures var t := TrimLeft(s); Fields(s) == [t[..FieldEnd(t)]] + Fields(t[FieldEnd(t)..])
  {
    hide TrimLeft, FieldEnd;
  }

  lemma MethodHead(env: Env, word: string, gap: string, rest: string)
    requires NamesMethod(env, word, gap, rest)
    ensures ParseHead(env, word + gap + rest) == (env.upper(word), rest)
    ensures Trimmed(word + gap + rest)
  {
    hide Fields, IsMethod, MethodWord, Trimmed, IsSpace, Blank, TrimSpace;
    WordIsFirst(word, gap, rest);
    MethodWordIs(env.upper(word));
    var head := word + gap + rest;
    assert head == word + (gap + rest) && head[..|word|] == word && head[|word|..] == gap + rest;
    BlankNothing();
    TrimPadded(gap, rest, "");
    assert gap + rest + "" == gap + rest;
    L.TrimOfTrimmed(rest);
  }

  lemma BlankNothing()
    ensures Blank("")
  {
  }

  /** A head whose first word is no method, or that is one word alone. */
  predicate NamesNone(env: Env, head: string) {
    && Trimmed(head) && head != ""
    && (L.NoSpace(head) || exists k :: 0 <= k < |head| && FirstSpace(head, k) && !MethodWord(env.upper(head[..k])))
  }

  predicate FirstSpace(s: string, k: nat) {
    k < |s| && IsSpace(s[k]) && L.NoSpace(s[..k])
  }

  lemma OneField(head: string)
    requires L.NoSpace(head) && head != ""
    ensures Fields(head) == [head]
  {
    assert TrimLeft(head) == head && head[..|head|] == head && head[|head|..] == "";
    L.NoSpaceIsOne(head);
    hide IsSpace, FieldEnd;
    assert Fields("") == [];
    assert Fields(head) == [head] + Fields("");
  }

  lemma NoMethodHead(env: Env, head: string)
    requires NamesNone(env, head)
    ensures ParseHead(env, head) == ("*", head)
  {
    hide IsMethod, MethodWord, TrimSpace, Trimmed, IsSpace, Fields, HasPrefix;
    L.TrimOfTrimmed(head);
    if L.NoSpace(head) {
      OneField(head);
    } else {
      var k :| 0 <= k < |head| && FirstSpace(head, k) && !MethodWord(env.upper(head[..k]));
      FirstFieldIs(head, k);
      MethodWordIs(env.upper(head[..k]));
    }
  }

  lemma FirstFieldIs(head: string, k: nat)
    requires Trimmed(head) && head != "" && FirstSpace(head, k)
    ensures Fields(head) != [] && Fields(head)[0] == head[..k]
  {
    assert TrimLeft(head) == head;
    assert head == head[..k] + head[k..];
    L.FieldEndIs(head[..k], head[k..]);
  }

  lemma EmptyHead(env: Env)
    ensures ParseHead(env, "") == ("*", ".*")
  {
  }

  /** What a trimmed head says: method and URL expression. */
  ghost predicate HeadSays(env: Env, head: string, m: string, url: string) {
    || (head == "" && m == "*" && url == ".*")
    || (NamesNone(env, head) && m == "*" && url == head)
    || exists word, gap :: NamesMethod(env, word, gap, url) && head == word + gap + url && m == env.upper(word)
  }

  lemma HeadReads(env: Env, head: string, m: string, url: string)
    requires HeadSays(env, head, m, url)
    ensures ParseHead(env, head) == (m, url)
  {
    hide ParseHead, NamesNone, NamesMethod;
    if head == "" && m == "*" && url == ".*" {
      EmptyHead(env);
    } else if NamesNone(env, head) && m == "*" && url == head {
      NoMethodHead(env, head);
    } else {
      var word, gap :| NamesMethod(env, word, gap, url) && head == word + gap + url && m == env.upper(word);
      MethodHead(env, word, gap, url);
    }
  }

  // ---- the actions --------------------------------------------------------

  /** An action as somebody may write it, blanks and letter case as they please; or blanks alone. */
  datatype Spelling =
    | Nothing(pre: string)
    | Bare(pre: string, kind: string, post: string)
    | Full(pre: string, kind: string, a: string, b: string, arg: string, post: string)

  const KINDS := {"file", "redirect", "status", "body", "header", "delheader", "break", "block", "delay", "maplocal",
                  "resheader", "delresheader", "location"}

  predicate Spells(env: Env, x: Spelling) {
    match x
    case Nothing(pre) => Blank(pre)
    case Bare(pre, kind, post) =>
      Blank(pre) && Blank(post) && Trimmed(kind) && kind != "" && '=' !in kind && env.lower(kind) in KINDS
    case Full(pre, kind, a, b, arg, post) =>
      && Blank(pre) && Blank(a) && Blank(b) && Blank(post) && Trimmed(kind) && kind != "" && '=' !in kind
      && Trimmed(arg) && arg != "" && env.lower(kind) in KINDS
  }

  function Written(x: Spelling): string {
    match x
    case Nothing(pre) => pre
    case Bare(pre, kind, post) => pre + kind + post
    case Full(pre, kind, a, b, arg, post) => pre + (kind + a + "=" + b + arg) + post
  }

  /** The action meant: lower-case kind, trimmed argument. */
  function Meant(env: Env, x: Spelling): seq<Action> {
    match x
    case Nothing(_) => []
    case Bare(_, kind, _) => [Action(env.lower(kind), "")]
    case Full(_, kind, _, _, arg, _) => [Action(env.lower(kind), arg)]
  }

  function AllMeant(env: Env, xs: seq<Spelling>): seq<Action> {
    if xs == [] then [] else AllMeant(env, xs[..|xs| - 1]) + Meant(env, xs[|xs| - 1])
  }

  function AllWritten(xs: seq<Spelling>): (ls: seq<string>)
    ensures |ls| == |xs| && forall i :: 0 <= i < |ls| ==> ls[i] == Written(xs[i])
  {
    seq(|xs|, i requires 0 <= i < |xs| => Written(xs[i]))
  }

  lemma KindsAre(k: string)
    ensures KnownAction(k) <==> k in KINDS
  {
  }

  lemma TrimEdges(kind: string, a: string, b: string, arg: string)
    requires Trimmed(kind) && kind != "" && Trimmed(arg) && arg != ""
    ensures Trimmed(kind + a + "=" + b + arg)
  {
    var s := kind + a + "=" + b + arg;
    assert s[0] == kind[0] && s[|s| - 1] == arg[|arg| - 1];
  }

  lemma EqualsAt(kind: string, a: string, rest: string)
    requires '=' !in kind && Blank(a)
    ensures Index(kind + a + "=" + rest, "=") == |kind + a|
  {
    var s, i := kind + a + "=" + rest, |kind + a|;
    assert s[i..i + 1] == "=" && OccursAt(s, "=", i);
    forall k: nat | k < i
      ensures !OccursAt(s, "=", k)
    {
      assert s[k..k + 1] == [s[k]];
      if |kind| <= k { assert s[k] == a[k - |kind|]; }
    }
  }

  lemma NoEqualsAt(kind: string)
    requires '=' !in kind
    ensures Index(kind, "=") == -1
  {
    forall k: nat ensures !OccursAt(kind, "=", k) {
      assert k < |kind| ==> kind[k..k + 1] == [kind[k]];
    }
  }

  lemma ActionReads(env: Env, x: Spelling)
    requires Spells(env, x) && !x.Nothing?
    ensures var raw := TrimSpace(Written(x)); raw != "" && ParseAction(env, raw) == Ok(Meant(env, x)[0])
  {
    hide TrimSpace, Index, IsSpace, Trimmed, KnownAction, Blank;
    match x
    case Bare(pre, kind, post) =>
      TrimPadded(pre, kind, post);
      NoEqualsAt(kind);
      KindsAre(env.lower(kind));
    case Full(pre, kind, a, b, arg, post) =>
      var s := kind + a + "=" + b + arg;
      TrimEdges(kind, a, b, arg);
      TrimPadded(pre, s, post);
      EqualsAt(kind, a, b + arg);
      assert s == kind + a + "=" + (b + arg);
      assert s[..|kind + a|] == kind + a && s[|kind + a| + 1..] == b + arg;
      BlankNothing();
      TrimPadded("", kind, a);
      TrimPadded(b, arg, "");
      assert "" + kind + a == kind + a && b + arg + "" == b + arg;
      KindsAre(env.lower(kind));
  }

  lemma BlankTrims(pre: string)
    requires Blank(pre)
    ensures TrimSpace(pre) == ""
  {
    BlankNothing();
    assert Trimmed("") && pre + "" + "" == pre;
    hide TrimSpace, Blank;
    TrimPadded(pre, "", "");
  }

  lemma {:induction false} ActionsRead(env: Env, xs: seq<Spelling>)
    requires forall i :: 0 <= i < |xs| ==> Spells(env, xs[i])
    ensures ParseActions(env, AllWritten(xs)) == Ok(AllMeant(env, xs))
  {
    hide ParseAction, TrimSpace, Spells, Written;
    if xs != [] {
      var n := |xs| - 1;
      ActionsRead(env, xs[..n]);
      assert AllWritten(xs)[..n] == AllWritten(xs[..n]);
      if xs[n].Nothing? {
        NothingTrims(env, xs[n]);
        assert AllMeant(env, xs[..n]) + [] == AllMeant(env, xs[..n]);
      } else {
        ActionReads(env, xs[n]);
      }
    }
  }

  lemma NothingTrims(env: Env, x: Spelling)
    requires Spells(env, x) && x.Nothing?
    ensures TrimSpace(Written(x)) == ""
  {
    BlankTrims(x.pre);
  }

  // ---- the line -----------------------------------------------------------

  /** Text that can stand between separators. */
  predicate Part(s: string) {
    L.Good(s, false) && (s == "" || s[|s| - 1] != ':')
  }

  lemma {:induction false} SplitOfParts(parts: seq<string>)
    requires parts != [] && forall i :: 0 <= i < |parts| ==> Part(parts[i])
    ensures Split(Join(parts, "::"), "::") == parts
  {
    if |parts| == 1 {
      L.NoSplit(parts[0]);
    } else {
      var x, rest := parts[0], Join(parts[1..], "::");
      SplitOfParts(parts[1..]);
      assert parts == [x] + parts[1..];
      SplitFirst(x, rest);
      hide Split;
    }
  }

  lemma SplitFirst(x: string, rest: string)
    requires Part(x)
    ensures Split(x + "::" + rest, "::") == [x] + Split(rest, "::")
  {
    var s := x + "::" + rest;
    var i := |x|;
    assert s[i..i + 2] == "::" && OccursAt(s, "::", i);
    forall k: nat | k < i
      ensures !OccursAt(s, "::", k)
    {
      assert s[k] == x[k] && s[k..k + 2] == [s[k], s[k + 1]];
      assert k + 1 < i ==> s[k + 1] == x[k + 1];
    }
    assert Index(s, "::") == i;
    assert s[..i] == x && s[i + 2..] == rest;
  }

  lemma ByParts(env: Env, line: string, parts: seq<string>, m: string, url: string, actions: Result<seq<Action>, Error>)
    requires Trimmed(line) && line != "" && line[0] != '#' && parts != [] && Split(line, "::") == parts
    requires ParseHead(env, TrimSpace(parts[0])) == (m, url) && ParseActions(env, parts[1..]) == actions
    ensures Parse(env, line)
         == match actions
            case Err(e) => Err(e)
            case Ok(as_) =>
              if as_ == [] then Err(NoActions)
              else if !env.compiles(url) then Err(BadRegex(url))
              else Ok(Rule(0, true, m, url, as_))
  {
    hide ParseHead, ParseActions, Split, TrimSpace, Trimmed;
    L.TrimOfTrimmed(line);
  }

  /**
   A line of a head and actions, each written as its author pleases, is the rule that they mean: method and URL of
   the head, the actions in order with lower-case kinds and trimmed arguments. It is refused where it has no
   action or its URL does not compile.
   */
  lemma LineReads(env: Env, head: string, xs: seq<Spelling>, m: string, url: string)
    requires xs != [] && Part(head) && forall i :: 0 <= i < |xs| ==> Spells(env, xs[i]) && Part(Written(xs[i]))
    requires HeadSays(env, TrimSpace(head), m, url)
    requires var line := Join([head] + AllWritten(xs), "::"); Trimmed(line) && line != "" && line[0] != '#'
    ensures Parse(env, Join([head] + AllWritten(xs), "::"))
         == if AllMeant(env, xs) == [] then Err(NoActions)
            else if !env.compiles(url) then Err(BadRegex(url))
            else Ok(Rule(0, true, m, url, AllMeant(env, xs)))
  {
    hide ParseHead, ParseActions, Parse, Spells, Split, Join, TrimSpace, Trimmed, HeadSays, Part, Written, AllMeant;
    var parts := [head] + AllWritten(xs);
    SplitOfParts(parts);
    assert parts[1..] == AllWritten(xs);
    HeadReads(env, TrimSpace(head), m, url);
    ActionsRead(env, xs);
    ByParts(env, Join(parts, "::"), parts, m, url, Ok(AllMeant(env, xs)));
  }

  /** Blanks around a line do not matter. */
  lemma LineTrims(env: Env, pre: string, line: string, post: string)
    requires Blank(pre) && Blank(post) && Trimmed(line)
    ensures Parse(env, pre + line + post) == Parse(env, line)
  {
    hide TrimSpace, ParseHead, ParseActions, Split, Trimmed, Blank;
    TrimPadded(pre, line, post);
    L.TrimOfTrimmed(line);
  }

  /** A blank line, or a comment, is no rule. */
  lemma CommentIsNoRule(env: Env, line: string)
    requires TrimSpace(line) == "" || TrimSpace(line)[0] == '#'
    ensures Parse(env, line) == Err(EmptyRule)
  {
    hide TrimSpace;
  }

  /** The first action of no known kind is what a line is refused for. */
  lemma UnknownIsRefused(env: Env, head: string, xs: seq<Spelling>, pre: string, kind: string, post: string, more: seq<string>)
    requires Part(head) && forall i :: 0 <= i < |xs| ==> Spells(env, xs[i]) && Part(Written(xs[i]))
    requires Blank(pre) && Blank(post) && Trimmed(kind) && kind != "" && '=' !in kind && env.lower(kind) !in KINDS
    requires Part(pre + kind + post) && forall i :: 0 <= i < |more| ==> Part(more[i])
    requires var line := Join([head] + AllWritten(xs) + [pre + kind + post] + more, "::"); Trimmed(line) && line != "" && line[0] != '#'
    ensures Parse(env, Join([head] + AllWritten(xs) + [pre + kind + post] + more, "::")) == Err(UnknownAction(kind))
  {
    hide ParseHead, ParseActions, Parse, ParseAction, Spells, Split, Join, TrimSpace, Trimmed, Part, Written, AllMeant, Blank,
         AllWritten;
    var before, text := AllWritten(xs), pre + kind + post;
    var parts := [head] + before + [text] + more;
    PartsOf(head, before, text, more);
    SplitOfParts(parts);
    ActionsRead(env, xs);
    TrimPadded(pre, kind, post);
    UnknownKind(env, kind);
    UnknownEnds(env, before, text, AllMeant(env, xs), kind);
    ParseActionsStops(env, before + [text] + more, |before| + 1, UnknownAction(kind));
    var (m, url) := ParseHead(env, TrimSpace(head));
    ByParts(env, Join(parts, "::"), parts, m, url, Err(UnknownAction(kind)));
  }

  lemma PartsOf(head: string, before: seq<string>, text: string, more: seq<string>)
    ensures var parts, rest := [head] + before + [text] + more, before + [text] + more;
            && parts[0] == head && parts[1..] == rest && rest[..|before| + 1] == before + [text]
            && forall i :: 0 <= i < |parts| ==>
                 parts[i] == head || parts[i] == text || parts[i] in before || parts[i] in more
  {
  }

  lemma UnknownKind(env: Env, kind: string)
    requires '=' !in kind && env.lower(kind) !in KINDS
    ensures ParseAction(env, kind) == Err(UnknownAction(kind))
  {
    hide KnownAction, Index;
    NoEqualsAt(kind);
    KindsAre(env.lower(kind));
  }

  lemma UnknownEnds(env: Env, before: seq<string>, text: string, done: seq<Action>, kind: string)
    requires ParseActions(env, before) == Ok(done) && TrimSpace(text) == kind != ""
    requires ParseAction(env, kind) == Err(UnknownAction(kind))
    ensures ParseActions(env, before + [text]) == Err(UnknownAction(kind))
  {
    hide ParseAction, TrimSpace;
    assert (before + [text])[..|before|] == before;
  }

  /** A rule without a method is printed as one for every method. */
  lemma NoMethodPrints(r: Rule)
    requires Blank(r.method_)
    ensures Show(r) == "* " + r.url + ActionsText(r.actions)
  {
    hide ActionsText, TrimSpace;
    BlankTrims(r.method_);
    assert "*" + " " == "* ";
  }
}
