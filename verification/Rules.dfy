/** The one-line rule language and the rule set (internal/core/rules.go). */
module Rules {
  import opened Sequences
  import opened Text
  import opened Wrappers

  datatype Action = Action(kind: string, arg: string)

  datatype Rule = Rule(id: int, enabled: bool, method_: string, url: string, actions: seq<Action>)

  /** Library calls: Unicode case mapping and the regexp compiler's verdict. */
  datatype Env = Env(upper: string -> string, lower: string -> string, compiles: string -> bool)

  datatype Error = EmptyRule | UnknownAction(kind: string) | NoActions | BadRegex(url: string)

  predicate KnownMethod(m: string) {
    || m == "GET" || m == "POST" || m == "PUT" || m == "PATCH" || m == "DELETE"
    || m == "HEAD" || m == "OPTIONS" || m == "TRACE" || m == "CONNECT"
  }

  predicate KnownAction(k: string) {
    || k == "file" || k == "redirect" || k == "status" || k == "body" || k == "header" || k == "delheader"
    || k == "break" || k == "block" || k == "delay" || k == "maplocal"
    || k == "resheader" || k == "delresheader" || k == "location"
  }

  const SEP := "::"

  // ---- parsing ------------------------------------------------------------

  /** The runes before the first white space. */
  function FieldEnd(s: string): (n: nat)
    ensures n <= |s| && (forall i :: 0 <= i < n ==> !IsSpace(s[i])) && (n < |s| ==> IsSpace(s[n]))
  {
    if s == "" || IsSpace(s[0]) then 0 else 1 + FieldEnd(s[1..])
  }

  /** strings.Fields */
  function Fields(s: string): seq<string>
    decreases |s|
  {
    var t := TrimLeft(s);
    if t == "" then [] else [t[..FieldEnd(t)]] + Fields(t[FieldEnd(t)..])
  }

  predicate IsMethodList(s: string) {
    && 0 <= Index(s, ",")
    && forall i :: 0 <= i < |Split(s, ",")| ==> KnownMethod(TrimSpace(Split(s, ",")[i]))
  }

  predicate IsMethod(s: string) { s == "*" || KnownMethod(s) || IsMethodList(s) }

  /** The method and the URL expression of a trimmed head. */
  function ParseHead(env: Env, head: string): (string, string) {
    var fs := Fields(head);
    if 1 < |fs| && IsMethod(env.upper(fs[0])) && |fs[0]| <= |head| then
      (env.upper(fs[0]), OrAny(TrimSpace(if HasPrefix(head, fs[0]) then head[|fs[0]|..] else head)))
    else ("*", OrAny(head))
  }

  function OrAny(url: string): string {
    if TrimSpace(url) == "" then ".*" else url
  }

  /** `kind` or `kind=arg`, both trimmed. */
  function ParseAction(env: Env, raw: string): Result<Action, Error> {
    var i := Index(raw, "=");
    var kind := if i < 0 then raw else TrimSpace(raw[..i]);
    var arg := if i < 0 then "" else TrimSpace(raw[i + 1..]);
    if KnownAction(env.lower(kind)) then Ok(Action(env.lower(kind), arg)) else Err(UnknownAction(kind))
  }

  /** Blank parts are skipped; the first unknown action ends the parse. */
  function ParseActions(env: Env, parts: seq<string>): Result<seq<Action>, Error> {
    if parts == [] then Ok([])
    else
      match ParseActions(env, parts[..|parts| - 1])
      case Err(e) => Err(e)
      case Ok(done) =>
        var raw := TrimSpace(parts[|parts| - 1]);
        if raw == "" then Ok(done)
        else
          match ParseAction(env, raw)
          case Err(e) => Err(e)
          case Ok(a) => Ok(done + [a])
  }

  function Parse(env: Env, line0: string): Result<Rule, Error> {
    var line := TrimSpace(line0);
    if line == "" || line[0] == '#' then Err(EmptyRule)
    else
      var parts := Split(line, SEP);
      var (m, url) := ParseHead(env, TrimSpace(parts[0]));
      match ParseActions(env, parts[1..])
      case Err(e) => Err(e)
      case Ok(actions) =>
        if actions == [] then Err(NoActions)
        else if !env.compiles(url) then Err(BadRegex(url))
        else Ok(Rule(0, true, m, url, actions))
  }

  /** ParseRule: the head, then the loop over the parts after it. */
  method ParseRule(env: Env, line0: string) returns (r: Result<Rule, Error>)
    ensures r == Parse(env, line0)
  {
    hide ParseHead, ParseActions, IsSpace, Split, TrimSpace;
    var line := TrimSpace(line0);
    if line == "" || line[0] == '#' {
      return Err(EmptyRule);
    }
    var parts := Split(line, SEP);
    var (m, url) := ParseHead(env, TrimSpace(parts[0]));
    var actions := ParseParts(env, parts[1..]);
    if actions.Err? {
      return Err(actions.error);
    }
    if actions.value == [] {
      return Err(NoActions);
    }
    if !env.compiles(url) {
      return Err(BadRegex(url));
    }
    r := Ok(Rule(0, true, m, url, actions.value));
  }

  method ParseParts(env: Env, parts: seq<string>) returns (r: Result<seq<Action>, Error>)
    ensures r == ParseActions(env, parts)
  {
    hide ParseAction, TrimSpace;
    var actions := [];
    assert parts[..0] == [];
    for i := 0 to |parts|
      invariant ParseActions(env, parts[..i]) == Ok(actions)
    {
      assert parts[..i + 1][..i] == parts[..i] && parts[..i + 1][i] == parts[i];
      var raw := TrimSpace(parts[i]);
      if raw == "" {
        continue;
      }
      var a := ParseAction(env, raw);
      if a.Err? {
        ParseActionsStops(env, parts, i + 1, a.error);
        return Err(a.error);
      }
      actions := actions + [a.value];
    }
    assert parts[..|parts|] == parts;
    r := Ok(actions);
  }

  lemma {:induction false} ParseActionsStops(env: Env, parts: seq<string>, i: nat, e: Error)
    requires i <= |parts| && ParseActions(env, parts[..i]) == Err(e)
    ensures ParseActions(env, parts) == Err(e)
    decreases |parts|
  {
    hide ParseAction, TrimSpace;
    if i == |parts| {
      assert parts[..i] == parts;
    } else {
      var n := |parts| - 1;
      assert parts[..n][..i] == parts[..i];
      ParseActionsStops(env, parts[..n], i, e);
    }
  }

  // ---- printing -----------------------------------------------------------

  function ActionText(a: Action): string {
    if a.arg == "" then a.kind else a.kind + "=" + a.arg
  }

  function ActionsText(actions: seq<Action>): string {
    if actions == [] then ""
    else ActionsText(actions[..|actions| - 1]) + (" :: " + ActionText(actions[|actions| - 1]))
  }

  /** Rule.String */
  function Show(r: Rule): string {
    (if TrimSpace(r.method_) == "" then "*" else TrimSpace(r.method_)) + " " + r.url + ActionsText(r.actions)
  }

  method String(r: Rule) returns (b: string)
    ensures b == Show(r)
  {
    hide TrimSpace;
    var m := TrimSpace(r.method_);
    if m == "" {
      m := "*";
    }
    b := WriteActions(m + " " + r.url, r.actions);
  }

  method WriteActions(b0: string, actions: seq<Action>) returns (b: string)
    ensures b == b0 + ActionsText(actions)
  {
    b := b0;
    assert actions[..0] == [] && b0 + "" == b0;
    for i := 0 to |actions|
      invariant b == b0 + ActionsText(actions[..i])
    {
      assert actions[..i + 1][..i] == actions[..i] && actions[..i + 1][i] == actions[i];
      var piece := WriteAction(actions[i]);
      hide ActionText;
      Assoc(b0, ActionsText(actions[..i]), " :: " + ActionText(actions[i]));
      b := b + piece;
    }
    assert actions[..|actions|] == actions;
  }

  method WriteAction(a: Action) returns (piece: string)
    ensures piece == " :: " + ActionText(a)
  {
    piece := " :: " + a.kind;
    if a.arg != "" {
      piece := piece + "=" + a.arg;
    }
  }

  // ---- the rule set -------------------------------------------------------

  function ExportText(rules: seq<Rule>): string {
    if rules == [] then "" else ExportText(rules[..|rules| - 1]) + Show(rules[|rules| - 1]) + "\n"
  }

  lemma NothingShown()
    ensures ExportText([]) == ""
  {
  }

  lemma ExportSnoc(rules: seq<Rule>, r: Rule)
    ensures ExportText(rules + [r]) == ExportText(rules) + Show(r) + "\n"
  {
    hide Show;
    assert (rules + [r])[..|rules|] == rules;
  }

  predicate Skipped(line: string) {
    var t := TrimSpace(line);
    t == "" || t[0] == '#'
  }

  /** The rules of the lines that parse, in order, numbered from `next` on. */
  function Imported(env: Env, lines: seq<string>, next: int): seq<Rule> {
    if lines == [] then []
    else
      var done := Imported(env, lines[..|lines| - 1], next);
      var line := lines[|lines| - 1];
      if Skipped(line) then done
      else
        match Parse(env, TrimSpace(line))
        case Ok(r) => done + [r.(id := next + |done|)]
        case Err(_) => done
  }

  /** The line numbers, from 1, and the errors of the lines that do not parse. */
  function ImportErrors(env: Env, lines: seq<string>): seq<(nat, Error)> {
    if lines == [] then []
    else
      var done := ImportErrors(env, lines[..|lines| - 1]);
      var line := lines[|lines| - 1];
      if Skipped(line) then done
      else
        match Parse(env, TrimSpace(line))
        case Ok(_) => done
        case Err(e) => done + [(|lines|, e)]
  }

  predicate IdsBelow(rules: seq<Rule>, n: int) {
    forall i :: 0 <= i < |rules| ==> rules[i].id <= n
  }

  function Find(rules: seq<Rule>, id: int): (i: nat)
    ensures i <= |rules| && (i < |rules| ==> rules[i].id == id)
    ensures forall k :: 0 <= k < i ==> rules[k].id != id
  {
    if rules == [] || rules[0].id == id then 0 else 1 + Find(rules[1..], id)
  }

  class RuleSet {
    const env: Env
    var rules: seq<Rule>
    var nextID: int

    /** No id is above nextID, so the next one is fresh. */
    ghost predicate Valid()
      reads this
    {
      IdsBelow(rules, nextID)
    }

    constructor (env: Env)
      ensures Valid() && this.env == env && rules == [] && nextID == 0
    {
      this.env, rules, nextID := env, [], 0;
    }

    method Add(r: Rule) returns (added: Rule)
      requires Valid()
      modifies this
      ensures Valid() && nextID == old(nextID) + 1 && added == r.(id := nextID)
      ensures rules == old(rules) + [added] && forall i :: 0 <= i < |old(rules)| ==> old(rules)[i].id != added.id
    {
      nextID := nextID + 1;
      added := r.(id := nextID);
      rules := rules + [added];
    }

    method Locate(id: int) returns (i: nat)
      ensures i == Find(rules, id)
    {
      hide Find;
      for j := 0 to |rules|
        invariant forall k :: 0 <= k < j ==> rules[k].id != id
      {
        if rules[j].id == id {
          return j;
        }
      }
      i := |rules|;
    }

    /** Swaps the rule with the same id, or appends it under a fresh one. */
    method Replace(r: Rule)
      requires Valid()
      modifies this
      ensures Valid()
      ensures var i := Find(old(rules), r.id);
              if i < |old(rules)| then rules == old(rules)[i := r] && nextID == old(nextID)
              else nextID == old(nextID) + 1 && rules == old(rules) + [r.(id := nextID)]
    {
      var i := Locate(r.id);
      if i < |rules| {
        rules := rules[i := r];
      } else {
        nextID := nextID + 1;
        rules := rules + [r.(id := nextID)];
      }
    }

    method Remove(id: int)
      requires Valid()
      modifies this`rules
      ensures Valid()
      ensures var i := Find(old(rules), id);
              rules == if i < |old(rules)| then old(rules)[..i] + old(rules)[i + 1..] else old(rules)
    {
      var i := Locate(id);
      if i < |rules| {
        rules := rules[..i] + rules[i + 1..];
      }
    }

    method Toggle(id: int) returns (enabled: bool)
      requires Valid()
      modifies this`rules
      ensures Valid()
      ensures var i := Find(old(rules), id);
              if i < |old(rules)| then
                enabled == !old(rules)[i].enabled && rules == old(rules)[i := old(rules)[i].(enabled := enabled)]
              else !enabled && rules == old(rules)
    {
      enabled := false;
      var i := Locate(id);
      if i < |rules| {
        enabled := !rules[i].enabled;
        rules := rules[i := rules[i].(enabled := enabled)];
      }
    }

    method Clear()
      requires Valid()
      modifies this`rules
      ensures Valid() && rules == []
    {
      rules := [];
    }

    /** Appends every rule that parses; the others are reported with their line number. */
    method ImportText(text: string) returns (added: seq<Rule>, errs: seq<(nat, Error)>)
      requires Valid()
      modifies this
      ensures Valid() && rules == old(rules) + added && nextID == old(nextID) + |added|
      ensures added == Imported(env, Split(text, "\n"), old(nextID) + 1)
      ensures errs == ImportErrors(env, Split(text, "\n"))
    {
      hide Parse, TrimSpace, Split;
      added, errs := [], [];
      var lines := Split(text, "\n");
      ghost var first := nextID + 1;
      assert lines[..0] == [];
      for i := 0 to |lines|
        invariant Valid() && rules == old(rules) + added && nextID == old(nextID) + |added|
        invariant added == Imported(env, lines[..i], first)
        invariant errs == ImportErrors(env, lines[..i])
      {
        assert lines[..i + 1][..i] == lines[..i] && lines[..i + 1][i] == lines[i];
        var trimmed := TrimSpace(lines[i]);
        if trimmed == "" || trimmed[0] == '#' {
          continue;
        }
        var r := ParseRule(env, trimmed);
        match r {
          case Err(e) =>
            errs := errs + [(i + 1, e)];
          case Ok(rule) =>
            var a := Add(rule);
            added := added + [a];
        }
      }
      assert lines[..|lines|] == lines;
    }

    method Export() returns (text: string)
      ensures text == ExportText(rules)
    {
      hide ExportText, Show;
      text := "";
      NothingShown();
      assert rules[..0] == [];
      for i := 0 to |rules|
        invariant text == ExportText(rules[..i])
      {
        var s := String(rules[i]);
        assert rules[..i + 1] == rules[..i] + [rules[i]];
        ExportSnoc(rules[..i], rules[i]);
        text := text + s + "\n";
      }
      assert rules[..|rules|] == rules;
    }
  }
}
