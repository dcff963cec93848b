/** What the rules decide for an exchange, told from the actions alone (internal/proxy/proxy.go, applyRules). */
module PlanLaws {
  import opened Wrappers
  import opened Text
  import opened Plans
  import Rules

  type Actions = seq<Rules.Action>

  // ---- pairs --------------------------------------------------------------

  lemma FirstIs(s: string, c: char, k: nat)
    requires k < |s| && s[k] == c && c !in s[..k]
    ensures Index(s, [c]) == k
  {
    assert s[k..k + 1] == [c] && OccursAt(s, [c], k);
    forall j: nat | j < k
      ensures !OccursAt(s, [c], j)
    {
      assert s[..k][j] == s[j] && s[j..j + 1] == [s[j]];
    }
  }

  lemma TrimsTo(pre: string, s: string, post: string)
    requires Blank(pre) && Blank(post) && Trimmed(s)
    ensures TrimSpace(pre + s + post) == s
  {
    TrimPadded(pre, s, post);
  }

  /** The end pieces of a trimmed text that is a name, an equals sign and a value, with blanks around each. */
  lemma PairTrims(name: string, a: string, b: string, val: string)
    requires Trimmed(name) && name != "" && Blank(a) && Blank(b) && Trimmed(val) && val != ""
    ensures Trimmed(name + a + "=" + b + val)
  {
    var s := name + a + "=" + b + val;
    assert s[0] == name[0] && s[|s| - 1] == val[|val| - 1];
  }

  /** `name=value`, with blanks anywhere around the two, is read as the name and the value. */
  lemma PairReads(pre: string, name: string, a: string, b: string, val: string, post: string)
    requires Blank(pre) && Blank(a) && Blank(b) && Blank(post)
    requires Trimmed(name) && name != "" && '=' !in name && Trimmed(val) && val != ""
    ensures SplitPair(pre + (name + a + "=" + b + val) + post) == (name, val)
  {
    hide TrimSpace, Index, Trimmed, IsSpace;
    var s := name + a + "=" + b + val;
    PairTrims(name, a, b, val);
    TrimsTo(pre, s, post);
    NoEqualsInBlank(a);
    var i := |name + a|;
    assert s[..i] == name + a && s[i + 1..] == b + val;
    FirstIs(s, '=', i);
    TrimsTo("", name, a);
    TrimsTo(b, val, "");
    assert "" + name + a == name + a && b + val + "" == b + val;
  }

  lemma NoEqualsInBlank(a: string)
    requires Blank(a)
    ensures '=' !in a
  {
  }

  /** Without an equals sign the whole is the name. */
  lemma NameReads(pre: string, name: string, post: string)
    requires Blank(pre) && Blank(post) && Trimmed(name) && '=' !in name
    ensures SplitPair(pre + name + post) == (name, "")
  {
    hide TrimSpace, IsSpace, Trimmed;
    TrimsTo(pre, name, post);
    forall j: nat
      ensures !OccursAt(name, "=", j)
    {
      if j < |name| {
        assert name[j..j + 1] == [name[j]];
      }
    }
  }

  // ---- mapped directories -------------------------------------------------

  /** `maplocal=prefix=dir` is for the paths under the prefix, and maps the rest of the path into the directory. */
  lemma MapLocalReads(prefix: string, dir: string, rest: string)
    requires Trimmed(prefix) && prefix != "" && '=' !in prefix && Trimmed(dir) && dir != ""
    requires dir[|dir| - 1] != '/' && (rest == "" || rest[0] != '/')
    ensures forall path :: Maps(prefix + "=" + dir, path) <==> HasPrefix(path, prefix)
    ensures MappedFile(prefix + "=" + dir, prefix + rest) == dir + "/" + rest
    ensures MappedFile(prefix + "=" + dir, prefix + ("/" + rest)) == dir + "/" + rest
  {
    hide SplitPair, Trimmed;
    PairReads("", prefix, "", "", dir, "");
    assert "" + (prefix + "" + "=" + "" + dir) + "" == prefix + "=" + dir;
    assert (prefix + rest)[|prefix|..] == rest && (prefix + ("/" + rest))[|prefix|..] == "/" + rest;
  }

  lemma SlashInBetween(prefix: string, dir: string, rest: string)
    requires Trimmed(prefix) && prefix != "" && '=' !in prefix && Trimmed(dir + "/")
    ensures MappedFile(prefix + "=" + (dir + "/"), prefix + rest) == dir + "/" + TrimPrefix(rest, "/")
  {
    hide SplitPair, Trimmed;
    PairReads("", prefix, "", "", dir + "/", "");
    assert "" + (prefix + "" + "=" + "" + (dir + "/")) + "" == prefix + "=" + (dir + "/");
    assert (prefix + rest)[|prefix|..] == rest;
  }

  // ---- the last action of a kind ------------------------------------------

  function LastArg(actions: Actions, kind: string): Option<string> {
    if actions == [] then None
    else
      var a := actions[|actions| - 1];
      if a.kind == kind then Some(a.arg) else LastArg(actions[..|actions| - 1], kind)
  }

  /** The last status action that is a number. */
  function LastStatus(actions: Actions): int {
    if actions == [] then 0
    else
      var a := actions[|actions| - 1];
      if a.kind == "status" && Atoi(TrimSpace(a.arg)).Some? then Atoi(TrimSpace(a.arg)).value
      else LastStatus(actions[..|actions| - 1])
  }

  /** The code of the last block action: 403 unless it is a number. */
  function LastBlock(actions: Actions): int {
    if actions == [] then 0
    else
      var a := actions[|actions| - 1];
      if a.kind != "block" then LastBlock(actions[..|actions| - 1])
      else if a.arg != "" && Atoi(TrimSpace(a.arg)).Some? then Atoi(TrimSpace(a.arg)).value
      else 403
  }

  /** The file of the last file action, or mapping for this path. */
  function LastFile(actions: Actions, path: string): string {
    if actions == [] then ""
    else
      var a := actions[|actions| - 1];
      if a.kind == "file" then a.arg
      else if a.kind == "maplocal" && Maps(a.arg, path) then MappedFile(a.arg, path)
      else LastFile(actions[..|actions| - 1], path)
  }

  function OrEmpty(s: Option<string>): string { match s case Some(x) => x case None => "" }

  lemma KindsAre(k: string)
    ensures (KindOf(k).Redirect? <==> k == "redirect") && (KindOf(k).Location? <==> k == "location")
    ensures (KindOf(k).Body? <==> k == "body") && (KindOf(k).Status? <==> k == "status")
    ensures (KindOf(k).Block? <==> k == "block") && (KindOf(k).File? <==> k == "file")
    ensures (KindOf(k).MapLocal? <==> k == "maplocal") && (KindOf(k).Break? <==> k == "break")
    ensures (KindOf(k).Header? <==> k == "header") && (KindOf(k).DelHeader? <==> k == "delheader")
  {
  }

  lemma StepFields(env: Env, path: string, pl: Plan, a: Rules.Action)
    ensures var n := Step(env, path, pl, a);
            && n.redirect == (if a.kind == "redirect" then a.arg else pl.redirect)
            && n.location == (if a.kind == "location" then a.arg else pl.location)
            && n.respBody == (if a.kind == "body" then Some(a.arg) else pl.respBody)
            && n.statusOverride == (if a.kind == "status" && Atoi(TrimSpace(a.arg)).Some? then Atoi(TrimSpace(a.arg)).value
                                    else pl.statusOverride)
            && n.blockStatus == (if a.kind != "block" then pl.blockStatus
                                 else if a.arg != "" && Atoi(TrimSpace(a.arg)).Some? then Atoi(TrimSpace(a.arg)).value
                                 else 403)
            && n.mockFile == (if a.kind == "file" then a.arg
                              else if a.kind == "maplocal" && Maps(a.arg, path) then MappedFile(a.arg, path)
                              else pl.mockFile)
  {
    hide KindOf, Step, TrimSpace, Atoi, MappedFile, Maps;
    KindsAre(a.kind);
    StepWrites(env, path, pl, a, RedirectTo);
    StepWrites(env, path, pl, a, LocationTo);
    StepWrites(env, path, pl, a, BodyTo);
    StepWrites(env, path, pl, a, StatusTo);
    StepWrites(env, path, pl, a, BlockWith);
    StepWrites(env, path, pl, a, MockFile);
    KindsApart(a.kind);
  }

  lemma KindsApart(k: string)
    ensures KindOf(k).File? ==> !KindOf(k).MapLocal?
  {
  }

  /** Redirect, location, body, status, refusal and file are those of the last action for each. */
  lemma {:induction false} FieldsAre(env: Env, path: string, actions: Actions)
    ensures var pl := PlanOf(env, path, actions);
            && pl.redirect == OrEmpty(LastArg(actions, "redirect"))
            && pl.location == OrEmpty(LastArg(actions, "location"))
            && pl.respBody == LastArg(actions, "body")
            && pl.statusOverride == LastStatus(actions)
            && pl.blockStatus == LastBlock(actions)
            && pl.mockFile == LastFile(actions, path)
  {
    hide Step, TrimSpace, Atoi, Maps, MappedFile;
    if actions != [] {
      var n := |actions| - 1;
      FieldsAre(env, path, actions[..n]);
      StepFields(env, path, PlanOf(env, path, actions[..n]), actions[n]);
    }
  }

  // ---- breakpoints --------------------------------------------------------

  /** What a break action says, letter case and blanks apart. */
  function BreakWord(env: Env, a: Rules.Action): string { env.lower(TrimSpace(a.arg)) }

  predicate BreaksRequest(env: Env, a: Rules.Action) {
    a.kind == "break" && BreakWord(env, a) != "resp" && BreakWord(env, a) != "response"
  }

  predicate BreaksResponse(env: Env, a: Rules.Action) {
    && a.kind == "break"
    && (BreakWord(env, a) == "resp" || BreakWord(env, a) == "response" || BreakWord(env, a) == "both"
        || BreakWord(env, a) == "all" || BreakWord(env, a) == "")
  }

  lemma StopsAre(env: Env, a: Rules.Action)
    ensures Stops(env, a, true) == BreaksRequest(env, a) && Stops(env, a, false) == BreaksResponse(env, a)
  {
    KindsAre(a.kind);
    hide KindOf;
  }

  /** `resp` and `response` hold the response, `both`, `all` and nothing hold both halves, anything else the request. */
  lemma BreaksAre(env: Env, path: string, actions: Actions)
    ensures PlanOf(env, path, actions).breakReq <==> exists j :: 0 <= j < |actions| && BreaksRequest(env, actions[j])
    ensures PlanOf(env, path, actions).breakResp <==> exists j :: 0 <= j < |actions| && BreaksResponse(env, actions[j])
  {
    hide Stops, BreaksRequest, BreaksResponse, PlanOf;
    BreaksAccumulate(env, path, actions);
    forall j | 0 <= j < |actions|
      ensures Stops(env, actions[j], true) == BreaksRequest(env, actions[j])
      ensures Stops(env, actions[j], false) == BreaksResponse(env, actions[j])
    {
      StopsAre(env, actions[j]);
    }
  }

  // ---- request headers ----------------------------------------------------

  /** What becomes of header k: the last action that names it decides, and without one it is as it came. */
  function HeaderFor(h: Headers, actions: Actions, k: string): Option<string> {
    if actions == [] then if k in h then Some(h[k]) else None
    else
      var a := actions[|actions| - 1];
      var (name, val) := SplitPair(a.arg);
      if a.kind == "header" && name == k != "" then Some(val)
      else if a.kind == "delheader" && name == k != "" then None
      else HeaderFor(h, actions[..|actions| - 1], k)
  }

  /** `header=name=value` sets that header, `delheader=name` removes it, and every other header stays. */
  lemma {:induction false} HeadersAre(h: Headers, actions: Actions, k: string)
    ensures var out := HeadersOf(h, actions);
            (if k in out then Some(out[k]) else None) == HeaderFor(h, actions, k)
  {
    hide KindOf, SplitPair;
    if actions != [] {
      var n := |actions| - 1;
      HeadersAre(h, actions[..n], k);
      KindsAre(actions[n].kind);
    }
  }

  // ---- what adds up -------------------------------------------------------

  /** The tags one action leaves on the flow. */
  function TagsOf(env: Env, a: Rules.Action): seq<string> {
    if a.kind == "break" then ["break"]
    else if a.kind == "delay" then if env.parseDelay(TrimSpace(a.arg)).Some? then ["delay"] else []
    else if a.kind == "header" || a.kind == "delheader" || a.kind == "resheader" || a.kind == "delresheader" then
      if SplitPair(a.arg).0 != "" then ["rewrite"] else []
    else []
  }

  function AllTags(env: Env, actions: Actions): seq<string> {
    if actions == [] then [] else AllTags(env, actions[..|actions| - 1]) + TagsOf(env, actions[|actions| - 1])
  }

  function TotalDelay(env: Env, actions: Actions): int {
    if actions == [] then 0
    else
      var a := actions[|actions| - 1];
      TotalDelay(env, actions[..|actions| - 1])
      + if a.kind == "delay" && env.parseDelay(TrimSpace(a.arg)).Some? then env.parseDelay(TrimSpace(a.arg)).value else 0
  }

  lemma StepTags(env: Env, path: string, pl: Plan, a: Rules.Action)
    ensures Step(env, path, pl, a).tags == pl.tags + TagsOf(env, a)
  {
    hide TrimSpace, Atoi, HalvesOf, MappedFile, Maps, SplitPair, BlockCode, Number, KindOf;
    KindNames(a.kind);
    assert pl.tags + [] == pl.tags;
  }

  lemma KindNames(k: string)
    ensures (KindOf(k).Break? <==> k == "break") && (KindOf(k).Delay? <==> k == "delay")
    ensures (KindOf(k).Header? <==> k == "header") && (KindOf(k).DelHeader? <==> k == "delheader")
    ensures (KindOf(k).ResHeader? <==> k == "resheader") && (KindOf(k).DelResHeader? <==> k == "delresheader")
  {
  }

  lemma StepDelay(env: Env, path: string, pl: Plan, a: Rules.Action)
    ensures Step(env, path, pl, a).delay
         == pl.delay + if a.kind == "delay" && env.parseDelay(TrimSpace(a.arg)).Some? then env.parseDelay(TrimSpace(a.arg)).value else 0
  {
    hide TrimSpace, Atoi, HalvesOf, MappedFile, Maps, SplitPair, BlockCode, Number, KindOf;
    KindNames(a.kind);
  }

  /** Each action leaves its tags, in order, and delays add up. */
  lemma {:induction false} TagsAre(env: Env, path: string, actions: Actions)
    ensures PlanOf(env, path, actions).tags == AllTags(env, actions)
    ensures PlanOf(env, path, actions).delay == TotalDelay(env, actions)
  {
    hide Step, TagsOf, TrimSpace;
    if actions != [] {
      var n := |actions| - 1;
      TagsAre(env, path, actions[..n]);
      StepTags(env, path, PlanOf(env, path, actions[..n]), actions[n]);
      StepDelay(env, path, PlanOf(env, path, actions[..n]), actions[n]);
    }
  }
}
