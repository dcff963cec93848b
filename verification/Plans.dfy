/** What the matching rules decide for one exchange (internal/proxy/proxy.go, applyRules). */
module Plans {
  import opened Wrappers
  import opened Text
  import Rules

  datatype Kind =
    | File | Redirect | Status | Body | Header | DelHeader | Break | Block | Delay | MapLocal
    | ResHeader | DelResHeader | Location | Other

  function KindOf(k: string): Kind {
    if k == "file" then File else if k == "redirect" then Redirect else if k == "status" then Status
    else if k == "body" then Body else if k == "header" then Header else if k == "delheader" then DelHeader
    else if k == "break" then Break else if k == "block" then Block else if k == "delay" then Delay
    else if k == "maplocal" then MapLocal else if k == "resheader" then ResHeader
    else if k == "delresheader" then DelResHeader else if k == "location" then Location else Other
  }

  /** Library calls: lower-casing and the duration parser. */
  datatype Env = Env(lower: string -> string, parseDelay: string -> Option<int>)

  datatype Plan = Plan(
    mockFile: string, statusOverride: int, redirect: string, location: string, delay: int,
    breakReq: bool, breakResp: bool, blockStatus: int, respBody: Option<string>,
    setRespHeaders: seq<(string, string)>, delRespHeaders: seq<string>, tags: seq<string>)

  const EMPTY := Plan("", 0, "", "", 0, false, false, 0, None, [], [], [])

  type Headers = map<string, string>

  const FORBIDDEN := 403

  // ---- one action ---------------------------------------------------------

  function SplitPair(s0: string): (string, string) {
    var s := TrimSpace(s0);
    var i := Index(s, "=");
    if i < 0 then (s, "") else (TrimSpace(s[..i]), TrimSpace(s[i + 1..]))
  }

  function TrimPrefix(s: string, p: string): string {
    if HasPrefix(s, p) then s[|p|..] else s
  }

  function TrimSlash(s: string): string {
    if s != "" && s[|s| - 1] == '/' then s[..|s| - 1] else s
  }

  function Number(arg: string): Option<int> { Atoi(TrimSpace(arg)) }

  /** Which halves of the exchange a break action stops. */
  datatype Halves = RequestOnly | ResponseOnly | Both

  function HalvesOf(env: Env, arg: string): Halves {
    var w := env.lower(TrimSpace(arg));
    if w == "resp" || w == "response" then ResponseOnly
    else if w == "both" || w == "all" || w == "" then Both
    else RequestOnly
  }

  function BlockCode(arg: string): int {
    if arg != "" && Number(arg).Some? then Number(arg).value else FORBIDDEN
  }

  predicate Maps(arg: string, path: string) {
    SplitPair(arg).0 != "" && HasPrefix(path, SplitPair(arg).0)
  }

  function MappedFile(arg: string, path: string): string {
    var (prefix, dir) := SplitPair(arg);
    TrimSlash(dir) + "/" + TrimPrefix(TrimPrefix(path, prefix), "/")
  }

  function Step(env: Env, path: string, pl: Plan, a: Rules.Action): Plan {
    var (name, val) := SplitPair(a.arg);
    match KindOf(a.kind)
    case Header => if name == "" then pl else pl.(tags := pl.tags + ["rewrite"])
    case DelHeader => if name == "" then pl else pl.(tags := pl.tags + ["rewrite"])
    case File => pl.(mockFile := a.arg)
    case Redirect => pl.(redirect := a.arg)
    case Location => pl.(location := a.arg)
    case Status => if Number(a.arg).Some? then pl.(statusOverride := Number(a.arg).value) else pl
    case Body => pl.(respBody := Some(a.arg))
    case ResHeader =>
      if name == "" then pl
      else pl.(setRespHeaders := pl.setRespHeaders + [(name, val)], tags := pl.tags + ["rewrite"])
    case DelResHeader =>
      if name == "" then pl else pl.(delRespHeaders := pl.delRespHeaders + [name], tags := pl.tags + ["rewrite"])
    case Break =>
      var h := HalvesOf(env, a.arg);
      pl.(breakReq := pl.breakReq || !h.ResponseOnly?, breakResp := pl.breakResp || !h.RequestOnly?,
          tags := pl.tags + ["break"])
    case Block => pl.(blockStatus := BlockCode(a.arg))
    case Delay =>
      (match env.parseDelay(TrimSpace(a.arg))
       case Some(d) => pl.(delay := pl.delay + d, tags := pl.tags + ["delay"])
       case None => pl)
    case MapLocal => if Maps(a.arg, path) then pl.(mockFile := MappedFile(a.arg, path)) else pl
    case Other => pl
  }

  function HeaderStep(h: Headers, a: Rules.Action): Headers {
    var (name, val) := SplitPair(a.arg);
    if name == "" then h
    else if KindOf(a.kind).Header? then h[name := val]
    else if KindOf(a.kind).DelHeader? then h - {name}
    else h
  }

  // ---- all of them --------------------------------------------------------

  function PlanOf(env: Env, path: string, actions: seq<Rules.Action>): Plan {
    if actions == [] then EMPTY
    else Step(env, path, PlanOf(env, path, actions[..|actions| - 1]), actions[|actions| - 1])
  }

  function HeadersOf(h: Headers, actions: seq<Rules.Action>): Headers {
    if actions == [] then h
    else HeaderStep(HeadersOf(h, actions[..|actions| - 1]), actions[|actions| - 1])
  }

  function AllActions(rules: seq<Rules.Rule>): seq<Rules.Action> {
    if rules == [] then [] else AllActions(rules[..|rules| - 1]) + rules[|rules| - 1].actions
  }

  lemma PlanSnoc(env: Env, path: string, pre: seq<Rules.Action>, a: Rules.Action)
    ensures PlanOf(env, path, pre + [a]) == Step(env, path, PlanOf(env, path, pre), a)
  {
    hide Step;
    assert (pre + [a])[..|pre|] == pre;
  }

  lemma HeadersSnoc(h: Headers, pre: seq<Rules.Action>, a: Rules.Action)
    ensures HeadersOf(h, pre + [a]) == HeaderStep(HeadersOf(h, pre), a)
  {
    hide HeaderStep;
    assert (pre + [a])[..|pre|] == pre;
  }

  lemma AllSnoc(rules: seq<Rules.Rule>, i: nat)
    requires i < |rules|
    ensures AllActions(rules[..i + 1]) == AllActions(rules[..i]) + rules[i].actions
  {
    assert rules[..i + 1][..i] == rules[..i];
  }

  /** applyRules: every action of every matching rule, in order. */
  method ApplyRules(env: Env, rules: seq<Rules.Rule>, header: Headers, path: string) returns (pl: Plan, out: Headers)
    ensures pl == PlanOf(env, path, AllActions(rules))
    ensures out == HeadersOf(header, AllActions(rules))
  {
    hide Step, HeaderStep, PlanOf, HeadersOf, AllActions;
    pl, out := EMPTY, header;
    ghost var done: seq<Rules.Action> := [];
    Nothing(env, path, header);
    for i := 0 to |rules|
      invariant done == AllActions(rules[..i])
      invariant pl == PlanOf(env, path, done) && out == HeadersOf(header, done)
    {
      var actions := rules[i].actions;
      ghost var before := done;
      for j := 0 to |actions|
        invariant done == before + actions[..j]
        invariant pl == PlanOf(env, path, done) && out == HeadersOf(header, done)
      {
        pl := Apply(env, path, pl, actions[j]);
        out := HeaderStep(out, actions[j]);
        PlanSnoc(env, path, done, actions[j]);
        HeadersSnoc(header, done, actions[j]);
        done := done + [actions[j]];
        assert actions[..j + 1] == actions[..j] + [actions[j]];
      }
      AllSnoc(rules, i);
      assert actions[..|actions|] == actions;
    }
    assert rules[..|rules|] == rules;
  }

  lemma Nothing(env: Env, path: string, header: Headers)
    ensures AllActions([]) == [] && PlanOf(env, path, []) == EMPTY && HeadersOf(header, []) == header
  {
  }

  /** The switch on one action. */
  method Apply(env: Env, path: string, pl0: Plan, a: Rules.Action) returns (pl: Plan)
    ensures pl == Step(env, path, pl0, a)
  {
    hide KindOf, TrimSpace, Atoi, SplitPair, HalvesOf, MappedFile, Maps;
    pl := pl0;
    var (name, val) := SplitPair(a.arg);
    match KindOf(a.kind)
    case Header | DelHeader =>
      if name != "" { pl := pl.(tags := pl.tags + ["rewrite"]); }
    case File => pl := pl.(mockFile := a.arg);
    case Redirect => pl := pl.(redirect := a.arg);
    case Location => pl := pl.(location := a.arg);
    case Status =>
      var n := Number(a.arg);
      if n.Some? { pl := pl.(statusOverride := n.value); }
    case Body => pl := pl.(respBody := Some(a.arg));
    case ResHeader =>
      if name != "" {
        pl := pl.(setRespHeaders := pl.setRespHeaders + [(name, val)], tags := pl.tags + ["rewrite"]);
      }
    case DelResHeader =>
      if name != "" {
        pl := pl.(delRespHeaders := pl.delRespHeaders + [name], tags := pl.tags + ["rewrite"]);
      }
    case Break =>
      match HalvesOf(env, a.arg) {
        case ResponseOnly => pl := pl.(breakResp := true);
        case Both => pl := pl.(breakReq := true, breakResp := true);
        case RequestOnly => pl := pl.(breakReq := true);
      }
      pl := pl.(tags := pl.tags + ["break"]);
    case Block =>
      pl := pl.(blockStatus := FORBIDDEN);
      if a.arg != "" && Number(a.arg).Some? { pl := pl.(blockStatus := Number(a.arg).value); }
    case Delay =>
      var d := env.parseDelay(TrimSpace(a.arg));
      if d.Some? { pl := pl.(delay := pl.delay + d.value, tags := pl.tags + ["delay"]); }
    case MapLocal =>
      if Maps(a.arg, path) { pl := pl.(mockFile := MappedFile(a.arg, path)); }
    case Other =>
  }

  // ---- what a list of actions amounts to ----------------------------------

  /** The parts of a plan that one action overwrites. */
  datatype Slot = MockFile | RedirectTo | LocationTo | StatusTo | BodyTo | BlockWith

  datatype Content = Str(s: string) | Num(n: int) | MaybeStr(o: Option<string>)

  function Read(pl: Plan, slot: Slot): Content {
    match slot
    case MockFile => Str(pl.mockFile)
    case RedirectTo => Str(pl.redirect)
    case LocationTo => Str(pl.location)
    case StatusTo => Num(pl.statusOverride)
    case BodyTo => MaybeStr(pl.respBody)
    case BlockWith => Num(pl.blockStatus)
  }

  /** What an action puts into a slot, if it writes there. */
  function Written(path: string, a: Rules.Action, slot: Slot): Option<Content> {
    var k := KindOf(a.kind);
    match slot
    case MockFile =>
      if k.File? then Some(Str(a.arg))
      else if k.MapLocal? && Maps(a.arg, path) then Some(Str(MappedFile(a.arg, path)))
      else None
    case RedirectTo => if k.Redirect? then Some(Str(a.arg)) else None
    case LocationTo => if k.Location? then Some(Str(a.arg)) else None
    case StatusTo => if k.Status? && Number(a.arg).Some? then Some(Num(Number(a.arg).value)) else None
    case BodyTo => if k.Body? then Some(MaybeStr(Some(a.arg))) else None
    case BlockWith => if k.Block? then Some(Num(BlockCode(a.arg))) else None
  }

  lemma StepWrites(env: Env, path: string, pl: Plan, a: Rules.Action, slot: Slot)
    ensures Read(Step(env, path, pl, a), slot)
         == match Written(path, a, slot) { case Some(c) => c case None => Read(pl, slot) }
  {
    hide KindOf, TrimSpace, Atoi, HalvesOf, MappedFile, Maps, SplitPair, BlockCode, Number;
  }

  lemma {:induction false} UnwrittenKept(env: Env, path: string, pre: seq<Rules.Action>, post: seq<Rules.Action>, slot: Slot)
    requires forall j :: 0 <= j < |post| ==> Written(path, post[j], slot).None?
    ensures Read(PlanOf(env, path, pre + post), slot) == Read(PlanOf(env, path, pre), slot)
  {
    hide Read, Written, Step, PlanOf;
    if post == [] {
      assert pre + post == pre;
    } else {
      var n := |post| - 1;
      UnwrittenKept(env, path, pre, post[..n], slot);
      assert pre + post == (pre + post[..n]) + [post[n]];
      PlanSnoc(env, path, pre + post[..n], post[n]);
      StepWrites(env, path, PlanOf(env, path, pre + post[..n]), post[n], slot);
    }
  }

  /** Across all matching rules, each slot holds what its last writer put there, whatever stands around it. */
  lemma LastActionWins(env: Env, path: string, pre: seq<Rules.Action>, a: Rules.Action, post: seq<Rules.Action>, slot: Slot)
    requires Written(path, a, slot).Some?
    requires forall j :: 0 <= j < |post| ==> Written(path, post[j], slot).None?
    ensures Read(PlanOf(env, path, pre + [a] + post), slot) == Written(path, a, slot).value
  {
    hide Read, Written, Step, PlanOf;
    UnwrittenKept(env, path, pre + [a], post, slot);
    PlanSnoc(env, path, pre, a);
    StepWrites(env, path, PlanOf(env, path, pre), a, slot);
  }

  predicate Stops(env: Env, a: Rules.Action, request: bool) {
    KindOf(a.kind).Break? && if request then !HalvesOf(env, a.arg).ResponseOnly? else !HalvesOf(env, a.arg).RequestOnly?
  }

  lemma StepStops(env: Env, path: string, pl: Plan, a: Rules.Action)
    ensures Step(env, path, pl, a).breakReq == (pl.breakReq || Stops(env, a, true))
    ensures Step(env, path, pl, a).breakResp == (pl.breakResp || Stops(env, a, false))
  {
    hide KindOf, TrimSpace, Atoi, HalvesOf, MappedFile, Maps, SplitPair, BlockCode, Number;
  }

  /** A half of the exchange stops at a breakpoint exactly when some break action names it; none takes that back. */
  lemma {:induction false} BreaksAccumulate(env: Env, path: string, actions: seq<Rules.Action>)
    ensures PlanOf(env, path, actions).breakReq <==> exists j :: 0 <= j < |actions| && Stops(env, actions[j], true)
    ensures PlanOf(env, path, actions).breakResp <==> exists j :: 0 <= j < |actions| && Stops(env, actions[j], false)
  {
    hide Stops, Step;
    if actions == [] {
    } else {
      var n := |actions| - 1;
      BreaksAccumulate(env, path, actions[..n]);
      StepStops(env, path, PlanOf(env, path, actions[..n]), actions[n]);
      assert forall j :: 0 <= j < n ==> actions[..n][j] == actions[j];
    }
  }
}
