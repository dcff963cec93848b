/** Whole exchanges told from the request, the actions of the rules and the operator alone (internal/proxy/proxy.go). */
module ExchangeRules {
  import opened Exchange
  import opened PlanLaws
  import opened Unicode
  import opened Wrappers
  import Plans
  import Rules
  import RawMessage
  import Editing

  // ---- what goes upstream -------------------------------------------------

  /**
   The URL asked for: the last redirect's, with only a missing scheme or host taken from the request; without one, or
   where it cannot be read, the request's own. Inside a tunnel the request's scheme and host are the tunnel's.
   */
  function AskedURL(env: Env, a: Arrival, actions: Actions): URL {
    var u := a.request.url;
    var scheme := if u.scheme != "" then u.scheme else a.scheme;
    var host := if u.host != "" then u.host else if a.authority != "" then a.authority else a.host;
    match LastArg(actions, "redirect")
    case None => URL(scheme, host, u.rest)
    case Some(arg) =>
      if arg == "" || env.parseURL(arg).None? then URL(scheme, host, u.rest)
      else
        var t := env.parseURL(arg).value;
        URL(if t.scheme != "" then t.scheme else scheme, if t.host != "" then t.host else host, t.rest)
  }

  /** Header k as it goes upstream: Accept-Encoding as the proxy asks for it, hop-by-hop headers not at all. */
  function AskedHeader(env: Env, a: Arrival, actions: Actions, k: string): Option<string> {
    var h := a.request.header;
    var accept := env.accept(OrEmpty(HeaderFor(h, actions, "Accept-Encoding")));
    if k == "Accept-Encoding" && accept != "" then Some(accept)
    else if k in HOP then None
    else HeaderFor(h, actions, k)
  }

  /** Of the header fields that section 7.6.1 of RFC 9110 ties to one connection none is passed on. */
  lemma HopHeadersStay(env: Env, a: Arrival, actions: Actions, k: string)
    requires k in {"Connection", "Proxy-Connection", "Keep-Alive", "Te", "Transfer-Encoding", "Upgrade"}
             || k in {"Proxy-Authenticate", "Proxy-Authorization", "Trailer"} || k in {"Expect", "Content-Length"}
    ensures AskedHeader(env, a, actions, k).None?
  {
    hide HeaderFor;
  }

  function Cut(body: Bytes, max: nat): Bytes { if |body| <= max then body else body[..max] }

  ghost predicate AsksFor(env: Env, a: Arrival, actions: Actions, out: Request) {
    && out.method_ == a.request.method_ && out.url == AskedURL(env, a, actions)
    && out.body == Cut(a.request.body, env.max)
    && forall k :: (if k in out.header then Some(out.header[k]) else None) == AskedHeader(env, a, actions, k)
  }

  /** No rule answers by itself. */
  predicate Passes(env: Env, a: Arrival, actions: Actions) {
    LastBlock(actions) == 0 && OrEmpty(LastArg(actions, "location")) == "" && LastFile(actions, PathOf(env, a)) == ""
  }

  predicate NoBreaks(actions: Actions) {
    forall i :: 0 <= i < |actions| ==> actions[i].kind != "break"
  }

  lemma NothingHeld(env: Env, path: string, actions: Actions)
    requires NoBreaks(actions)
    ensures var pl := Plans.PlanOf(env.plans, path, actions); !pl.breakReq && !pl.breakResp
  {
    BreaksAre(env.plans, path, actions);
  }

  lemma OutHeaderAt(env: Env, a: Arrival, actions: Actions, k: string)
    ensures var out := OutHeader(env, Plans.HeadersOf(a.request.header, actions));
            (if k in out then Some(out[k]) else None) == AskedHeader(env, a, actions, k)
  {
    hide Plans.HeadersOf, HeaderFor;
    HeadersAre(a.request.header, actions, k);
    HeadersAre(a.request.header, actions, ACCEPT);
  }

  lemma URLIsAsked(env: Env, a: Arrival, path: string, actions: Actions)
    ensures Target(env, Plans.PlanOf(env.plans, path, actions), Completed(a)) == AskedURL(env, a, actions)
  {
    hide Plans.PlanOf, LastArg;
    FieldsAre(env.plans, path, actions);
  }

  lemma CompletedIs(env: Env, a: Arrival)
    ensures Completed(a) == AskedURL(env, a, [])
  {
  }

  lemma RequestKept(env: Env, a: Arrival, rules: seq<Rules.Rule>)
    ensures var r := Ruled(env, a, rules).request;
            r.method_ == a.request.method_ && r.body == Cut(a.request.body, env.max)
  {
    hide Plans.HeadersOf, Plans.AllActions;
  }

  /** The request that goes upstream when nothing holds it. */
  lemma OutgoingIs(env: Env, a: Arrival, rules: seq<Rules.Rule>)
    requires !env.holdRequests && NoBreaks(Plans.AllActions(rules))
    ensures var actions := Plans.AllActions(rules);
            var pl := Plans.PlanOf(env.plans, PathOf(env, a), actions);
            AsksFor(env, a, actions, Outgoing(env, pl, AfterBreak(env, pl, Ruled(env, a, rules))))
  {
    hide Plans.PlanOf, Plans.HeadersOf, Plans.AllActions, OutHeader, Target, AskedURL, AskedHeader, Released, Completed, PathOf,
         NoBreaks;
    var actions := Plans.AllActions(rules);
    NothingHeld(env, PathOf(env, a), actions);
    SameCompleted(env, a, rules);
    URLIsAsked(env, a, PathOf(env, a), actions);
    var out := OutHeader(env, Plans.HeadersOf(a.request.header, actions));
    forall k
      ensures (if k in out then Some(out[k]) else None) == AskedHeader(env, a, actions, k)
    {
      OutHeaderAt(env, a, actions, k);
    }
  }

  lemma SameCompleted(env: Env, a: Arrival, rules: seq<Rules.Rule>)
    ensures Completed(Ruled(env, a, rules)) == Completed(a)
  {
    hide Plans.HeadersOf, Plans.AllActions, Capped;
  }

  // ---- what comes back ----------------------------------------------------

  /** The status the client is sent: the last status rule's, or the server's. */
  function SentStatus(actions: Actions, reply: Reply): int {
    if LastStatus(actions) != 0 then LastStatus(actions) else reply.code
  }

  /** The body: the last body rule's; the server's, which is cut where a status rule has it buffered. */
  function SentBody(env: Env, actions: Actions, reply: Reply): Bytes {
    match LastArg(actions, "body")
    case Some(text) => Encoded(text)
    case None => if LastStatus(actions) != 0 then Cut(reply.body, env.max) else reply.body
  }

  lemma FateIs(env: Env, a: Arrival, rules: seq<Rules.Rule>)
    requires !env.holdRequests && !env.holdResponses && !env.stillHoldResponses
    requires Passes(env, a, Plans.AllActions(rules)) && NoBreaks(Plans.AllActions(rules))
    ensures var actions := Plans.AllActions(rules);
            var pl := Plans.PlanOf(env.plans, PathOf(env, a), actions);
            var out := Outgoing(env, pl, AfterBreak(env, pl, Ruled(env, a, rules)));
            var fate := FateOf(env, pl, Ruled(env, a, rules));
            && (Asks(env, pl, Ruled(env, a, rules)) <==> env.refuse(out.method_, out.url).None?)
            && fate == SendFate(env, pl, out)
            && pl.statusOverride == LastStatus(actions) && pl.respBody == LastArg(actions, "body")
            && !HoldsResponse(env, pl) && (Buffers(env, pl) <==> pl.respBody.Some? || pl.statusOverride != 0)
  {
    hide Plans.PlanOf, Plans.HeadersOf, Plans.AllActions, OutHeader, Target, Released, Completed, PathOf, NoBreaks, LastArg,
         SendFate, LastStatus, LastBlock, LastFile, Outgoing, AfterBreak, Ruled;
    NothingHeld(env, PathOf(env, a), Plans.AllActions(rules));
    FieldsAre(env.plans, PathOf(env, a), Plans.AllActions(rules));
  }

  /**
   An exchange that no rule answers and nothing holds, whatever its rules: what is asked upstream, and what
   the client is sent of the answer.
   */
  method PassedExchange(env: Env, a: Arrival, readError: Option<string>, rules: seq<Rules.Rule>) returns (e: Exchange)
    requires !env.holdRequests && !env.holdResponses && !env.stillHoldResponses
    requires Passes(env, a, Plans.AllActions(rules)) && NoBreaks(Plans.AllActions(rules))
    requires env.refuse(a.request.method_, AskedURL(env, a, Plans.AllActions(rules))).None?
    ensures |e.asked| == 1 && AsksFor(env, a, Plans.AllActions(rules), e.asked[0])
    ensures e.rec.method_ == a.request.method_ && e.rec.url == AskedURL(env, a, [])
    ensures e.rec.reqBody == Cut(a.request.body, env.max) && e.rec.reqTrunc == (env.max < |a.request.body|)
    ensures match env.roundTrip(e.asked[0])
            case Err(msg) => e.lines == [502] && e.rec.state.Error? && e.rec.err == msg
            case Ok(reply) =>
              var actions := Plans.AllActions(rules);
              var status := SentStatus(actions, reply);
              && (status < 100 || 999 < status ==> e.lines == [] && e.rec.state.Pending?)
              && (200 <= status <= 999 ==>
                    e.lines == [status] && e.rec.status == status
                    && e.written == if status == 204 || status == 304 then [] else SentBody(env, actions, reply))
              && (status != reply.code ==> "restatus" in e.rec.tags)
              && (LastArg(actions, "body").Some? ==> "rebody" in e.rec.tags)
    ensures var arg := OrEmpty(LastArg(Plans.AllActions(rules), "redirect"));
            && (arg != "" ==> e.rec.redirected == Some(e.asked[0].url))
            && (arg != "" && env.parseURL(arg).Some? ==> "redirect" in e.rec.tags)
            && AllIn(AllTags(env.plans, Plans.AllActions(rules)), e.rec.tags)
  {
    hide Plans.PlanOf, Plans.AllActions, OutHeader, Target, AskedURL, AskedHeader, Released, Completed, PathOf, NoBreaks,
         LastArg, LastStatus, LastBlock, LastFile, Passes, Outgoing, AfterBreak, Ruled, Encoded, Buffers, AllTags, AllIn;
    OutgoingIs(env, a, rules);
    FateIs(env, a, rules);
    CompletedIs(env, a);
    RequestKept(env, a, rules);
    NothingHeld(env, PathOf(env, a), Plans.AllActions(rules));
    FieldsAre(env.plans, PathOf(env, a), Plans.AllActions(rules));
    TagsAre(env.plans, PathOf(env, a), Plans.AllActions(rules));
    e := new Exchange(env);
    e.Handle(a, readError, rules);
  }

  // ---- rules that answer by themselves ------------------------------------

  lemma ShortcutIs(env: Env, a: Arrival, rules: seq<Rules.Rule>)
    requires !Passes(env, a, Plans.AllActions(rules))
    ensures var actions := Plans.AllActions(rules);
            var path := PathOf(env, a);
            var pl := Plans.PlanOf(env.plans, path, actions);
            var fate := FateOf(env, pl, Ruled(env, a, rules));
            && !Asks(env, pl, Ruled(env, a, rules)) && pl.statusOverride == LastStatus(actions)
            && pl.blockStatus == LastBlock(actions)
            && if LastBlock(actions) != 0 then fate.Refused?
               else if OrEmpty(LastArg(actions, "location")) != "" then fate.Relocated?
               else match env.readFile(LastFile(actions, path)) { case Ok(data) => fate == Mocked(data) case Err(m) => fate == Unmocked(m) }
  {
    hide Plans.PlanOf, Plans.AllActions, Released, Completed, PathOf, LastArg, SendFate, LastStatus, LastBlock, LastFile,
         Outgoing, AfterBreak, Ruled;
    FieldsAre(env.plans, PathOf(env, a), Plans.AllActions(rules));
  }

  /**
   An exchange that a rule answers, breakpoints or not: nothing goes upstream. A block comes before a location, and
   that before a file; the client is sent the block's status, a 302, or the file under the status rule or 200.
   */
  method AnsweredExchange(env: Env, a: Arrival, readError: Option<string>, rules: seq<Rules.Rule>) returns (e: Exchange)
    requires !Passes(env, a, Plans.AllActions(rules))
    ensures e.asked == []
    ensures var actions := Plans.AllActions(rules);
            if LastBlock(actions) != 0 then
              e.rec.state.Blocked? && (200 <= LastBlock(actions) <= 999 ==> e.lines == [LastBlock(actions)])
            else if OrEmpty(LastArg(actions, "location")) != "" then e.rec.state.Complete? && e.lines == [302]
            else
              match env.readFile(LastFile(actions, PathOf(env, a)))
              case Err(m) => e.rec.state.Error? && e.rec.err == m && e.lines == [502]
              case Ok(data) =>
                var status := if LastStatus(actions) != 0 then LastStatus(actions) else 200;
                200 <= status <= 999 ==> e.rec.state.Complete? && e.lines == [status] && e.written == data
  {
    hide Plans.PlanOf, Plans.AllActions, Released, Completed, PathOf, LastArg, LastStatus, LastBlock, LastFile, Passes,
         Outgoing, AfterBreak, Ruled, FateOf, Asks;
    ShortcutIs(env, a, rules);
    e := new Exchange(env);
    e.Handle(a, readError, rules);
  }

  // ---- requests held ------------------------------------------------------

  predicate RequestHeld(env: Env, actions: Actions) {
    env.holdRequests || exists j :: 0 <= j < |actions| && BreaksRequest(env.plans, actions[j])
  }

  predicate ResponseHeld(env: Env, actions: Actions) {
    env.stillHoldResponses || exists j :: 0 <= j < |actions| && BreaksResponse(env.plans, actions[j])
  }

  lemma HeldIs(env: Env, path: string, actions: Actions)
    ensures var pl := Plans.PlanOf(env.plans, path, actions);
            HoldsRequest(env, pl) == RequestHeld(env, actions) && HoldsResponse(env, pl) == ResponseHeld(env, actions)
  {
    hide Plans.PlanOf, BreaksRequest, BreaksResponse;
    BreaksAre(env.plans, path, actions);
  }

  /** A held request that is dropped: nothing goes upstream, and the client is sent a 502. */
  method DroppedExchange(env: Env, a: Arrival, readError: Option<string>, rules: seq<Rules.Rule>) returns (e: Exchange)
    requires Passes(env, a, Plans.AllActions(rules)) && RequestHeld(env, Plans.AllActions(rules)) && env.requestVerdict.drop
    ensures e.asked == [] && e.lines == [502] && e.rec.state.Error?
  {
    hide Plans.PlanOf, Plans.AllActions, Released, Completed, PathOf, LastArg, LastStatus, LastBlock, LastFile,
         Outgoing, AfterBreak, Ruled, RequestHeld;
    FieldsAre(env.plans, PathOf(env, a), Plans.AllActions(rules));
    HeldIs(env, PathOf(env, a), Plans.AllActions(rules));
    e := new Exchange(env);
    e.Handle(a, readError, rules);
  }

  /** The request that an edited message says: where it leaves them open, `http` and the Host header. */
  function EditedURL(h: Head): URL {
    URL(if h.url.scheme != "" then h.url.scheme else "http", if h.url.host != "" then h.url.host else h.host, h.url.rest)
  }

  lemma EditedIs(env: Env, ls: seq<Bytes>, body: Bytes, h: Head)
    requires ls != [] && RawMessage.CleanLines(ls) && env.readRequest(RawMessage.Head(ls)) == Some(h)
    ensures Edited(env, RawMessage.Head(ls) + ([Editing.NL] + body))
         == Some(Request(h.method_, EditedURL(h), h.header - {"Content-Length", "Transfer-Encoding"}, Editing.ReplaceCRLF(body)))
  {
    hide RawMessage.Head, RawMessage.SplitRaw, RawMessage.CleanLines, Editing.ReplaceCRLF;
    RawMessage.SplitOfJoined(ls, body);
  }

  /** A held request that is edited: what goes upstream is what the operator typed. */
  method EditedExchange(env: Env, a: Arrival, readError: Option<string>, rules: seq<Rules.Rule>, ghost ls: seq<Bytes>,
                        ghost body: Bytes, ghost h: Head) returns (e: Exchange)
    requires Passes(env, a, Plans.AllActions(rules)) && RequestHeld(env, Plans.AllActions(rules))
    requires OrEmpty(LastArg(Plans.AllActions(rules), "redirect")) == ""
    requires !env.requestVerdict.drop && !BlankRaw(env.requestVerdict.raw)
    requires ls != [] && RawMessage.CleanLines(ls) && env.readRequest(RawMessage.Head(ls)) == Some(h)
    requires env.requestVerdict.raw == RawMessage.Head(ls) + ([Editing.NL] + body)
    requires env.refuse(h.method_, EditedURL(h)).None?
    ensures |e.asked| == 1
    ensures var out := e.asked[0];
            && out.method_ == h.method_ && out.url == EditedURL(h) && out.body == Editing.ReplaceCRLF(body)
            && forall k :: k !in HOP && k != "Accept-Encoding" ==>
                 (k in out.header <==> k in h.header) && (k in h.header ==> out.header[k] == h.header[k])
    ensures e.rec.method_ == h.method_ && e.rec.url == EditedURL(h) && e.rec.reqBody == Editing.ReplaceCRLF(body)
  {
    hide Plans.PlanOf, Plans.AllActions, Completed, PathOf, LastArg, LastStatus, LastBlock, LastFile, Ruled, RequestHeld,
         RawMessage.Head, RawMessage.CleanLines, Editing.ReplaceCRLF, Edited, BlankRaw, Settled, FateOf;
    var actions := Plans.AllActions(rules);
    FieldsAre(env.plans, PathOf(env, a), actions);
    HeldIs(env, PathOf(env, a), actions);
    EditedIs(env, ls, body, h);
    e := new Exchange(env);
    e.Handle(a, readError, rules);
  }

  // ---- responses held -----------------------------------------------------

  /** A held response: dropped, the client is sent nothing; edited, the status and body that were typed. */
  method HeldResponse(env: Env, a: Arrival, readError: Option<string>, rules: seq<Rules.Rule>, ghost ls: seq<Bytes>,
                      ghost body: Bytes, ghost code: int) returns (e: Exchange)
    requires Passes(env, a, Plans.AllActions(rules)) && NoBreaks(Plans.AllActions(rules))
    requires !env.holdRequests && env.holdResponses && env.stillHoldResponses
    requires env.refuse(a.request.method_, AskedURL(env, a, Plans.AllActions(rules))).None?
    requires forall r :: env.roundTrip(r).Ok?
    requires ls != [] && RawMessage.CleanLines(ls) && env.readResponse(RawMessage.Head(ls)) == Some(code)
    requires env.responseVerdict.raw == RawMessage.Head(ls) + ([Editing.NL] + body) && !BlankRaw(env.responseVerdict.raw)
    ensures env.responseVerdict.drop ==> e.lines == [] && e.written == [] && e.rec.state.Error?
    ensures !env.responseVerdict.drop && 200 <= code <= 999 ==>
              e.lines == [code] && e.rec.status == code
              && e.written == if code == 204 || code == 304 then [] else Editing.ReplaceCRLF(body)
  {
    hide Plans.PlanOf, Plans.AllActions, Completed, PathOf, LastArg, LastStatus, LastBlock, LastFile, Ruled, AskedURL,
         RawMessage.Head, RawMessage.CleanLines, Editing.ReplaceCRLF, RawMessage.SplitRaw, BlankRaw, Outgoing, AfterBreak,
         NoBreaks, Overridden, Replaced;
    var actions := Plans.AllActions(rules);
    FieldsAre(env.plans, PathOf(env, a), actions);
    NothingHeld(env, PathOf(env, a), actions);
    OutgoingIs(env, a, rules);
    RawMessage.SplitOfJoined(ls, body);
    e := new Exchange(env);
    e.Handle(a, readError, rules);
  }
}
