/** What the fates of exchanges come to (internal/proxy/proxy.go). */
module ExchangeLaws {
  import opened Exchange
  import opened Wrappers
  import opened Unicode
  import Breaker
  import Plans
  import Rules
  import Editing
  import RawMessage

  /** Whatever the rules, the body sent upstream of a request that is not held is the client's, cut to the capture limit. */
  lemma RequestBodyIsCut(env: Env, pl: Plans.Plan, rules: seq<Rules.Rule>, a: Arrival)
    requires !HoldsRequest(env, pl)
    ensures var out, body := Outgoing(env, pl, AfterBreak(env, pl, Ruled(env, a, rules))), a.request.body;
            out.body == Capped(body, env.max) && (out.body == body <==> |body| <= env.max)
  {
    hide Capped, Released, OutHeader, Target, Completed, Plans.HeadersOf, Plans.AllActions;
    CappedExact(a.request.body, env.max);
  }

  lemma CappedExact(body: Bytes, max: nat)
    ensures Capped(body, max) == body <==> |body| <= max
  {
    if max < |body| {
      assert |Capped(body, max)| == max;
    }
  }

  /** The client's request on its way upstream, untouched but for the headers of the hop and the capture limit. */
  function Passed(env: Env, a: Arrival): Request {
    var r := a.request;
    Request(r.method_, Completed(a), OutHeader(env, r.header), Capped(r.body, env.max))
  }

  /**
   With no rule and no breakpoint the client's own request goes upstream but for a body over the limit, which
   is cut, and the server's own answer comes back, or a failure.
   */
  lemma PlainPasses(env: Env, path: string, a0: Arrival)
    requires !env.holdRequests && !env.holdResponses
    ensures var pl := Plans.PlanOf(env.plans, path, Plans.AllActions([]));
            var a := Ruled(env, a0, []);
            var out := Outgoing(env, pl, AfterBreak(env, pl, a));
            && out == Passed(env, a0)
            && (out.body == a0.request.body <==> |a0.request.body| <= env.max)
            && (Asks(env, pl, a) <==> env.refuse(a0.request.method_, Completed(a0)).None?)
            && (FateOf(env, pl, a).Streamed? <==> Asks(env, pl, a) && env.roundTrip(out).Ok?)
            && (FateOf(env, pl, a).Streamed? ==> FateOf(env, pl, a).reply == env.roundTrip(out).value)
            && (FateOf(env, pl, a).Streamed? || FateOf(env, pl, a).Failed?)
  {
    hide OutHeader, ReleasedReply, Released, Capped;
    CappedExact(a0.request.body, env.max);
    Plans.Nothing(env.plans, path, a0.request.header);
  }

  /** The same of the code: what a new exchange without rules and breakpoints has asked and sent at its end. */
  method PlainExchange(env: Env, a: Arrival, readError: Option<string>) returns (e: Exchange)
    requires !env.holdRequests && !env.holdResponses && env.refuse(a.request.method_, Completed(a)).None?
    ensures e.asked == [Passed(env, a)]
    ensures match env.roundTrip(e.asked[0])
            case Ok(reply) =>
              Final(reply.code) ==> e.lines == [reply.code] && e.written == (if Bodiless(reply.code) then [] else reply.body)
            case Err(msg) => e.lines == [BAD_GATEWAY] && e.rec.state.Error? && e.rec.err == msg
  {
    hide OutHeader, Capped, Completed;
    Plans.Nothing(env.plans, PathOf(env, a), a.request.header);
    PlainPasses(env, PathOf(env, a), a);
    e := new Exchange(env);
    e.Handle(a, readError, []);
  }

  /** Of all block actions the last decides; one whose code is 0 lets the exchange through. */
  lemma LastBlockDecides(env: Env, path: string, pre: seq<Rules.Action>, a: Rules.Action, post: seq<Rules.Action>, a0: Arrival)
    requires Plans.KindOf(a.kind).Block?
    requires forall j :: 0 <= j < |post| ==> !Plans.KindOf(post[j].kind).Block?
    ensures FateOf(env, Plans.PlanOf(env.plans, path, pre + [a] + post), a0).Refused? <==> Plans.BlockCode(a.arg) != 0
  {
    hide Plans.KindOf, Plans.PlanOf, Plans.BlockCode, SendFate;
    Plans.LastActionWins(env.plans, path, pre, a, post, Plans.BlockWith);
    SendIsNoRefusal(env, Plans.PlanOf(env.plans, path, pre + [a] + post), a0);
  }

  lemma SendIsNoRefusal(env: Env, pl: Plans.Plan, a: Arrival)
    ensures var f := SendFate(env, pl, Outgoing(env, pl, AfterBreak(env, pl, a)));
            !f.Refused? && !f.Relocated? && !f.Mocked? && !f.Unmocked? && !f.DroppedRequest?
  {
    hide Outgoing, AfterBreak, ReleasedReply, Buffers, HoldsResponse;
  }

  /** The answer is sent whole exactly when it is streamed, or fits the capture limit. */
  lemma BufferedAnswerIsCut(env: Env, pl: Plans.Plan, reply: Reply)
    requires pl.respBody.None? && !HoldsResponse(env, pl) && !Bodiless(Overridden(pl, reply.code)) && !Bodiless(reply.code)
    ensures Sent(ReplyFate(env, pl, reply)) == reply.body <==> !Buffers(env, pl) || |reply.body| <= env.max
  {
    hide ReleasedReply;
  }

  // ---- requests let through at a breakpoint -------------------------------

  /** A redirect that names its own scheme, so that the request's does not matter. */
  predicate RedirectHasScheme(env: Env, pl: Plans.Plan) {
    pl.redirect != "" && env.parseURL(pl.redirect).Some? && env.parseURL(pl.redirect).value.scheme != ""
  }

  predicate RedirectHasHost(env: Env, pl: Plans.Plan) {
    pl.redirect != "" && env.parseURL(pl.redirect).Some? && env.parseURL(pl.redirect).value.host != ""
  }

  /** What goes upstream when nothing holds the request. */
  function Unheld(env: Env, pl: Plans.Plan, a: Arrival): Request {
    Outgoing(env, pl, a.request.(url := Completed(a)))
  }

  /** The message that comes back is blank, as when every breakpoint is released at once, or no request. */
  predicate PassedOn(env: Env, v: Verdict) {
    !v.drop && (BlankRaw(v.raw) || Edited(env, v.raw).None?)
  }

  /**
   A held request that is let through as it is goes upstream as without the breakpoint if and only if it came
   with a scheme and a host, or a redirect names them, or the listener had none to fill in either.
   */
  lemma PassedOnExact(env: Env, pl: Plans.Plan, a: Arrival)
    requires HoldsRequest(env, pl) && PassedOn(env, env.requestVerdict)
    ensures Outgoing(env, pl, AfterBreak(env, pl, a)) == Unheld(env, pl, a)
        <==> (a.request.url.scheme != "" || a.scheme == "" || RedirectHasScheme(env, pl))
             && (a.request.url.host != "" || (a.authority == "" && a.host == "") || RedirectHasHost(env, pl))
  {
    hide OutHeader, BlankRaw, Edited;
  }

  /** The transport sends no request whose URL has no scheme. */
  ghost predicate NeedsScheme(env: Env) {
    forall r: Request :: r.url.scheme == "" ==> env.roundTrip(r).Err?
  }

  /** So no held request from inside a tunnel is let through as it is, but where a redirect names a scheme. */
  lemma PassedOnFails(env: Env, pl: Plans.Plan, a: Arrival)
    requires pl.blockStatus == 0 && pl.location == "" && pl.mockFile == ""
    requires HoldsRequest(env, pl) && PassedOn(env, env.requestVerdict)
    requires a.request.url.scheme == "" && !RedirectHasScheme(env, pl) && NeedsScheme(env)
    ensures FateOf(env, pl, a).Failed?
  {
    hide OutHeader, BlankRaw, Edited, ReplyFate;
  }

  lemma BlankIsPassedOn(env: Env)
    ensures PassedOn(env, Breaker.PASS)
  {
  }

  /**
   The same of the code: a request inside a tunnel, held with no rule set, and every breakpoint released.
   The client is sent a 502, where without the breakpoint it had the server's answer.
   */
  method ReleasedTunnel(env: Env, a: Arrival, readError: Option<string>) returns (e: Exchange)
    requires a.request.url.scheme == "" && NeedsScheme(env)
    requires env.holdRequests && env.requestVerdict == Breaker.PASS
    ensures e.lines == [BAD_GATEWAY] && e.rec.state.Error?
    ensures forall r :: r in e.asked ==> r.url == a.request.url
  {
    hide OutHeader, Capped, Completed, BlankRaw, Edited, NeedsScheme, ReplyFate;
    Plans.Nothing(env.plans, PathOf(env, a), a.request.header);
    BlankIsPassedOn(env);
    ghost var pl := Plans.PlanOf(env.plans, PathOf(env, a), Plans.AllActions([]));
    PassedOnFails(env, pl, Ruled(env, a, []));
    e := new Exchange(env);
    e.Handle(a, readError, []);
  }

  /**
   A request released as it was shown goes upstream as without the breakpoint if and only if its body is UTF-8
   without a CR LF pair and it was plain HTTP or redirected to a named scheme: the shown request line has no
   scheme, and `http` is assumed.
   */
  lemma RequestReleasedAsShown(env: Env, pl: Plans.Plan, a: Arrival, ls: seq<Bytes>)
    requires HoldsRequest(env, pl) && ls != [] && RawMessage.CleanLines(ls)
    requires env.requestVerdict.raw == RawMessage.Unedited(RawMessage.Head(ls) + ([Editing.NL] + a.request.body))
    requires !BlankRaw(env.requestVerdict.raw)
    requires env.readRequest(RawMessage.Head(RawMessage.SaneLines(ls)))
          == Some(Head(a.request.method_, URL("", "", a.request.url.rest), Completed(a).host, a.request.header))
    ensures Outgoing(env, pl, AfterBreak(env, pl, a)) == Unheld(env, pl, a)
        <==> (Completed(a).scheme == "http" || RedirectHasScheme(env, pl))
             && IsText(a.request.body) && !Editing.HasCRLF(a.request.body)
  {
    hide BlankRaw, RawMessage.SplitRaw, RawMessage.Unedited, RawMessage.Head, Sane, Editing.ReplaceCRLF, Editing.HasCRLF,
         IsText, RawMessage.CleanLines;
    RawMessage.SplitOfUnedited(ls, a.request.body);
    RawMessage.BodyExact(a.request.body);
    SameOutHeader(env, a.request.header);
  }

  lemma SameOutHeader(env: Env, h: Plans.Headers)
    ensures OutHeader(env, h - FRAMING) == OutHeader(env, h)
  {
    assert (h - FRAMING) - HOP == h - HOP;
  }

  /**
   A response released as it was shown, which is with the server's own status, is answered as without the
   breakpoint if and only if no rule changed that status and the body is UTF-8 without a CR LF pair.
   */
  lemma ResponseReleasedAsShown(env: Env, pl: Plans.Plan, reply: Reply, ls: seq<Bytes>)
    requires Buffers(env, pl) && HoldsResponse(env, pl) && !env.responseVerdict.drop
    requires ls != [] && RawMessage.CleanLines(ls)
    requires env.responseVerdict.raw
          == RawMessage.Unedited(RawMessage.Head(ls) + ([Editing.NL] + Replaced(env, pl, reply.body)))
    requires !BlankRaw(env.responseVerdict.raw)
    requires env.readResponse(RawMessage.Head(RawMessage.SaneLines(ls))) == Some(reply.code)
    ensures var body := Replaced(env, pl, reply.body);
            ReplyFate(env, pl, reply) == Answered(Overridden(pl, reply.code), body)
            <==> (pl.statusOverride == 0 || pl.statusOverride == reply.code) && IsText(body) && !Editing.HasCRLF(body)
  {
    hide BlankRaw, RawMessage.SplitRaw, RawMessage.Unedited, RawMessage.Head, Sane, Editing.ReplaceCRLF, Editing.HasCRLF,
         IsText, RawMessage.CleanLines, Replaced;
    RawMessage.SplitOfUnedited(ls, Replaced(env, pl, reply.body));
    RawMessage.BodyExact(Replaced(env, pl, reply.body));
  }
}
