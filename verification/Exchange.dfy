/**
 One proxied exchange from request to last recorded state (internal/proxy/proxy.go, handle and
 the functions it calls): what the client is sent, what goes upstream, and what the store shows.
 */
module Exchange {
  import opened Wrappers
  import opened Unicode
  import Breaker
  import Plans
  import Rules
  import RawMessage
  import Text

  datatype State = Pending | Complete | Error | Intercepted | Blocked

  datatype Phase = Running | AtRequest | AtResponse

  datatype URL = URL(scheme: string, host: string, rest: string)

  datatype Request = Request(method_: string, url: URL, header: Plans.Headers, body: Bytes)

  /**
   A request as it arrives: its URL is in the form received, which for a request inside a tunnel has neither
   scheme nor host. The listener knows the scheme and, for a tunnel, its authority; `host` is the Host header.
   */
  datatype Arrival = Arrival(request: Request, scheme: string, authority: string, host: string)

  /** How copying an upstream body ended: to its end, cut short, or with an error. */
  datatype End = Clean | Short | Broken(msg: string)

  datatype Reply = Reply(code: int, body: Bytes, end: End)

  type Verdict = Breaker.Verdict

  /** A request head as net/http reads it; `host` is the Host header's value. */
  datatype Head = Head(method_: string, url: URL, host: string, header: Plans.Headers)

  /** The flow as the store holds it. */
  datatype Record = Record(
    state: State, status: int, err: string, tags: seq<string>, intercepted: Phase, redirected: Option<URL>,
    method_: string, url: URL, reqBody: Bytes, reqTrunc: bool, respBody: Bytes, respTrunc: bool, bytesOut: nat)

  /** What the outside does: the operator, the upstream server, files and library calls. */
  datatype Env = Env(
    max: nat, plans: Plans.Env,
    holdRequests: bool, holdResponses: bool, stillHoldResponses: bool,
    requestVerdict: Verdict, responseVerdict: Verdict,
    readRequest: Bytes -> Option<Head>, readResponse: Bytes -> Option<int>,
    parseURL: string -> Option<URL>, show: URL -> string, uri: URL -> string,
    readFile: string -> Result<Bytes, string>, refuse: (string, URL) -> Option<string>,
    accept: string -> string, roundTrip: Request -> Result<Reply, string>)

  const HOP := {
    "Connection", "Proxy-Connection", "Keep-Alive", "Proxy-Authenticate", "Proxy-Authorization", "Te",
    "Trailer", "Transfer-Encoding", "Upgrade", "Expect", "Content-Length" }

  const FRAMING := {"Content-Length", "Transfer-Encoding"}

  const ACCEPT := "Accept-Encoding"

  const FOUND := 302
  const BAD_GATEWAY := 502

  predicate Bodiless(code: int) { code == 204 || code == 304 }

  /** readCapped */
  function Capped(body: Bytes, max: nat): Bytes {
    if max < |body| then body[..max] else body
  }

  // ---- what goes upstream -------------------------------------------------

  /** The URL of an exchange: what the request leaves open the listener fills in. */
  function Completed(a: Arrival): URL {
    var u := a.request.url;
    var host := if a.authority == "" then a.host else a.authority;
    URL(if u.scheme == "" then a.scheme else u.scheme, if u.host == "" then host else u.host, u.rest)
  }

  function PathOf(env: Env, a: Arrival): string {
    var path := env.uri(Completed(a));
    if path == "" then "/" else path
  }

  /** parseRawRequest: the head read by the library, the body taken as typed. */
  function Edited(env: Env, raw: Bytes): Option<Request> {
    var (head, body) := RawMessage.SplitRaw(raw);
    match env.readRequest(head)
    case None => None
    case Some(h) =>
      var scheme := if h.url.scheme == "" then "http" else h.url.scheme;
      var host := if h.url.host == "" then h.host else h.url.host;
      Some(Request(h.method_, URL(scheme, host, h.url.rest), h.header - FRAMING, if body.Some? then body.value else []))
  }

  /** parseRawResponse */
  function EditedReply(env: Env, raw: Bytes): Option<(int, Bytes)> {
    var (head, body) := RawMessage.SplitRaw(raw);
    match env.readResponse(head)
    case None => None
    case Some(code) => Some((code, if body.Some? then body.value else []))
  }

  /** strings.TrimSpace(raw) == "" */
  predicate BlankRaw(raw: Bytes) { Text.TrimSpace(Runes(raw)) == "" }

  /** The request after the breakpoint: as edited, or as it arrived where the message is blank or unreadable. */
  function Released(env: Env, v: Verdict, r: Request): Request {
    if BlankRaw(v.raw) then r
    else match Edited(env, v.raw) { case Some(e) => e case None => r }
  }

  /** The operator's message is a request, which replaces the one that was held. */
  predicate Edits(env: Env) {
    !env.requestVerdict.drop && !BlankRaw(env.requestVerdict.raw) && Edited(env, env.requestVerdict.raw).Some?
  }

  predicate HoldsRequest(env: Env, pl: Plans.Plan) { pl.breakReq || env.holdRequests }

  /** What is forwarded. After a breakpoint the URL is taken from the request again, and not completed. */
  function AfterBreak(env: Env, pl: Plans.Plan, a: Arrival): Request {
    if HoldsRequest(env, pl) then Released(env, env.requestVerdict, a.request)
    else a.request.(url := Completed(a))
  }

  function Target(env: Env, pl: Plans.Plan, u: URL): URL {
    if pl.redirect == "" then u
    else
      match env.parseURL(pl.redirect)
      case None => u
      case Some(t) =>
        URL(if t.scheme == "" then u.scheme else t.scheme, if t.host == "" then u.host else t.host, t.rest)
  }

  function OutHeader(env: Env, h: Plans.Headers): Plans.Headers {
    var enc := env.accept(if ACCEPT in h then h[ACCEPT] else "");
    if enc == "" then h - HOP else (h - HOP)[ACCEPT := enc]
  }

  function Outgoing(env: Env, pl: Plans.Plan, r: Request): Request {
    Request(r.method_, Target(env, pl, r.url), OutHeader(env, r.header), r.body)
  }

  // ---- what becomes of an exchange ----------------------------------------

  datatype Fate =
    | Refused | Relocated | Unmocked(msg: string) | Mocked(data: Bytes)
    | DroppedRequest | Failed(msg: string) | Streamed(reply: Reply) | DroppedResponse(code: int)
    | Answered(code: int, body: Bytes)

  predicate Buffers(env: Env, pl: Plans.Plan) {
    pl.breakResp || env.holdResponses || pl.respBody.Some? || pl.statusOverride != 0
  }

  predicate HoldsResponse(env: Env, pl: Plans.Plan) { pl.breakResp || env.stillHoldResponses }

  function Overridden(pl: Plans.Plan, code: int): int {
    if pl.statusOverride != 0 then pl.statusOverride else code
  }

  function Replaced(env: Env, pl: Plans.Plan, body: Bytes): Bytes {
    if pl.respBody.Some? then Encoded(pl.respBody.value) else Capped(body, env.max)
  }

  function ReleasedReply(env: Env, v: Verdict, code: int, body: Bytes): (int, Bytes) {
    if BlankRaw(v.raw) then (code, body)
    else match EditedReply(env, v.raw) { case Some(e) => e case None => (code, body) }
  }

  function ReplyFate(env: Env, pl: Plans.Plan, reply: Reply): Fate {
    if !Buffers(env, pl) then Streamed(reply)
    else if HoldsResponse(env, pl) && env.responseVerdict.drop then DroppedResponse(reply.code)
    else
      var (code, body) := (Overridden(pl, reply.code), Replaced(env, pl, reply.body));
      if !HoldsResponse(env, pl) then Answered(code, body)
      else
        var (newCode, newBody) := ReleasedReply(env, env.responseVerdict, code, body);
        Answered(newCode, newBody)
  }

  function SendFate(env: Env, pl: Plans.Plan, out: Request): Fate {
    match env.refuse(out.method_, out.url)
    case Some(e) => Failed(e)
    case None =>
      match env.roundTrip(out)
      case Err(e) => Failed(e)
      case Ok(reply) => ReplyFate(env, pl, reply)
  }

  /** Block before location before mock file before the request breakpoint before the upstream server. */
  function FateOf(env: Env, pl: Plans.Plan, a: Arrival): Fate {
    if pl.blockStatus != 0 then Refused
    else if pl.location != "" then Relocated
    else if pl.mockFile != "" then
      match env.readFile(pl.mockFile) { case Ok(data) => Mocked(data) case Err(e) => Unmocked(e) }
    else if HoldsRequest(env, pl) && env.requestVerdict.drop then DroppedRequest
    else SendFate(env, pl, Outgoing(env, pl, AfterBreak(env, pl, a)))
  }

  /** The exchange gets as far as a request breakpoint that is set. */
  predicate Pauses(env: Env, pl: Plans.Plan) {
    pl.blockStatus == 0 && pl.location == "" && pl.mockFile == "" && HoldsRequest(env, pl)
  }

  /** Whether a request is sent upstream. */
  predicate Asks(env: Env, pl: Plans.Plan, a: Arrival) {
    var out := Outgoing(env, pl, AfterBreak(env, pl, a));
    && pl.blockStatus == 0 && pl.location == "" && pl.mockFile == ""
    && !(HoldsRequest(env, pl) && env.requestVerdict.drop)
    && env.refuse(out.method_, out.url).None?
  }

  function FinalState(f: Fate): State {
    match f
    case Refused => Blocked
    case Relocated | Mocked(_) | Answered(_, _) => Complete
    case Streamed(reply) => if reply.end.Broken? && !Bodiless(reply.code) then Error else Complete
    case _ => Error
  }

  function FinalStatus(pl: Plans.Plan, f: Fate): int {
    match f
    case Refused => pl.blockStatus
    case Relocated => FOUND
    case Mocked(_) => if pl.statusOverride == 0 then 200 else pl.statusOverride
    case Unmocked(_) | DroppedRequest | Failed(_) => BAD_GATEWAY
    case Streamed(reply) => reply.code
    case DroppedResponse(code) => code
    case Answered(code, _) => code
  }

  predicate Forwarded(f: Fate) { f.Streamed? || f.Answered? || f.DroppedResponse? }

  /** The body bytes the client is sent of an upstream answer. */
  function Sent(f: Fate): Bytes {
    match f
    case Streamed(reply) => if Bodiless(reply.code) then [] else reply.body
    case Answered(code, body) => if Bodiless(code) then [] else body
    case _ => []
  }

  /** Status codes the HTTP library takes; it panics on others. */
  predicate Legal(code: int) { 100 <= code <= 999 }

  /** Those that end the head of a response; the others in the hundreds only announce one. */
  predicate Final(code: int) { code == 101 || 200 <= code <= 999 }

  /** Whether the body of a response of this fate is handed to the library, however short. */
  predicate GivesBody(f: Fate) {
    match f
    case Streamed(reply) => !Bodiless(reply.code) && reply.body != []
    case Answered(code, body) => !Bodiless(code) && body != []
    case DroppedResponse(_) => false
    case _ => true
  }

  /** The status lines the client is sent: the one meant, or 200 by the library's own choice when that was not final. */
  function Lines(pl: Plans.Plan, f: Fate): seq<int> {
    if f.DroppedResponse? then []
    else if Final(FinalStatus(pl, f)) then [FinalStatus(pl, f)]
    else if GivesBody(f) then [200]
    else []
  }

  /** An exchange of this fate dies in the middle, on a status code that the library does not take. */
  predicate Dies(pl: Plans.Plan, f: Fate) {
    !f.DroppedResponse? && !Legal(FinalStatus(pl, f))
  }

  /** What an exchange of this fate leaves in the store and with the client. */
  ghost predicate Settled(env: Env, pl: Plans.Plan, f: Fate, rec: Record, lines: seq<int>, written: Bytes) {
    if Dies(pl, f) then
      rec.state == (if f.Refused? then Blocked else Pending) && rec.intercepted.Running? && lines == [] && written == []
    else
      && Ended(rec) && rec.state == FinalState(f) && rec.status == FinalStatus(pl, f)
      && lines == Lines(pl, f)
      && written == (if Forwarded(f) then Sent(f) else rec.respBody)
      && (f.Failed? || f.Unmocked? ==> rec.err == f.msg)
      && (f.Mocked? ==> rec.respBody == f.data)
      && (f.Answered? ==> rec.respBody == f.body)
      && (f.Streamed? && !Bodiless(f.reply.code) ==>
            rec.respBody == Capped(f.reply.body, env.max) && rec.respTrunc == (env.max < |f.reply.body|)
            && rec.bytesOut == |f.reply.body|)
  }

  /** One status line, equal to the recorded status of an ended flow: exactly when the code is final and nothing was dropped. */
  lemma OneLineExactly(env: Env, pl: Plans.Plan, f: Fate, rec: Record, lines: seq<int>, written: Bytes)
    requires Settled(env, pl, f, rec, lines, written)
    ensures Ended(rec) && lines == [rec.status] <==> !f.DroppedResponse? && Final(FinalStatus(pl, f))
    ensures Ended(rec) <==> f.Refused? || f.DroppedResponse? || Legal(FinalStatus(pl, f))
    ensures |lines| <= 1
  {
  }

  /** The request as the rules leave it, with the body that was read of it. */
  function Ruled(env: Env, a: Arrival, rules: seq<Rules.Rule>): Arrival {
    var r := a.request;
    a.(request := r.(header := Plans.HeadersOf(r.header, Plans.AllActions(rules)), body := Capped(r.body, env.max)))
  }

  lemma SameURL(env: Env, a: Arrival, r: Request)
    requires r.url == a.request.url
    ensures Completed(a.(request := r)) == Completed(a)
  {
  }

  // ---- records ------------------------------------------------------------

  predicate NoRepeats(tags: seq<string>) {
    forall i, j :: 0 <= i < j < |tags| ==> tags[i] != tags[j]
  }

  function AddTag(tags: seq<string>, t: string): (r: seq<string>)
    ensures NoRepeats(tags) ==> NoRepeats(r)
    ensures tags <= r && t in r
  {
    if t in tags then tags else tags + [t]
  }

  function AddTags(tags: seq<string>, ts: seq<string>): (r: seq<string>)
    ensures NoRepeats(tags) ==> NoRepeats(r)
    ensures tags <= r && forall t :: t in ts ==> t in r
  {
    if ts == [] then tags else AddTag(AddTags(tags, ts[..|ts| - 1]), ts[|ts| - 1])
  }

  /** Shown as paused exactly while it is; no tag twice. */
  predicate Sound(r: Record) {
    && (r.state.Intercepted? <==> !r.intercepted.Running?)
    && NoRepeats(r.tags)
  }

  /** How one stored version may follow another: Error and Blocked are for good, tags are never taken off. */
  predicate Follows(a: Record, b: Record) {
    && (a.state == b.state || a.state.Pending? || (a.state.Intercepted? && b.state.Pending?)
        || (a.state.Complete? && b.state.Error?))
    && a.tags <= b.tags
  }

  ghost predicate History(versions: seq<Record>) {
    && (forall i :: 0 <= i < |versions| ==> Sound(versions[i]))
    && (forall i :: 0 < i < |versions| ==> Follows(versions[i - 1], versions[i]))
  }

  lemma HistoryGrows(versions: seq<Record>, r: Record)
    requires History(versions) && Sound(r) && (versions == [] || Follows(versions[|versions| - 1], r))
    ensures History(versions + [r])
  {
    hide Sound, Follows;
  }

  predicate Ended(r: Record) {
    (r.state.Complete? || r.state.Error? || r.state.Blocked?) && r.intercepted.Running?
  }

  /** The request shown is the same. */
  predicate SameRequest(a: Record, b: Record) {
    a.method_ == b.method_ && a.url == b.url && a.reqBody == b.reqBody && a.reqTrunc == b.reqTrunc
  }

  /** The request shown is this one, whole or cut. */
  predicate ShowsRequest(rec: Record, r: Request, cut: bool) {
    rec.method_ == r.method_ && rec.url == r.url && rec.reqBody == r.body && rec.reqTrunc == cut
  }

  /** What forwarding leaves on the flow: where it was sent instead, and a tag for each thing the rules changed. */
  predicate Marked(env: Env, pl: Plans.Plan, out: Request, rec: Record) {
    env.refuse(out.method_, out.url).None? ==>
      && (pl.redirect != "" ==> rec.redirected == Some(out.url))
      && (pl.redirect != "" && env.parseURL(pl.redirect).Some? ==> "redirect" in rec.tags)
      && (env.roundTrip(out).Ok? ==> Changed(env, pl, env.roundTrip(out).value, rec))
  }

  predicate Changed(env: Env, pl: Plans.Plan, reply: Reply, rec: Record) {
    && (pl.statusOverride != 0 && pl.statusOverride != reply.code ==> "restatus" in rec.tags)
    && (pl.respBody.Some? ==> "rebody" in rec.tags)
  }

  predicate AllIn(ts: seq<string>, tags: seq<string>) {
    forall t :: t in ts ==> t in tags
  }

  /** Once every one of `more` is among the first tags, so are the rules' own in any later ones. */
  lemma TagsIn(ts: seq<string>, more: seq<string>, tags: seq<string>, later: seq<string>)
    requires ts <= more && tags <= later && (more == [] || forall t :: t in more ==> t in tags)
    ensures AllIn(ts, later)
  {
    forall t | t in ts ensures t in later {
      var i :| 0 <= i < |ts| && ts[i] == t;
      assert t == more[i] && t in more && t in tags;
      var j :| 0 <= j < |tags| && tags[j] == t;
      assert later[j] == t;
    }
  }

  lemma StillIn(tags: seq<string>, later: seq<string>, t: string)
    requires tags <= later
    ensures t in tags ==> t in later
  {
    if i :| 0 <= i < |tags| && tags[i] == t {
      assert later[i] == t;
    }
  }

  lemma FailureSettles(env: Env, pl: Plans.Plan, out: Request, msg: string, rec: Record, lines: seq<int>, written: Bytes)
    requires match env.refuse(out.method_, out.url)
             case Some(e) => e == msg
             case None => env.roundTrip(out) == Err(msg)
    requires Ended(rec) && rec.state.Error? && rec.status == BAD_GATEWAY && rec.err == msg
    requires lines == [BAD_GATEWAY] && written == rec.respBody
    ensures Settled(env, pl, SendFate(env, pl, out), rec, lines, written)
  {
  }

  // ---- the exchange -------------------------------------------------------

  class Exchange {
    const env: Env
    var rec: Record
    var lines: seq<int>       // status lines given to the client's writer
    var written: Bytes        // body bytes given to it
    var asked: seq<Request>   // requests sent upstream
    ghost var versions: seq<Record>

    constructor (env: Env)
      ensures this.env == env && lines == [] && written == [] && asked == [] && versions == []
    {
      this.env := env;
      rec := Record(Pending, 0, "", [], Running, None, "", URL("", "", ""), [], false, [], false, 0);
      lines, written, asked, versions := [], [], [], [];
    }

    ghost predicate Valid()
      reads this
    {
      versions != [] && rec == versions[|versions| - 1] && Sound(rec) && History(versions)
    }

    /** Store.Update with a function that leaves `r`. */
    method Update(r: Record)
      requires Valid() && Sound(r) && Follows(rec, r)
      modifies this`rec, this`versions
      ensures Valid() && rec == r && versions == old(versions) + [r]
    {
      hide History;
      HistoryGrows(versions, r);
      rec := r;
      versions := versions + [r];
    }

    /** The library's WriteHeader: a panic, which ends the exchange, on a code it does not take. */
    method WriteHeader(code: int) returns (alive: bool)
      modifies this`lines
      ensures alive == Legal(code)
      ensures lines == old(lines) + if Final(code) then [code] else []
    {
      alive := Legal(code);
      lines := lines + if Final(code) then [code] else [];
    }

    /** The library's Write: with no final status line yet it sends 200 first. */
    method Write(body: Bytes)
      modifies this`lines, this`written
      ensures written == old(written) + body
      ensures lines == if old(lines) == [] then [200] else old(lines)
    {
      if lines == [] {
        lines := [200];
      }
      written := written + body;
    }

    method WriteSynthetic(status: int, body: Bytes) returns (alive: bool)
      requires Valid() && lines == [] && written == [] && !rec.state.Intercepted?
      modifies this`rec, this`versions, this`lines, this`written
      ensures Valid() && alive == Legal(status)
      ensures !alive ==> rec == old(rec) && lines == [] && written == []
      ensures alive ==> lines == [if Final(status) then status else 200] && written == body
      ensures alive ==> rec == old(rec).(
          status := status, respBody := body, respTrunc := false, bytesOut := |body|,
          state := if old(rec).state.Blocked? || old(rec).state.Error? then old(rec).state else Complete)
    {
      alive := WriteHeader(status);
      if !alive {
        return;
      }
      Write(body);
      var next := if rec.state != Blocked && rec.state != Error then Complete else rec.state;
      Update(rec.(status := status, respBody := body, respTrunc := false, bytesOut := |body|, state := next));
    }

    method WriteMock(status: int, body: Bytes)
      requires Valid() && lines == [] && written == [] && rec.state.Pending?
      modifies this`rec, this`versions, this`lines, this`written
      ensures Valid()
      ensures !Legal(status) ==> rec == old(rec) && lines == [] && written == []
      ensures Legal(status) ==> lines == [if Final(status) then status else 200] && written == body
      ensures Legal(status) ==> rec == old(rec).(
          state := Complete, status := status, respBody := body, respTrunc := false, bytesOut := |body|,
          tags := AddTag(old(rec).tags, "mock"))
    {
      var alive := WriteHeader(status);
      if !alive {
        return;
      }
      Write(body);
      Update(rec.(state := Complete, status := status, respBody := body, respTrunc := false, bytesOut := |body|,
                  tags := AddTag(rec.tags, "mock")));
    }

    method Fail(msg: string)
      requires Valid() && lines == [] && written == [] && rec.state.Pending?
      modifies this`rec, this`versions, this`lines, this`written
      ensures Valid() && lines == [BAD_GATEWAY]
      ensures Ended(rec) && rec.state.Error? && rec.status == BAD_GATEWAY && rec.err == msg && rec.tags == old(rec).tags
      ensures written == rec.respBody && SameRequest(old(rec), rec) && rec.redirected == old(rec).redirected
    {
      var _ := WriteSynthetic(BAD_GATEWAY, Encoded("cli-proxy: upstream error\n" + msg + "\n"));
      Update(rec.(state := Error, err := msg));
    }

    method ServeMockFile(pl: Plans.Plan)
      requires Valid() && lines == [] && written == [] && rec.state.Pending?
      modifies this`rec, this`versions, this`lines, this`written
      ensures Valid()
      ensures Settled(env, pl, match env.readFile(pl.mockFile) { case Ok(data) => Mocked(data) case Err(e) => Unmocked(e) },
                      rec, lines, written)
      ensures (Ended(rec) ==> "mock" in rec.tags) && SameRequest(old(rec), rec)
    {
      hide NoRepeats, History;
      var data := env.readFile(pl.mockFile);
      if data.Err? {
        var _ := WriteSynthetic(BAD_GATEWAY, Encoded("cli-proxy: cannot read mock file " + pl.mockFile + ": " + data.error + "\n"));
        Update(rec.(state := Error, err := data.error, tags := AddTag(rec.tags, "mock")));
        return;
      }
      var status := pl.statusOverride;
      if status == 0 {
        status := 200;
      }
      WriteMock(status, data.value);
    }

    method StreamResponse(pl: Plans.Plan, reply: Reply)
      requires Valid() && lines == [] && written == [] && rec.state.Pending? && rec.status == reply.code
      modifies this`rec, this`versions, this`lines, this`written
      ensures Valid() && rec.tags == old(rec).tags && Settled(env, pl, Streamed(reply), rec, lines, written)
      ensures SameRequest(old(rec), rec) && rec.redirected == old(rec).redirected
      ensures !Legal(reply.code) ==> rec == old(rec)
      ensures Legal(reply.code) && !Bodiless(reply.code) ==> rec.bytesOut == |reply.body|
    {
      hide NoRepeats, History;
      var alive := WriteHeader(reply.code);
      if !alive {
        return;
      }
      if Bodiless(reply.code) {
        Update(rec.(state := Complete));
        return;
      }
      if reply.body != [] {
        Write(reply.body);
      }
      var next := rec.(respBody := Capped(reply.body, env.max), respTrunc := env.max < |reply.body|,
                       bytesOut := |reply.body|);
      if reply.end.Broken? {
        Update(next.(state := Error, err := reply.end.msg));
      } else {
        Update(next.(state := Complete));
      }
    }

    method WriteFullResponse(pl: Plans.Plan, code: int, body: Bytes)
      requires Valid() && lines == [] && written == [] && rec.state.Pending?
      modifies this`rec, this`versions, this`lines, this`written
      ensures Valid() && rec.tags == old(rec).tags && Settled(env, pl, Answered(code, body), rec, lines, written)
      ensures Legal(code) ==> rec == old(rec).(status := code, respBody := body, bytesOut := |body|, state := Complete)
      ensures !Legal(code) ==> rec == old(rec)
    {
      hide NoRepeats, History;
      var alive := WriteHeader(code);
      if !alive {
        return;
      }
      if !Bodiless(code) && body != [] {
        Write(body);
      }
      Update(rec.(status := code, respBody := body, bytesOut := |body|, state := Complete));
    }

    /** Out of the breakpoint: no longer shown as paused. */
    method Resume()
      requires Valid()
      modifies this`rec, this`versions
      ensures Valid()
      ensures rec == old(rec).(intercepted := Running, state := if old(rec).state.Intercepted? then Pending else old(rec).state)
      ensures versions == old(versions) + [rec]
    {
      Update(rec.(intercepted := Running, state := if rec.state.Intercepted? then Pending else rec.state));
    }

    method BreakRequest(r: Request) returns (go: bool, out: Request)
      requires Valid() && rec.state.Pending?
      modifies this`rec, this`versions
      ensures Valid() && rec.state.Pending? && go == !env.requestVerdict.drop
      ensures go ==> out == Released(env, env.requestVerdict, r)
      ensures Edits(env) ==> go && ShowsRequest(rec, out, false) && "edit" in rec.tags
      ensures !Edits(env) ==> SameRequest(old(rec), rec) && rec.tags == old(rec).tags
      ensures old(versions) < versions && versions[|old(versions)|].intercepted == AtRequest
    {
      hide Edited, BlankRaw, NoRepeats;
      out := r;
      Update(rec.(state := Intercepted, intercepted := AtRequest));
      var v := env.requestVerdict;
      Resume();
      if v.drop {
        return false, r;
      }
      go := true;
      if BlankRaw(v.raw) {
        return;
      }
      var e := Edited(env, v.raw);
      if e.None? {
        return;
      }
      out := e.value;
      Update(rec.(method_ := out.method_, url := out.url, reqBody := out.body, reqTrunc := false,
                  tags := AddTag(rec.tags, "edit")));
    }

    method BreakResponse(code: int, body: Bytes) returns (go: bool, outCode: int, outBody: Bytes)
      requires Valid() && rec.state.Pending?
      modifies this`rec, this`versions
      ensures Valid() && rec.state.Pending? && go == !env.responseVerdict.drop
      ensures !go ==> rec.status == old(rec).status
      ensures go ==> (outCode, outBody) == ReleasedReply(env, env.responseVerdict, code, body)
      ensures old(rec).tags <= rec.tags && SameRequest(old(rec), rec) && rec.redirected == old(rec).redirected
      ensures old(versions) < versions && versions[|old(versions)|].intercepted == AtResponse
    {
      hide BlankRaw, EditedReply, NoRepeats;
      outCode, outBody := code, body;
      Update(rec.(state := Intercepted, intercepted := AtResponse));
      var v := env.responseVerdict;
      Resume();
      if v.drop {
        return false, code, body;
      }
      go := true;
      if BlankRaw(v.raw) {
        return;
      }
      var e := EditedReply(env, v.raw);
      if e.None? {
        return;
      }
      outCode, outBody := e.value.0, e.value.1;
      Update(rec.(status := outCode, respBody := outBody, respTrunc := false, bytesOut := |outBody|,
                  tags := AddTag(rec.tags, "edit")));
    }

    method AddAll(tags: seq<string>) returns (r: seq<string>)
      ensures r == AddTags(rec.tags, tags)
    {
      r := rec.tags;
      for i := 0 to |tags|
        invariant r == AddTags(rec.tags, tags[..i])
      {
        assert tags[..i + 1][..i] == tags[..i];
        r := AddTag(r, tags[i]);
      }
      assert tags[..|tags|] == tags;
    }

    /** An answer held in full, with its status and body replaced or edited. */
    method DeliverBuffered(pl: Plans.Plan, reply: Reply)
      requires Valid() && rec.state.Pending? && rec.status == reply.code
      requires Buffers(env, pl) && lines == [] && written == []
      modifies this`rec, this`versions, this`lines, this`written
      ensures Valid() && old(rec).tags <= rec.tags && SameRequest(old(rec), rec) && rec.redirected == old(rec).redirected
      ensures Settled(env, pl, ReplyFate(env, pl, reply), rec, lines, written) && Changed(env, pl, reply, rec)
    {
      hide EditedReply, ReleasedReply, NoRepeats, Capped, History, AddTags;
      var code, body, trunc := reply.code, Capped(reply.body, env.max), env.max < |reply.body|;
      var tags := pl.tags;
      if pl.statusOverride != 0 && pl.statusOverride != code {
        code := pl.statusOverride;
        tags := tags + ["restatus"];
      }
      if pl.respBody.Some? {
        body, trunc := Encoded(pl.respBody.value), false;
        tags := tags + ["rebody"];
      }
      var all := AddAll(tags);
      Update(rec.(tags := all, respBody := body, respTrunc := trunc));
      HoldAndWrite(pl, reply, code, body);
      StillIn(all, rec.tags, "restatus");
      StillIn(all, rec.tags, "rebody");
    }

    /** The response breakpoint, and the whole answer at once. */
    method HoldAndWrite(pl: Plans.Plan, reply: Reply, code0: int, body0: Bytes)
      requires Valid() && rec.state.Pending? && rec.status == reply.code
      requires Buffers(env, pl) && code0 == Overridden(pl, reply.code) && body0 == Replaced(env, pl, reply.body)
      requires lines == [] && written == []
      modifies this`rec, this`versions, this`lines, this`written
      ensures Valid() && old(rec).tags <= rec.tags && SameRequest(old(rec), rec) && rec.redirected == old(rec).redirected
      ensures Settled(env, pl, ReplyFate(env, pl, reply), rec, lines, written)
    {
      hide EditedReply, ReleasedReply, NoRepeats, Capped, History, Overridden, Replaced, Buffers;
      var code, body := code0, body0;
      if HoldsResponse(env, pl) {
        var go, newCode, newBody := BreakResponse(code, body);
        if !go {
          Update(rec.(state := Error, err := "dropped at response breakpoint"));
          return;
        }
        code, body := newCode, newBody;
      }
      WriteFullResponse(pl, code, body);
    }

    /** After the upstream server has answered. */
    method Deliver(pl: Plans.Plan, reply: Reply)
      requires Valid() && rec.state.Pending? && rec.status == reply.code
      requires lines == [] && written == []
      modifies this`rec, this`versions, this`lines, this`written
      ensures Valid() && old(rec).tags <= rec.tags && SameRequest(old(rec), rec) && rec.redirected == old(rec).redirected
      ensures Settled(env, pl, ReplyFate(env, pl, reply), rec, lines, written) && Changed(env, pl, reply, rec)
    {
      hide ReleasedReply, NoRepeats, Capped, History;
      if !Buffers(env, pl) {
        StreamResponse(pl, reply);
      } else {
        DeliverBuffered(pl, reply);
      }
    }

    /** From the redirect on: the request goes upstream, and its answer to the client. */
    method Forward(pl: Plans.Plan, r: Request)
      requires Valid() && rec.state.Pending? && asked == [] && lines == [] && written == []
      modifies this`rec, this`versions, this`lines, this`written, this`asked
      ensures Valid() && Settled(env, pl, SendFate(env, pl, Outgoing(env, pl, r)), rec, lines, written)
      ensures SameRequest(old(rec), rec) && Marked(env, pl, Outgoing(env, pl, r), rec)
      ensures var out := Outgoing(env, pl, r);
              if env.refuse(out.method_, out.url).Some? then asked == []
              else asked == [out] && AllIn(pl.tags, rec.tags)
    {
      hide NoRepeats, OutHeader, History, Settled, SendFate, AllIn, AddTags, Target, Changed;
      var target, tags := Redirect(pl, r.url);
      var out := Request(r.method_, target, OutHeader(env, r.header), r.body);
      var refused := env.refuse(out.method_, out.url);
      if refused.Some? {
        Fail(refused.value);
        FailureSettles(env, pl, out, refused.value, rec, lines, written);
        return;
      }
      if tags != [] || pl.redirect != "" {
        var all := AddAll(tags);
        Update(rec.(tags := all, redirected := if pl.redirect != "" then Some(target) else rec.redirected));
      }
      ghost var tagged := rec.tags;
      Send(pl, out);
      TagsIn(pl.tags, tags, tagged, rec.tags);
      StillIn(tagged, rec.tags, "redirect");
    }

    /** Where a request for `u` goes, and the tags that come with it. */
    method Redirect(pl: Plans.Plan, u: URL) returns (target: URL, tags: seq<string>)
      ensures target == Target(env, pl, u) && pl.tags <= tags
      ensures pl.redirect != "" && env.parseURL(pl.redirect).Some? ==> "redirect" in tags
    {
      target, tags := u, pl.tags;
      if pl.redirect != "" {
        var parsed := env.parseURL(pl.redirect);
        if parsed.Some? {
          var t := parsed.value;
          target := URL(if t.scheme == "" then u.scheme else t.scheme, if t.host == "" then u.host else t.host, t.rest);
          tags := tags + ["redirect"];
        }
      }
    }

    /** The round trip. */
    method Send(pl: Plans.Plan, out: Request)
      requires Valid() && rec.state.Pending? && asked == [] && lines == [] && written == []
      requires env.refuse(out.method_, out.url).None?
      modifies this`rec, this`versions, this`lines, this`written, this`asked
      ensures Valid() && Settled(env, pl, SendFate(env, pl, out), rec, lines, written)
      ensures asked == [out] && old(rec).tags <= rec.tags && SameRequest(old(rec), rec)
      ensures rec.redirected == old(rec).redirected
      ensures env.roundTrip(out).Ok? ==> Changed(env, pl, env.roundTrip(out).value, rec)
    {
      hide NoRepeats, History, Settled, ReplyFate;
      asked := asked + [out];
      var resp := env.roundTrip(out);
      if resp.Err? {
        Fail(resp.error);
        FailureSettles(env, pl, out, resp.error, rec, lines, written);
        return;
      }
      Update(rec.(status := resp.value.code));
      Deliver(pl, resp.value);
    }

    /** handle, for an exchange that is no upgrade, whose flow the store still retains. */
    method Handle(a0: Arrival, readError: Option<string>, rules: seq<Rules.Rule>)
      requires versions == [] && lines == [] && written == [] && asked == []
      modifies this
      ensures var pl := Plans.PlanOf(env.plans, PathOf(env, a0), Plans.AllActions(rules));
              var a := Ruled(env, a0, rules);
              && Valid()
              && Settled(env, pl, FateOf(env, pl, a), rec, lines, written)
              && asked == (if Asks(env, pl, a) then [Outgoing(env, pl, AfterBreak(env, pl, a))] else [])
              && (Asks(env, pl, a) ==>
                    AllIn(pl.tags, rec.tags) && Marked(env, pl, Outgoing(env, pl, AfterBreak(env, pl, a)), rec))
              && if Pauses(env, pl) && Edits(env) then ShowsRequest(rec, AfterBreak(env, pl, a), false)
                 else ShowsRequest(rec, a.request.(url := Completed(a0)), env.max < |a0.request.body|)
    {
      hide FateOf, Settled, NoRepeats, AfterBreak, Outgoing, Capped, History, AllIn, Asks, Pauses, Edits, Completed, PathOf,
           Plans.PlanOf, Plans.HeadersOf, Plans.AllActions;
      var u, path := FillIn(a0);
      var pl, header := Plans.ApplyRules(env.plans, rules, a0.request.header, path);
      var r := a0.request.(header := header, body := Capped(a0.request.body, env.max));
      Publish(Record(Pending, 0, if readError.Some? then readError.value else "", [], Running, None,
                     r.method_, u, r.body, env.max < |a0.request.body|, [], false, 0));
      SameURL(env, a0, r);
      Decide(pl, a0.(request := r), u);
    }

    /** The URL with what is missing filled in, and the path that rules go by. */
    method FillIn(a: Arrival) returns (u: URL, path: string)
      ensures u == Completed(a) && path == PathOf(env, a)
    {
      var host := a.authority;
      if host == "" {
        host := a.host;
      }
      u := a.request.url;
      if u.scheme == "" {
        u := u.(scheme := a.scheme);
      }
      if u.host == "" {
        u := u.(host := host);
      }
      path := env.uri(u);
      if path == "" {
        path := "/";
      }
    }

    /** Once the flow is in the store: a rule answers, or the request passes. */
    method Decide(pl: Plans.Plan, a: Arrival, u: URL)
      requires Valid() && rec.state.Pending? && lines == [] && written == [] && asked == [] && u == Completed(a)
      modifies this`rec, this`versions, this`lines, this`written, this`asked
      ensures Valid() && Settled(env, pl, FateOf(env, pl, a), rec, lines, written)
      ensures asked == (if Asks(env, pl, a) then [Outgoing(env, pl, AfterBreak(env, pl, a))] else [])
      ensures Asks(env, pl, a) ==>
                AllIn(pl.tags, rec.tags) && Marked(env, pl, Outgoing(env, pl, AfterBreak(env, pl, a)), rec)
      ensures if Pauses(env, pl) && Edits(env) then ShowsRequest(rec, AfterBreak(env, pl, a), false)
              else SameRequest(old(rec), rec)
    {
      hide FateOf, Settled, NoRepeats, AfterBreak, Outgoing, History, AllIn, Edits, Completed;
      if pl.blockStatus != 0 || pl.location != "" || pl.mockFile != "" {
        Shortcut(pl, a, u);
        return;
      }
      Pass(pl, a, u);
    }

    /** The three ways a rule answers without going upstream. */
    method Shortcut(pl: Plans.Plan, a: Arrival, u: URL)
      requires Valid() && rec.state.Pending? && lines == [] && written == []
      requires pl.blockStatus != 0 || pl.location != "" || pl.mockFile != ""
      modifies this`rec, this`versions, this`lines, this`written
      ensures Valid() && Settled(env, pl, FateOf(env, pl, a), rec, lines, written) && SameRequest(old(rec), rec)
    {
      hide SendFate, NoRepeats, Outgoing, Released, History, Encoded;
      if pl.blockStatus != 0 {
        Update(rec.(state := Blocked, tags := AddTag(rec.tags, "block")));
        var _ := WriteSynthetic(pl.blockStatus,
          Encoded("cli-proxy: request blocked\n" + a.request.method_ + " " + env.show(u) + "\n"));
        return;
      }
      if pl.location != "" {
        WriteMock(FOUND, Encoded("cli-proxy: redirecting to " + pl.location + "\n"));
        return;
      }
      ServeMockFile(pl);
    }

    /** The request breakpoint, and forwarding. */
    method Pass(pl: Plans.Plan, a: Arrival, u0: URL)
      requires Valid() && rec.state.Pending? && lines == [] && written == [] && asked == []
      requires pl.blockStatus == 0 && pl.location == "" && pl.mockFile == "" && u0 == Completed(a)
      modifies this`rec, this`versions, this`lines, this`written, this`asked
      ensures Valid() && Settled(env, pl, FateOf(env, pl, a), rec, lines, written)
      ensures asked == (if Asks(env, pl, a) then [Outgoing(env, pl, AfterBreak(env, pl, a))] else [])
      ensures Asks(env, pl, a) ==>
                AllIn(pl.tags, rec.tags) && Marked(env, pl, Outgoing(env, pl, AfterBreak(env, pl, a)), rec)
      ensures if HoldsRequest(env, pl) && Edits(env) then ShowsRequest(rec, AfterBreak(env, pl, a), false)
              else SameRequest(old(rec), rec)
    {
      hide SendFate, NoRepeats, Outgoing, Released, History, AllIn, Completed, Encoded;
      var r, u := a.request, u0;
      if HoldsRequest(env, pl) {
        var go, edited := BreakRequest(r);
        if !go {
          var _ := WriteSynthetic(BAD_GATEWAY, Encoded("cli-proxy: request dropped at breakpoint\n"));
          Update(rec.(state := Error, err := "dropped at request breakpoint"));
          return;
        }
        r := edited;
        u := r.url;
      }
      Forward(pl, r.(url := u));
    }

    /** Store.Add: the flow's first version. */
    method Publish(r: Record)
      requires versions == [] && Sound(r)
      modifies this`rec, this`versions
      ensures Valid() && rec == r && versions == [r]
    {
      rec := r;
      versions := [r];
    }
  }
}
