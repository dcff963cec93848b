/** Atoms of the filter language and their meaning on a flow (internal/core/query.go). */
module QueryMatch {
  import opened Wrappers
  import opened Text

  /** The parts of a flow that filters look at. */
  datatype Flow = Flow(
    scheme: string, method_: string, url: string, host: string,
    reqBody: string, respBody: string, status: int, tags: seq<string>)

  /** Library calls: regexp compile and match, and Unicode case mapping. */
  datatype Env = Env(
    compiles: string -> bool,
    matches: (string, string) -> bool,
    lower: string -> string,
    upper: string -> string)

  datatype StatusTest =
    | Between(lo: int, hi: int) | AtLeast(n: int) | AtMost(n: int) | Above(n: int) | Below(n: int)
    | Exactly(n: int) | Never
  {
    predicate Holds(code: int) {
      match this
      case Between(lo, hi) => lo <= code <= hi
      case AtLeast(n) => code >= n
      case AtMost(n) => code <= n
      case Above(n) => code > n
      case Below(n) => code < n
      case Exactly(n) => code == n
      case Never => false
    }
  }

  datatype Kind = Regex(body: string) | Method | Status(test: StatusTest) | Host | Url | Body | Tag | Scheme

  datatype Token = Token(neg: bool, kind: Kind, value: string, bad: bool)

  predicate HasSuffix(s: string, t: string) {
    |t| <= |s| && s[|s| - |t|..] == t
  }

  function OrExact(test: Option<StatusTest>, v: string): StatusTest {
    match test
    case Some(t) => t
    case None => (match Atoi(v) case Some(n) => Exactly(n) case None => Never)
  }

  function StatusPredicate(env: Env, val: string): StatusTest {
    var v := env.lower(TrimSpace(val));
    OrExact(
      if HasSuffix(v, "xx") then
        (match Atoi(v[..1]) case Some(d) => Some(Between(d * 100, d * 100 + 99)) case None => None)
      else if HasPrefix(v, ">=") then (match Atoi(v[2..]) case Some(n) => Some(AtLeast(n)) case None => None)
      else if HasPrefix(v, "<=") then (match Atoi(v[2..]) case Some(n) => Some(AtMost(n)) case None => None)
      else if HasPrefix(v, ">") then (match Atoi(v[1..]) case Some(n) => Some(Above(n)) case None => None)
      else if HasPrefix(v, "<") then (match Atoi(v[1..]) case Some(n) => Some(Below(n)) case None => None)
      else None,
      v)
  }

  /** `key:value` atoms; an unknown key makes the whole field a URL substring. */
  function Keyed(env: Env, neg: bool, field: string, i: nat): Token
    requires i < |field|
  {
    var key := env.lower(field[..i]);
    var val := field[i + 1..];
    if key == "method" || key == "m" then Token(neg, Method, env.upper(val), false)
    else if key == "status" || key == "s" || key == "code" then
      Token(neg, Status(StatusPredicate(env, val)), env.lower(val), false)
    else if key == "host" || key == "h" then Token(neg, Host, env.lower(val), false)
    else if key == "url" || key == "u" then Token(neg, Url, env.lower(val), false)
    else if key == "body" || key == "b" then Token(neg, Body, env.lower(val), false)
    else if key == "tag" || key == "t" then Token(neg, Tag, env.lower(val), false)
    else if key == "scheme" then Token(neg, Scheme, env.lower(val), false)
    else Token(neg, Url, env.lower(field), false)
  }

  /** compileToken: a broken regexp degrades to a substring and is marked bad. */
  function Compile(env: Env, tok: string): Token {
    var neg := HasPrefix(tok, "!");
    var field := if neg then tok[1..] else tok;
    if field == "" then Token(neg, Url, "", false)
    else if 2 < |field| && field[0] == '/' && field[|field| - 1] == '/' then
      var body := field[1..|field| - 1];
      if env.compiles(body) then Token(neg, Regex(body), "", false) else Token(neg, Url, env.lower(body), true)
    else
      var i := Index(field, ":");
      if 0 < i then Keyed(env, neg, field, i) else Token(neg, Url, env.lower(field), false)
  }

  predicate Contains(s: string, sub: string) { 0 <= Index(s, sub) }

  predicate AnyTag(env: Env, tags: seq<string>, value: string) {
    exists i :: 0 <= i < |tags| && Contains(env.lower(tags[i]), value)
  }

  predicate AnyMethod(parts: seq<string>, m: string) {
    exists i :: 0 <= i < |parts| && TrimSpace(parts[i]) == m
  }

  predicate MatchPositive(env: Env, t: Token, f: Flow) {
    match t.kind
    case Regex(body) => env.matches(body, f.url)
    case Method => AnyMethod(Split(t.value, ","), f.method_)
    case Status(test) =>
      if f.status == 0 then t.value == "0" || t.value == "err" || t.value == "error" else test.Holds(f.status)
    case Host => Contains(env.lower(f.host), t.value)
    case Url => Contains(env.lower(f.url), t.value)
    case Body => Contains(env.lower(f.reqBody), t.value) || Contains(env.lower(f.respBody), t.value)
    case Tag => AnyTag(env, f.tags, t.value)
    case Scheme => env.lower(f.scheme) == env.lower(t.value)
  }

  predicate MatchFlow(env: Env, t: Token, f: Flow) {
    if t.neg then !MatchPositive(env, t, f) else MatchPositive(env, t, f)
  }
}
