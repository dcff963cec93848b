/** Every form of filter atom, key by key and as a pattern, on every flow (internal/core/query.go). */
module QueryKeys {
  import opened Text
  import opened QueryMatch
  import opened QueryAtoms

  // ---- patterns -----------------------------------------------------------

  /**
   `/p/` is a regular expression matched against the whole URL. One that does not compile searches the URL for
   its text, letter case apart, and is reported.
   */
  lemma PatternMatchesURL(env: Env, p: string, f: Flow)
    requires p != ""
    ensures var t := Compile(env, "/" + p + "/");
            && t.bad == !env.compiles(p)
            && (MatchFlow(env, t, f) <==>
                if env.compiles(p) then env.matches(p, f.url) else Within(env.lower(f.url), env.lower(p)))
  {
    hide Within, Contains, Keyed, Index;
    var s := "/" + p + "/";
    assert s[1..|s| - 1] == p && s[0] == '/' && s[|s| - 1] == '/';
    ContainsIsWithin(env.lower(f.url), env.lower(p));
  }

  // ---- keys ---------------------------------------------------------------

  /** Text that can stand in front of the colon; it is compared without letter case. */
  predicate KeyText(key: string) {
    key != "" && ':' !in key && key[0] != '!' && key[0] != '/'
  }

  lemma KeyedToken(env: Env, key: string, v: string)
    requires KeyText(key)
    ensures var tok := key + (":" + v);
            && Compile(env, tok) == Keyed(env, false, tok, |key|) && tok[..|key|] == key && tok[|key| + 1..] == v
  {
    hide Keyed, Index;
    var tok := key + (":" + v);
    IndexIs(tok, ":", |key|);
    assert tok[0] == key[0];
  }

  /** What a value selects under a key. */
  ghost predicate Selects(env: Env, key: string, v: string, f: Flow) {
    var k := env.lower(key);
    if k == "host" || k == "h" then Within(env.lower(f.host), env.lower(v))
    else if k == "url" || k == "u" then Within(env.lower(f.url), env.lower(v))
    else if k == "body" || k == "b" then
      Within(env.lower(f.reqBody), env.lower(v)) || Within(env.lower(f.respBody), env.lower(v))
    else if k == "tag" || k == "t" then exists i :: 0 <= i < |f.tags| && Within(env.lower(f.tags[i]), env.lower(v))
    else if k == "scheme" then env.lower(f.scheme) == env.lower(env.lower(v))
    else if k == "method" || k == "m" then
      exists i :: 0 <= i < |Split(env.upper(v), ",")| && TrimSpace(Split(env.upper(v), ",")[i]) == f.method_
    else Within(env.lower(f.url), env.lower(key + (":" + v)))
  }

  predicate ForStatus(env: Env, key: string) {
    env.lower(key) == "status" || env.lower(key) == "s" || env.lower(key) == "code"
  }

  lemma TagsSearch(env: Env, tags: seq<string>, v: string)
    ensures AnyTag(env, tags, v) <==> exists i :: 0 <= i < |tags| && Within(env.lower(tags[i]), v)
  {
    hide Within, Contains;
    forall i | 0 <= i < |tags|
      ensures Contains(env.lower(tags[i]), v) == Within(env.lower(tags[i]), v)
    {
      ContainsIsWithin(env.lower(tags[i]), v);
    }
  }

  /** Every key in every letter case, and a colon after any other text, selects exactly that. */
  lemma KeySelects(env: Env, key: string, v: string, f: Flow)
    requires KeyText(key) && !ForStatus(env, key)
    ensures MatchFlow(env, Compile(env, key + (":" + v)), f) <==> Selects(env, key, v, f)
    ensures !Compile(env, key + (":" + v)).bad
  {
    hide Compile, Within, Contains, TrimSpace, Split, AnyTag;
    KeyedToken(env, key, v);
    var low := env.lower(v);
    ContainsIsWithin(env.lower(f.host), low);
    ContainsIsWithin(env.lower(f.url), low);
    ContainsIsWithin(env.lower(f.reqBody), low);
    ContainsIsWithin(env.lower(f.respBody), low);
    ContainsIsWithin(env.lower(f.url), env.lower(key + (":" + v)));
    TagsSearch(env, f.tags, low);
  }

  /** The short status keys, in any letter case, are the long one. */
  lemma StatusKeys(env: Env, key: string, v: string)
    requires KeyText(key) && ForStatus(env, key) && env.lower("status") == "status"
    ensures Compile(env, key + (":" + v)) == Compile(env, "status" + (":" + v))
  {
    hide Compile, StatusPredicate;
    KeyedToken(env, key, v);
    KeyedToken(env, "status", v);
  }

  // ---- the rest -----------------------------------------------------------

  /** An atom that is no pattern and has no key, a leading colon or slash included, searches the URL for itself. */
  lemma OtherSearchesURL(env: Env, w: string, f: Flow)
    requires w != "" && w[0] != '!' && (':' !in w || w[0] == ':')
    requires w[0] == '/' ==> |w| <= 2 || w[|w| - 1] != '/'
    ensures MatchFlow(env, Compile(env, w), f) <==> Within(env.lower(f.url), env.lower(w))
  {
    hide Within, Contains, Keyed;
    if w[0] == ':' {
      IndexIs(w, ":", 0);
    } else {
      forall k: nat ensures !OccursAt(w, ":", k) {
        CharAt(w, ':', k);
      }
    }
    ContainsIsWithin(env.lower(f.url), env.lower(w));
  }

  /** The empty atom, which `!` can be followed by, selects every flow. */
  lemma EmptySelectsAll(env: Env, f: Flow)
    ensures MatchFlow(env, Compile(env, ""), f)
  {
    assert OccursAt(env.lower(f.url), "", 0);
  }
}
