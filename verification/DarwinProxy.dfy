/** The networksetup platform (internal/sysproxy/darwin.go), over a fixed list of services. */
module DarwinProxy {
  import opened Wrappers
  import opened Settings
  import opened Targets
  import Runs = SysRuns

  const KINDS := {Web, Secure}

  function EnabledOf(svc: string, kind: Kind): Key { Key(svc, kind, Enabled) }
  function ServerOf(svc: string, kind: Kind): Key { Key(svc, kind, Server) }
  function PortOf(svc: string, kind: Kind): Key { Key(svc, kind, Port) }

  predicate Owns(services: seq<string>, k: Key) {
    k.scope in services && k.kind in KINDS && k.part != Mode
  }

  function Owned(services: seq<string>): (ks: set<Key>)
    ensures forall k :: k in ks <==> Owns(services, k)
  {
    set svc, kind, part | svc in services && kind in KINDS && part in {Enabled, Server, Port} :: Key(svc, kind, part)
  }

  predicate Schema(os: OS, services: seq<string>) {
    forall svc, kind :: svc in services && kind in KINDS ==>
      && EnabledOf(svc, kind) in os && os[EnabledOf(svc, kind)].Flag?
      && ServerOf(svc, kind) in os && os[ServerOf(svc, kind)].Str?
      && PortOf(svc, kind) in os && os[PortOf(svc, kind)].Num?
  }

  lemma SchemaIsTyped(os: OS, services: seq<string>)
    ensures Schema(os, services) <==> Typed(Owned(services), os)
  {
    if Typed(Owned(services), os) {
      forall svc, kind | svc in services && kind in KINDS
        ensures EnabledOf(svc, kind) in os && os[EnabledOf(svc, kind)].Flag?
        ensures ServerOf(svc, kind) in os && os[ServerOf(svc, kind)].Str?
        ensures PortOf(svc, kind) in os && os[PortOf(svc, kind)].Num?
      {
        assert Owns(services, EnabledOf(svc, kind)) && Owns(services, ServerOf(svc, kind)) && Owns(services, PortOf(svc, kind));
      }
    }
    if Schema(os, services) {
      forall k | k in Owned(services)
        ensures k in os && Fits(k, os[k])
      {
        assert k.scope in services && k.kind in KINDS;
        assert k == EnabledOf(k.scope, k.kind) || k == ServerOf(k.scope, k.kind) || k == PortOf(k.scope, k.kind);
      }
    }
  }

  /** What networksetup prints for one proxy of one service. */
  function ReadProxy(os: OS, svc: string, kind: Kind): Entry {
    Entry(svc, if kind == Web then "web" else "secure",
          EnabledOf(svc, kind) in os && os[EnabledOf(svc, kind)] == Flag(true),
          (if ServerOf(svc, kind) in os && os[ServerOf(svc, kind)].Str? then os[ServerOf(svc, kind)].s else ""),
          (if PortOf(svc, kind) in os && os[PortOf(svc, kind)].Num? then os[PortOf(svc, kind)].n else 0),
          "")
  }

  function SnapshotOf(services: seq<string>, os: OS): (es: seq<Entry>)
    ensures |es| == 2 * |services|
  {
    if services == [] then []
    else [ReadProxy(os, services[0], Web), ReadProxy(os, services[0], Secure)] + SnapshotOf(services[1..], os)
  }

  /** -setwebproxy and -setsecurewebproxy: server and port, and the proxy is switched on as well. */
  function SetProxy(svc: string, kind: Kind, server: string, port: int): Cmd {
    map[EnabledOf(svc, kind) := Flag(true), ServerOf(svc, kind) := Str(server), PortOf(svc, kind) := Num(port)]
  }

  function SetState(svc: string, kind: Kind, on: bool): Cmd {
    map[EnabledOf(svc, kind) := Flag(on)]
  }

  function ServiceCmds(svc: string, host: string, port: int): (cmds: seq<Cmd>)
    ensures |cmds| == 2
  {
    [SetProxy(svc, Web, host, port), SetProxy(svc, Secure, host, port)]
  }

  function ApplyTo(services: seq<string>, host: string, port: int): (cmds: seq<Cmd>)
    ensures |cmds| == 2 * |services|
  {
    if services == [] then []
    else ServiceCmds(services[0], host, port) + ApplyTo(services[1..], host, port)
  }

  function ApplyCmds(services: seq<string>, target: string): seq<Cmd> {
    var (host, port) := SplitTarget(target);
    ApplyTo(services, host, port)
  }

  function KindOf(e: Entry): Option<Kind> {
    if e.key == "web" then Some(Web) else if e.key == "secure" then Some(Secure) else None
  }

  function EntryCmds(e: Entry): seq<Cmd> {
    match KindOf(e)
    case None => []
    case Some(kind) =>
      (if e.server != "" then [SetProxy(e.scope, kind, e.server, e.port)] else [])
      + [SetState(e.scope, kind, e.enabled)]
  }

  function RestoreCmds(entries: seq<Entry>): seq<Cmd> {
    CmdsOf(EntryCmds, entries)
  }

  function Mac(services: seq<string>): Platform {
    Platform("darwin", Owned(services), os => SnapshotOf(services, os), t => ApplyCmds(services, t),
             es => RestoreCmds(es))
  }

  // ---- the loops ----------------------------------------------------------

  /** applyPlatform: two commands a service, stopping at the first that fails. */
  method ApplyPlatform(w: World, services: seq<string>, target: string, stop: Option<nat>) returns (ok: bool)
    requires w.Valid()
    modifies w
    ensures w.Valid() && ok == !(stop.Some? && stop.value < |ApplyCmds(services, target)|)
    ensures w.log == old(w.log) + Sets(if ok then ApplyCmds(services, target)
                                       else ApplyCmds(services, target)[..stop.value])
  {
    var (host, port) := SplitTarget(target);
    ghost var cmds := ApplyTo(services, host, port);
    hide ServiceCmds, SplitTarget;
    var n := 0;
    ok := true;
    for i := 0 to |services|
      invariant ok && n <= |cmds| && cmds[n..] == ApplyTo(services[i..], host, port)
      invariant stop.Some? ==> n <= stop.value
      invariant w.Valid() && w.log == old(w.log) + Sets(cmds[..n])
    {
      NextService(services, i, host, port, cmds, n);
      ok := ApplyService(w, services[i], host, port, stop, n, cmds);
      if !ok {
        return;
      }
      n := n + 2;
    }
    assert services[|services|..] == [] && |cmds[n..]| == 0 && cmds[..n] == cmds;
  }

  /** The two commands of one service, which are `cmds[n..n + 2]`. */
  method ApplyService(w: World, svc: string, host: string, port: int, stop: Option<nat>, n: nat, ghost cmds: seq<Cmd>)
    returns (ok: bool)
    requires w.Valid() && n + 2 <= |cmds| && cmds[n..n + 2] == ServiceCmds(svc, host, port)
    requires stop.Some? ==> n <= stop.value
    modifies w
    ensures w.Valid() && ok == !(stop.Some? && stop.value < n + 2)
    ensures forall log :: old(w.log) == log + Sets(cmds[..n]) ==>
              w.log == log + Sets(cmds[..if ok then n + 2 else stop.value])
  {
    var pair := ServiceCmds(svc, host, port);
    ok := w.ApplyAll(pair, if stop.Some? then Some(stop.value - n) else None);
    SetsUpTo(cmds, n, pair, if ok then 2 else stop.value - n);
    assert pair[..2] == pair;
  }

  lemma SetsUpTo(cmds: seq<Cmd>, n: nat, pair: seq<Cmd>, k: nat)
    requires k <= |pair| && n + |pair| <= |cmds| && cmds[n..n + |pair|] == pair
    ensures Sets(cmds[..n + k]) == Sets(cmds[..n]) + Sets(pair[..k])
  {
    assert cmds[..n + k] == cmds[..n] + pair[..k];
  }

  lemma NextService(services: seq<string>, i: nat, host: string, port: int, cmds: seq<Cmd>, n: nat)
    requires i < |services| && n <= |cmds| && cmds[n..] == ApplyTo(services[i..], host, port)
    ensures n + 2 <= |cmds| && cmds[n + 2..] == ApplyTo(services[i + 1..], host, port)
    ensures cmds[n..n + 2] == ServiceCmds(services[i], host, port)
  {
    var pair := ServiceCmds(services[i], host, port);
    var rest := ApplyTo(services[i + 1..], host, port);
    assert services[i..][1..] == services[i + 1..];
    assert cmds[n..] == pair + rest;
    assert cmds[n..n + 2] == (pair + rest)[..2] == pair;
    assert cmds[n + 2..] == (pair + rest)[2..] == rest;
  }

  /** restorePlatform: the server first, as setting it switches the proxy on, then the state. */
  method RestorePlatform(w: World, entries: seq<Entry>, failed: set<nat>) returns (ok: bool)
    requires w.Valid()
    modifies w
    ensures w.Valid() && ok == !SomeFail(RestoreCmds(entries), failed)
    ensures w.log == old(w.log) + Surviving(RestoreCmds(entries), failed, 0)
  {
    ok := w.RestoreEntries(EntryCmds, entries, failed);
  }

  // ---- what one restore leaves --------------------------------------------

  lemma {:induction false} RunConcat(os: OS, a: seq<Cmd>, b: seq<Cmd>)
    ensures RunAll(os, a + b) == RunAll(RunAll(os, a), b)
  {
    if b == [] {
      assert a + b == a;
    } else {
      assert (a + b)[..|a + b| - 1] == a + b[..|b| - 1];
      RunConcat(os, a, b[..|b| - 1]);
    }
  }

  /** The proxy of one service after its entry is restored: the server stays if the entry had none. */
  function Restored(os: OS, e: Entry, kind: Kind): OS {
    var s := if e.server != "" then os + SetProxy(e.scope, kind, e.server, e.port) else os;
    s + SetState(e.scope, kind, e.enabled)
  }

  lemma RunEntry(os: OS, e: Entry, kind: Kind)
    requires KindOf(e) == Some(kind)
    ensures RunAll(os, EntryCmds(e)) == Restored(os, e, kind)
  {
    var on := SetState(e.scope, kind, e.enabled);
    assert [on][..0] == [] && RunAll(os, [on]) == os + on;
    if e.server != "" {
      var set_ := SetProxy(e.scope, kind, e.server, e.port);
      assert EntryCmds(e)[..1] == [set_] && [set_][..0] == [];
      assert RunAll(os, [set_]) == os + set_;
    }
  }

  /** What a restore writes to field k of a service's proxy, if it writes it. */
  predicate Writes(os: OS, k: Key) {
    k.part == Enabled || ReadProxy(os, k.scope, k.kind).server != ""
  }

  /** The fields a restore of these services and kinds writes. */
  ghost function Written(os: OS, services: seq<string>, kinds: set<Kind>): set<Key> {
    set k | k in Owned(services) && k.kind in kinds && Writes(os, k)
  }

  /** `end` has the original value in the fields of `ks` and the current one elsewhere. */
  ghost predicate RestoredOn(os: OS, now: OS, end: OS, ks: set<Key>)
    requires os.Keys == now.Keys
  {
    end.Keys == now.Keys && forall k :: k in now ==> end[k] == if k in ks then os[k] else now[k]
  }

  lemma Compose(os: OS, now: OS, mid: OS, end: OS, a: set<Key>, b: set<Key>)
    requires os.Keys == now.Keys && RestoredOn(os, now, mid, a) && RestoredOn(os, mid, end, b)
    ensures RestoredOn(os, now, end, a + b)
  {
  }

  lemma OneEntry(os: OS, now: OS, svc: string, kind: Kind)
    requires Schema(os, [svc]) && now.Keys == os.Keys && kind in KINDS
    ensures RestoredOn(os, now, Restored(now, ReadProxy(os, svc, kind), kind), Written(os, [svc], {kind}))
  {
    assert svc in [svc];
    var e := ReadProxy(os, svc, kind);
    var end := Restored(now, e, kind);
    assert end.Keys == now.Keys;
    forall k | k in now
      ensures end[k] == if k in Written(os, [svc], {kind}) then os[k] else now[k]
    {
      if k.scope == svc && k.kind == kind {
        assert k == Key(svc, kind, k.part);
      }
    }
  }

  lemma WrittenSplit(os: OS, services: seq<string>)
    requires services != []
    ensures Written(os, services, KINDS)
         == Written(os, [services[0]], {Web}) + Written(os, [services[0]], {Secure})
            + Written(os, services[1..], KINDS)
  {
    assert services == [services[0]] + services[1..];
    assert forall k :: Owns(services, k) <==> Owns([services[0]], k) || Owns(services[1..], k);
  }

  lemma {:induction false} RestoreLeaves(os: OS, now: OS, services: seq<string>)
    requires Schema(os, services) && now.Keys == os.Keys
    ensures RestoredOn(os, now, RunAll(now, RestoreCmds(SnapshotOf(services, os))), Written(os, services, KINDS))
  {
    if services != [] {
      var svc, rest := services[0], services[1..];
      var mid := Restored(now, ReadProxy(os, svc, Web), Web);
      var next := Restored(mid, ReadProxy(os, svc, Secure), Secure);
      assert svc in services && forall s :: s in rest ==> s in services;
      assert Schema(os, [svc]);
      OneEntry(os, now, svc, Web);
      OneEntry(os, mid, svc, Secure);
      RestoreLeaves(os, next, rest);
      RestoreUnfolds(os, now, services);
      var end := RunAll(now, RestoreCmds(SnapshotOf(services, os)));
      var a, b := Written(os, [svc], {Web}), Written(os, [svc], {Secure});
      Compose(os, now, mid, next, a, b);
      Compose(os, now, next, end, a + b, Written(os, rest, KINDS));
      WrittenSplit(os, services);
    }
  }

  lemma RestoreUnfolds(os: OS, now: OS, services: seq<string>)
    requires services != []
    ensures var svc, rest := services[0], services[1..];
            RunAll(now, RestoreCmds(SnapshotOf(services, os)))
            == RunAll(Restored(Restored(now, ReadProxy(os, svc, Web), Web), ReadProxy(os, svc, Secure), Secure),
                      RestoreCmds(SnapshotOf(rest, os)))
  {
    var svc, rest := services[0], services[1..];
    var web, secure := ReadProxy(os, svc, Web), ReadProxy(os, svc, Secure);
    var more := RestoreCmds(SnapshotOf(rest, os));
    var es := SnapshotOf(services, os);
    assert es[1..][1..] == SnapshotOf(rest, os) && es[1..][0] == secure;
    assert RestoreCmds(es[1..]) == EntryCmds(secure) + RestoreCmds(es[1..][1..]);
    assert RestoreCmds(es) == EntryCmds(web) + (EntryCmds(secure) + more);
    RunConcat(now, EntryCmds(web), EntryCmds(secure) + more);
    RunEntry(now, web, Web);
    RunConcat(Restored(now, web, Web), EntryCmds(secure), more);
    RunEntry(Restored(now, web, Web), secure, Secure);
  }

  lemma EntryWithin(os: OS, svc: string, kind: Kind, all: seq<string>)
    requires svc in all && kind in KINDS
    ensures Within(EntryCmds(ReadProxy(os, svc, kind)), Owned(all))
  {
    hide ReadProxy, InType;
    var e := ReadProxy(os, svc, kind);
    EntryKind(os, svc, kind);
    SettersTyped(svc, kind, e, all);
  }

  lemma EntryKind(os: OS, svc: string, kind: Kind)
    requires kind in KINDS
    ensures KindOf(ReadProxy(os, svc, kind)) == Some(kind) && ReadProxy(os, svc, kind).scope == svc
  {
  }

  lemma SettersTyped(svc: string, kind: Kind, e: Entry, all: seq<string>)
    requires svc in all && kind in KINDS
    ensures InType(SetProxy(svc, kind, e.server, e.port), Owned(all)) && InType(SetState(svc, kind, e.enabled), Owned(all))
  {
  }

  lemma WithinConcat(a: seq<Cmd>, b: seq<Cmd>, keys: set<Key>)
    requires Within(a, keys) && Within(b, keys)
    ensures Within(a + b, keys)
  {
    hide InType;
  }

  lemma {:induction false} RestoreWithin(os: OS, services: seq<string>, all: seq<string>)
    requires forall s :: s in services ==> s in all
    ensures Within(RestoreCmds(SnapshotOf(services, os)), Owned(all))
  {
    hide Within, EntryCmds, ReadProxy;
    if services == [] {
      WithinNone(Owned(all));
    } else {
      var svc, rest := services[0], services[1..];
      var web, secure := ReadProxy(os, svc, Web), ReadProxy(os, svc, Secure);
      var es := SnapshotOf(services, os);
      assert es[1..][1..] == SnapshotOf(rest, os) && es[1..][0] == secure;
      assert RestoreCmds(es[1..]) == EntryCmds(secure) + RestoreCmds(es[1..][1..]);
      assert RestoreCmds(es) == EntryCmds(web) + (EntryCmds(secure) + RestoreCmds(SnapshotOf(rest, os)));
      assert svc in services;
      RestoreWithin(os, rest, all);
      EntryWithin(os, svc, Web, all);
      EntryWithin(os, svc, Secure, all);
      WithinConcat(EntryCmds(secure), RestoreCmds(SnapshotOf(rest, os)), Owned(all));
      WithinConcat(EntryCmds(web), EntryCmds(secure) + RestoreCmds(SnapshotOf(rest, os)), Owned(all));
    }
  }

  lemma WithinNone(keys: set<Key>)
    ensures Within([], keys)
  {
  }

  lemma {:induction false} ApplyToWithin(services: seq<string>, all: seq<string>, host: string, port: int)
    requires forall s :: s in services ==> s in all
    ensures Within(ApplyTo(services, host, port), Owned(all))
  {
    if services != [] {
      assert services[0] in services;
      ApplyToWithin(services[1..], all, host, port);
    }
  }

  lemma MacLawful(services: seq<string>)
    ensures Lawful(Mac(services))
  {
    forall t: string
      ensures Within(Mac(services).apply(t), Mac(services).keys)
    {
      var (host, port) := SplitTarget(t);
      ApplyToWithin(services, services, host, port);
    }
    forall os
      ensures Within(Mac(services).restore(Mac(services).snapshot(os)), Mac(services).keys)
    {
      RestoreWithin(os, services, services);
    }
  }

  // ---- when the settings come back ----------------------------------------

  predicate HadServer(os: OS, services: seq<string>, svc: string, kind: Kind) {
    svc in services && kind in KINDS ==> ReadProxy(os, svc, kind).server != ""
  }

  lemma EverythingWritten(os: OS, services: seq<string>)
    requires forall svc, kind :: HadServer(os, services, svc, kind)
    ensures Written(os, services, KINDS) == Owned(services)
  {
    forall k | k in Owned(services)
      ensures Writes(os, k)
    {
      assert HadServer(os, services, k.scope, k.kind);
    }
  }

  lemma AllServersSuffice(os: OS, now: OS, services: seq<string>)
    requires Schema(os, services) && os.Keys == now.Keys
    requires forall k :: k in os && k !in Owned(services) ==> now[k] == os[k]
    requires forall svc, kind :: HadServer(os, services, svc, kind)
    ensures RunAll(now, RestoreCmds(SnapshotOf(services, os))) == os
  {
    RestoreLeaves(os, now, services);
    EverythingWritten(os, services);
  }

  lemma MissingServerIsLost(os: OS, services: seq<string>, svc: string, kind: Kind) returns (now: OS)
    requires Schema(os, services) && !HadServer(os, services, svc, kind)
    ensures Near(Mac(services), os, now) && RunAll(now, RestoreCmds(SnapshotOf(services, os))) != os
  {
    now := WithServer(os, services, svc, kind);
    var key := ServerOf(svc, kind);
    RestoreLeaves(os, now, services);
    assert key !in Written(os, services, KINDS);
    assert os[key] == Str("");
  }

  /** The settings with one server filled in, as an apply leaves them: near the original all the same. */
  lemma WithServer(os: OS, services: seq<string>, svc: string, kind: Kind) returns (now: OS)
    requires Schema(os, services) && svc in services && kind in KINDS
    ensures now == os[ServerOf(svc, kind) := Str("x")] && Near(Mac(services), os, now) && Schema(now, services)
    ensures ServerOf(svc, kind) in os && Owns(services, ServerOf(svc, kind))
  {
    var key := ServerOf(svc, kind);
    assert key in os && Owns(services, key);
    now := os[key := Str("x")];
    SchemaIsTyped(now, services);
  }

  /** The exact settings come back, from anywhere near them, if and only if every entry had a server. */
  lemma MacUndoable(os: OS, services: seq<string>)
    requires Schema(os, services)
    ensures Undoable(Mac(services), Exactly, os) <==> forall svc, kind :: HadServer(os, services, svc, kind)
  {
    hide RestoreCmds, SnapshotOf, RunAll;
    var p := Mac(services);
    SchemaIsTyped(os, services);
    assert p.restore(p.snapshot(os)) == RestoreCmds(SnapshotOf(services, os));
    if svc, kind :| !HadServer(os, services, svc, kind) {
      var now := MissingServerIsLost(os, services, svc, kind);
      assert Near(p, os, os);
    } else {
      forall now | Near(p, os, now)
        ensures RunAll(now, RestoreCmds(SnapshotOf(services, os))) == os
      {
        AllServersSuffice(os, now, services);
      }
    }
  }

  // ---- when the proxies in force come back --------------------------------

  function Forced(e: Entry): Option<(string, int)> {
    if e.enabled then Some((e.server, e.port)) else None
  }

  /** The proxy in force for one service, if any. */
  function Effective(os: OS, svc: string, kind: Kind): Option<(string, int)> {
    Forced(ReadProxy(os, svc, kind))
  }

  /** The proxies in force, for every service and kind. */
  function InForce(services: seq<string>, os: OS): (m: map<Key, Option<(string, int)>>)
    ensures forall svc, kind :: svc in services && kind in KINDS ==>
              EnabledOf(svc, kind) in m && m[EnabledOf(svc, kind)] == Effective(os, svc, kind)
    ensures forall k :: k in m ==> k == EnabledOf(k.scope, k.kind) && k.scope in services && k.kind in KINDS
  {
    map k | k in Owned(services) && k.part == Enabled :: Effective(os, k.scope, k.kind)
  }

  function Force(services: seq<string>): OS -> map<Key, Option<(string, int)>> {
    os => InForce(services, os)
  }

  lemma SameInForce(services: seq<string>, a: OS, b: OS)
    ensures InForce(services, a) == InForce(services, b)
        <==> forall svc, kind :: svc in services && kind in KINDS ==> Effective(a, svc, kind) == Effective(b, svc, kind)
  {
    var m, n := InForce(services, a), InForce(services, b);
    if m == n {
      forall svc, kind | svc in services && kind in KINDS
        ensures Effective(a, svc, kind) == Effective(b, svc, kind)
      {
        assert m[EnabledOf(svc, kind)] == n[EnabledOf(svc, kind)];
      }
    }
  }

  lemma EffectAfter(os: OS, now: OS, services: seq<string>, svc: string, kind: Kind)
    requires Schema(os, services) && now.Keys == os.Keys && svc in services && kind in KINDS
    ensures var end := RunAll(now, RestoreCmds(SnapshotOf(services, os)));
            && (ReadProxy(os, svc, kind).server != "" || !ReadProxy(os, svc, kind).enabled ==>
                  Effective(end, svc, kind) == Effective(os, svc, kind))
            && (ReadProxy(os, svc, kind).server == "" ==>
                  ReadProxy(end, svc, kind) == ReadProxy(now, svc, kind).(enabled := ReadProxy(os, svc, kind).enabled))
  {
    hide RestoreCmds, SnapshotOf, RunAll;
    RestoreLeaves(os, now, services);
    assert Owns(services, EnabledOf(svc, kind)) && Owns(services, ServerOf(svc, kind)) && Owns(services, PortOf(svc, kind));
    assert EnabledOf(svc, kind) in os && ServerOf(svc, kind) in os && PortOf(svc, kind) in os;
  }

  /** Every proxy in force has a server: all that a restore needs, and it can be seen in what is in force. */
  predicate EnabledHadServers(os: OS, services: seq<string>) {
    forall svc, kind :: svc in services && kind in KINDS && Effective(os, svc, kind).Some? ==>
      Effective(os, svc, kind).value.0 != ""
  }

  lemma EnabledServersSuffice(os: OS, services: seq<string>)
    requires Schema(os, services) && EnabledHadServers(os, services)
    ensures Restores(Mac(services), Force(services), os)
  {
    hide RestoreCmds, SnapshotOf, RunAll;
    var p := Mac(services);
    assert p.restore(p.snapshot(os)) == RestoreCmds(SnapshotOf(services, os));
    forall now | Near(p, os, now)
      ensures InForce(services, RunAll(now, RestoreCmds(SnapshotOf(services, os)))) == InForce(services, os)
    {
      var end := RunAll(now, RestoreCmds(SnapshotOf(services, os)));
      forall svc, kind | svc in services && kind in KINDS
        ensures Effective(end, svc, kind) == Effective(os, svc, kind)
      {
        EffectAfter(os, now, services, svc, kind);
      }
      SameInForce(services, end, os);
    }
  }

  lemma EnabledWithoutServerIsLost(os: OS, services: seq<string>, svc: string, kind: Kind)
    requires Schema(os, services) && svc in services && kind in KINDS && Effective(os, svc, kind) == Some(("", ReadProxy(os, svc, kind).port))
    ensures !Restores(Mac(services), Force(services), os)
  {
    hide RestoreCmds, SnapshotOf, RunAll;
    var p := Mac(services);
    var now := WithServer(os, services, svc, kind);
    EffectAfter(os, now, services, svc, kind);
    var end := RunAll(now, p.restore(p.snapshot(os)));
    SameInForce(services, end, os);
    assert Effective(end, svc, kind) != Effective(os, svc, kind);
    assert Force(services)(end) != Force(services)(os);
  }

  lemma ForceDecides(services: seq<string>, a: OS, b: OS)
    requires Force(services)(a) == Force(services)(b) && EnabledHadServers(a, services)
    ensures EnabledHadServers(b, services)
  {
    SameInForce(services, a, b);
  }

  /** Every proxy in force comes back, from anywhere near, if and only if every enabled entry had a server. */
  lemma MacEffectUndoable(os: OS, services: seq<string>)
    requires Schema(os, services)
    ensures Undoable(Mac(services), Force(services), os) <==> EnabledHadServers(os, services)
  {
    hide Restores, Force, Effective;
    var p := Mac(services);
    SchemaIsTyped(os, services);
    assert Near(p, os, os);
    if EnabledHadServers(os, services) {
      forall src | Near(p, os, src) && Force(services)(src) == Force(services)(os)
        ensures Restores(p, Force(services), src)
      {
        SchemaIsTyped(src, services);
        ForceDecides(services, os, src);
        EnabledServersSuffice(src, services);
      }
    } else {
      var svc, kind :| svc in services && kind in KINDS && Effective(os, svc, kind).Some? && Effective(os, svc, kind).value.0 == "";
      EffectiveIs(os, svc, kind);
      EnabledWithoutServerIsLost(os, services, svc, kind);
    }
  }

  lemma EffectiveIs(os: OS, svc: string, kind: Kind)
    requires Effective(os, svc, kind).Some?
    ensures Effective(os, svc, kind) == Some((Effective(os, svc, kind).value.0, ReadProxy(os, svc, kind).port))
  {
  }

  /** After any number of applies, complete or cut off, one restore brings every proxy in force back. */
  lemma AppliesKeepProxies(os: OS, services: seq<string>, runs: seq<(string, nat)>)
    requires Schema(os, services) && EnabledHadServers(os, services)
    ensures var end := RunAll(RunAll(os, ManyApplies(Mac(services), runs)), RestoreCmds(SnapshotOf(services, os)));
            forall svc, kind :: svc in services && kind in KINDS ==> Effective(end, svc, kind) == Effective(os, svc, kind)
  {
    hide RestoreCmds, SnapshotOf, RunAll, ManyApplies;
    MacEffectUndoable(os, services);
    MacLawful(services);
    AppliesUndone(Mac(services), Force(services), os, runs);
    SameInForce(services, RunAll(RunAll(os, ManyApplies(Mac(services), runs)), RestoreCmds(SnapshotOf(services, os))), os);
  }

  /** And the exact settings, when every entry had a server. */
  lemma AppliesAreUndone(os: OS, services: seq<string>, runs: seq<(string, nat)>)
    requires Schema(os, services) && forall svc, kind :: HadServer(os, services, svc, kind)
    ensures RunAll(RunAll(os, ManyApplies(Mac(services), runs)), RestoreCmds(SnapshotOf(services, os))) == os
  {
    hide RestoreCmds, SnapshotOf, RunAll, ManyApplies;
    MacUndoable(os, services);
    MacLawful(services);
    AppliesUndone(Mac(services), Exactly, os, runs);
  }

  // ---- whole runs ---------------------------------------------------------

  /** The user's settings, at the start and at every edit: every proxy in force has a server. */
  ghost predicate ProxiesSet(services: seq<string>, ss: seq<Runs.Sys>, es: seq<Runs.Event>) {
    && ss != [] && Schema(ss[0].orig, services) && EnabledHadServers(ss[0].orig, services)
    && forall i :: 0 <= i < |es| && es[i].Edited? ==> Schema(es[i].os, services) && EnabledHadServers(es[i].os, services)
  }

  lemma ProxiesAreChoices(services: seq<string>, ss: seq<Runs.Sys>, es: seq<Runs.Event>)
    requires ProxiesSet(services, ss, es)
    ensures Runs.Choices(Mac(services), Force(services), ss, es)
  {
    hide Undoable, Force, EnabledHadServers, Schema;
    MacEffectUndoable(ss[0].orig, services);
    forall i | 0 <= i < |es| && es[i].Edited?
      ensures Undoable(Mac(services), Force(services), es[i].os)
    {
      MacEffectUndoable(es[i].os, services);
    }
  }

  /**
   The crash-safety theorem on macOS, for the proxies in force: services without any proxy server, the
   ordinary case, are no hindrance.
   */
  lemma MacRunsAreCrashSafe(services: seq<string>, ss: seq<Runs.Sys>, es: seq<Runs.Event>, i: nat)
    requires Runs.IsRun(Mac(services), ss, es) && ProxiesSet(services, ss, es) && i < |ss|
    requires forall j :: 0 <= j < i ==> !Runs.Hazard(Mac(services), ss[j], es[j])
    ensures Runs.Recoverable(Mac(services), Force(services), ss[i].orig, ss[i].disk)
    ensures ss[i].disk.backup.None? ==>
              forall svc, kind :: svc in services && kind in KINDS ==>
                Effective(ss[i].disk.os, svc, kind) == Effective(ss[i].orig, svc, kind)
    ensures 0 < i && Runs.CleanUndo(Mac(services), ss[i - 1], es[i - 1]) ==> ss[i].disk.backup.None?
  {
    hide Runs.CleanUndo, Runs.Recoverable, Runs.IsRun, Runs.Hazard, Runs.Inv, Effective;
    ProxiesAreChoices(services, ss, es);
    MacLawful(services);
    Runs.EveryRunIsCrashSafe(Mac(services), Force(services), ss, es, i);
    SameInForce(services, ss[i].disk.os, ss[i].orig);
  }
}
