/** What an enable that gives up leaves on macOS, command by command (internal/sysproxy/darwin.go, sysproxy.go). */
module DarwinRollback {
  import opened Wrappers
  import opened Settings
  import opened Targets
  import opened DarwinProxy
  import Runs = SysRuns
  import S = SysProxy

  predicate Distinct(services: seq<string>) {
    forall i, j :: 0 <= i < j < |services| ==> services[i] != services[j]
  }

  // ---- places: two proxies a service --------------------------------------

  function KindAt(m: nat): (k: Kind)
    ensures k in KINDS
  {
    if m % 2 == 0 then Web else Secure
  }

  function ServiceAt(services: seq<string>, m: nat): (svc: string)
    requires m < 2 * |services|
    ensures svc in services
  {
    services[m / 2]
  }

  function SlotAt(services: seq<string>, os: OS, m: nat): Entry
    requires m < 2 * |services|
  {
    ReadProxy(os, ServiceAt(services, m), KindAt(m))
  }

  lemma {:induction false} SnapshotAt(services: seq<string>, os: OS, m: nat)
    requires m < 2 * |services|
    ensures SnapshotOf(services, os)[m] == SlotAt(services, os, m)
  {
    hide ReadProxy;
    var rest := SnapshotOf(services[1..], os);
    if 2 <= m {
      SnapshotAt(services[1..], os, m - 2);
      assert SnapshotOf(services, os)[m] == rest[m - 2];
    }
  }

  lemma {:induction false} ApplyAt(services: seq<string>, host: string, port: int, m: nat)
    requires m < 2 * |services|
    ensures ApplyTo(services, host, port)[m] == SetProxy(ServiceAt(services, m), KindAt(m), host, port)
  {
    hide SetProxy;
    var rest := ApplyTo(services[1..], host, port);
    if 2 <= m {
      ApplyAt(services[1..], host, port, m - 2);
      assert ApplyTo(services, host, port)[m] == rest[m - 2];
    }
  }

  // ---- one command --------------------------------------------------------

  lemma ProxySet(os: OS, svc: string, kind: Kind, server: string, port: int, at: string, k: Kind)
    ensures ReadProxy(os + SetProxy(svc, kind, server, port), at, k)
         == if at == svc && k == kind then ReadProxy(os, at, k).(enabled := true, server := server, port := port)
            else ReadProxy(os, at, k)
  {
  }

  lemma StateSet(os: OS, svc: string, kind: Kind, on: bool, at: string, k: Kind)
    ensures ReadProxy(os + SetState(svc, kind, on), at, k)
         == if at == svc && k == kind then ReadProxy(os, at, k).(enabled := on) else ReadProxy(os, at, k)
  {
  }

  lemma PlacesApart(services: seq<string>, m: nat, n: nat)
    requires Distinct(services) && m < 2 * |services| && n < 2 * |services|
    ensures ServiceAt(services, m) == ServiceAt(services, n) && KindAt(m) == KindAt(n) <==> m == n
  {
  }

  // ---- the apply, cut off -------------------------------------------------

  lemma {:induction false} AppliedAt(services: seq<string>, os: OS, host: string, port: int, n: nat, m: nat)
    requires Distinct(services) && n <= 2 * |services| && m < 2 * |services|
    ensures var was := SlotAt(services, os, m);
            SlotAt(services, RunAll(os, ApplyTo(services, host, port)[..n]), m)
            == if m < n then was.(enabled := true, server := host, port := port) else was
  {
    hide ReadProxy, SetProxy, ApplyTo, ServiceAt, KindAt;
    var cmds := ApplyTo(services, host, port);
    if 0 < n {
      AppliedAt(services, os, host, port, n - 1, m);
      ApplyAt(services, host, port, n - 1);
      RunOne(os, cmds, n);
      PlacesApart(services, n - 1, m);
      ProxySet(RunAll(os, cmds[..n - 1]), ServiceAt(services, n - 1), KindAt(n - 1), host, port,
               ServiceAt(services, m), KindAt(m));
    }
  }

  // ---- the restore, with failures -----------------------------------------

  /** A proxy that stood at `cur` after the commands of entry e, of which the first has index `at`. */
  function Mended(e: Entry, cur: Entry, failed: set<nat>, at: nat): Entry {
    var c := if e.server != "" && at !in failed then cur.(enabled := true, server := e.server, port := e.port) else cur;
    if (if e.server != "" then at + 1 else at) in failed then c else c.(enabled := e.enabled)
  }

  function MendedDisk(d: Disk, e: Entry, kind: Kind, failed: set<nat>, at: nat): Disk {
    var c := if e.server != "" && at !in failed then Do(d, Set(SetProxy(e.scope, kind, e.server, e.port))) else d;
    if (if e.server != "" then at + 1 else at) in failed then c else Do(c, Set(SetState(e.scope, kind, e.enabled)))
  }

  lemma EntryMends(d: Disk, cmds: seq<Cmd>, failed: set<nat>, at: nat, e: Entry, kind: Kind)
    requires KindOf(e) == Some(kind)
    requires at + |EntryCmds(e)| <= |cmds| && cmds[at..at + |EntryCmds(e)|] == EntryCmds(e)
    ensures DoAll(d, Surviving(cmds, failed, at))
         == DoAll(MendedDisk(d, e, kind, failed, at), Surviving(cmds, failed, at + |EntryCmds(e)|))
  {
    hide DoAll, Surviving, SetProxy, SetState, KindOf;
    var own := EntryCmds(e);
    assert own[0] == cmds[at];
    SurvivingStep(d, cmds, failed, at);
    if e.server != "" {
      assert own[1] == cmds[at + 1];
      SurvivingStep(if at in failed then d else Do(d, Set(cmds[at])), cmds, failed, at + 1);
    }
  }

  lemma MendedReads(d: Disk, e: Entry, kind: Kind, failed: set<nat>, at: nat, svc: string, k: Kind)
    ensures ReadProxy(MendedDisk(d, e, kind, failed, at).os, svc, k)
         == if svc == e.scope && k == kind then Mended(e, ReadProxy(d.os, svc, k), failed, at) else ReadProxy(d.os, svc, k)
  {
    hide ReadProxy, SetProxy, SetState;
    ProxySet(d.os, e.scope, kind, e.server, e.port, svc, k);
    StateSet(d.os, e.scope, kind, e.enabled, svc, k);
    StateSet(d.os + SetProxy(e.scope, kind, e.server, e.port), e.scope, kind, e.enabled, svc, k);
  }

  /** How many commands the entries from `from` up to m take. */
  function Place(es: seq<Entry>, from: nat, m: nat): nat
    requires from <= m <= |es|
    decreases m - from
  {
    if from == m then 0 else |EntryCmds(es[from])| + Place(es, from + 1, m)
  }

  lemma {:induction false} MendedFrom(services: seq<string>, os: OS, q: nat, d: Disk, cmds: seq<Cmd>, failed: set<nat>, at: nat, m: nat)
    requires Distinct(services) && m < 2 * |services| && q <= 2 * |services|
    requires at <= |cmds| && cmds[at..] == RestoreCmds(SnapshotOf(services, os)[q..])
    ensures var was := SlotAt(services, d.os, m);
            SlotAt(services, DoAll(d, Surviving(cmds, failed, at)).os, m)
            == if m < q then was
               else Mended(SlotAt(services, os, m), was, failed, at + Place(SnapshotOf(services, os), q, m))
    decreases 2 * |services| - q
  {
    hide ReadProxy, DoAll, Surviving, SnapshotOf, EntryCmds, ServiceAt, KindAt, Mended, MendedDisk;
    var es := SnapshotOf(services, os);
    if q == 2 * |services| {
      assert es[q..] == [];
      SurvivingNone(d, cmds, failed, at);
    } else {
      SnapshotAt(services, os, q);
      var e, kind := es[q], KindAt(q);
      SlotKind(services, os, q);
      NextEntry(EntryCmds, es, q, cmds, at);
      EntryMends(d, cmds, failed, at, e, kind);
      var next := MendedDisk(d, e, kind, failed, at);
      MendedFrom(services, os, q + 1, next, cmds, failed, at + |EntryCmds(e)|, m);
      MendedReads(d, e, kind, failed, at, ServiceAt(services, m), KindAt(m));
      PlacesApart(services, q, m);
    }
  }

  lemma SlotKind(services: seq<string>, os: OS, m: nat)
    requires m < 2 * |services|
    ensures KindOf(SlotAt(services, os, m)) == Some(KindAt(m)) && SlotAt(services, os, m).scope == ServiceAt(services, m)
  {
  }

  // ---- both ---------------------------------------------------------------

  /** Proxy m after the first n commands of an apply and then a restore with failures. */
  function AfterRollback(services: seq<string>, now: OS, target: string, n: nat, failed: set<nat>, m: nat): Entry
    requires m < 2 * |services|
  {
    var e := SlotAt(services, now, m);
    var (host, port) := SplitTarget(target);
    Mended(e, if m < n then e.(enabled := true, server := host, port := port) else e,
           failed, Place(SnapshotOf(services, now), 0, m))
  }

  lemma RollbackAt(services: seq<string>, now: OS, target: string, n: nat, failed: set<nat>, m: nat)
    requires Distinct(services) && m < 2 * |services|
    ensures SlotAt(services, Runs.RolledBackTo(Mac(services), now, target, n, failed), m)
         == AfterRollback(services, now, target, n, failed, m)
  {
    hide ReadProxy, DoAll, Surviving, RunAll, SlotAt, Mended, SplitTarget, SnapshotOf, ApplyTo, RestoreCmds;
    var (host, port) := SplitTarget(target);
    ApplyAt(services, host, port, m);
    SnapshotAt(services, now, m);
    var cmds := ApplyTo(services, host, port);
    var k := if n <= |cmds| then n else |cmds|;
    assert cmds[..|cmds|] == cmds;
    AppliedAt(services, now, host, port, k, m);
    var es := SnapshotOf(services, now);
    var undo := RestoreCmds(es);
    assert es[0..] == es && undo[0..] == undo;
    MendedFrom(services, now, 0, Disk(RunAll(now, cmds[..k]), None), undo, failed, 0, m);
  }

  /** Every proxy in force is the original one once the apply has stopped at n and the rollback has missed the failing commands. */
  predicate RollbackKeeps(services: seq<string>, now: OS, orig: OS, target: string, n: nat, failed: set<nat>) {
    forall m :: 0 <= m < 2 * |services| ==>
      Forced(AfterRollback(services, now, target, n, failed, m)) == Forced(SlotAt(services, orig, m))
  }

  lemma InForceBySlots(services: seq<string>, a: OS, b: OS)
    ensures Force(services)(a) == Force(services)(b)
        <==> forall m :: 0 <= m < 2 * |services| ==> Forced(SlotAt(services, a, m)) == Forced(SlotAt(services, b, m))
  {
    hide ReadProxy;
    SameInForce(services, a, b);
    if forall m :: 0 <= m < 2 * |services| ==> Forced(SlotAt(services, a, m)) == Forced(SlotAt(services, b, m)) {
      forall svc, kind | svc in services && kind in KINDS
        ensures Effective(a, svc, kind) == Effective(b, svc, kind)
      {
        var i :| 0 <= i < |services| && services[i] == svc;
        var m := 2 * i + if kind == Web then 0 else 1;
        assert ServiceAt(services, m) == svc && KindAt(m) == kind;
        assert Forced(SlotAt(services, a, m)) == Forced(SlotAt(services, b, m));
      }
    }
    if Force(services)(a) == Force(services)(b) {
      forall m | 0 <= m < 2 * |services|
        ensures Forced(SlotAt(services, a, m)) == Forced(SlotAt(services, b, m))
      {
        assert Effective(a, ServiceAt(services, m), KindAt(m)) == Effective(b, ServiceAt(services, m), KindAt(m));
      }
    }
  }

  lemma RollbackKeepsExact(services: seq<string>, now: OS, orig: OS, target: string, n: nat, failed: set<nat>)
    requires Distinct(services)
    ensures Force(services)(Runs.RolledBackTo(Mac(services), now, target, n, failed)) == Force(services)(orig)
        <==> RollbackKeeps(services, now, orig, target, n, failed)
  {
    hide Runs.RolledBackTo, SlotAt, AfterRollback, Forced, SnapshotOf;
    var end := Runs.RolledBackTo(Mac(services), now, target, n, failed);
    InForceBySlots(services, end, orig);
    forall m | 0 <= m < 2 * |services|
      ensures SlotAt(services, end, m) == AfterRollback(services, now, target, n, failed, m)
    {
      RollbackAt(services, now, target, n, failed, m);
    }
  }

  /**
   An Enable that gives up keeps the proxies in force exactly when each is the original one after the commands
   that took effect: those of the apply up to where it stopped, and those of the rollback that did not fail.
   */
  lemma MacRollbackExact(services: seq<string>, s: Runs.Sys, e: Runs.Event)
    requires Distinct(services) && Runs.Inv(Mac(services), Force(services), s) && Runs.Allowed(Mac(services), s, e)
    requires Runs.Copies(Mac(services), s, e) && Runs.GaveUp(Mac(services), s, e)
    ensures Runs.Recoverable(Mac(services), Force(services), s.orig, Runs.After(Mac(services), s, e).disk)
        <==> RollbackKeeps(services, s.disk.os, s.orig, S.TargetOf(e.c.host, e.c.port), e.f.applyStop.value, e.f.restoreFails)
  {
    hide Runs.Recoverable, Runs.Inv, Runs.After, Runs.RolledBackTo, RollbackKeeps, Runs.CallOutcome, Runs.Done, Force, S.TargetOf;
    MacLawful(services);
    Runs.GivenUpExact(Mac(services), Force(services), s, e);
    RollbackKeepsExact(services, s.disk.os, s.orig, S.TargetOf(e.c.host, e.c.port), e.f.applyStop.value, e.f.restoreFails);
  }

  /** A dangerous call on macOS, whatever fails in it, keeps the proxies in force exactly when those it goes by are the original ones. */
  lemma MacHazardExact(services: seq<string>, s: Runs.Sys, e: Runs.Event)
    requires Distinct(services) && Runs.Inv(Mac(services), Force(services), s) && Runs.Allowed(Mac(services), s, e)
    requires Runs.Hazard(Mac(services), s, e) && EnabledHadServers(s.disk.os, services)
    ensures Runs.Recoverable(Mac(services), Force(services), s.orig, Runs.After(Mac(services), s, e).disk)
        <==> if Runs.Copies(Mac(services), s, e) && Runs.GaveUp(Mac(services), s, e)
             then RollbackKeeps(services, s.disk.os, s.orig, S.TargetOf(e.c.host, e.c.port),
                                e.f.applyStop.value, e.f.restoreFails)
             else Force(services)(s.disk.os) == Force(services)(s.orig)
  {
    hide Runs.Recoverable, Runs.Inv, Runs.After, RollbackKeeps, Runs.CallOutcome, Runs.Done, Force, SomeFail, EnabledHadServers,
         S.TargetOf;
    MacLawful(services);
    if Runs.Drops(Mac(services), s, e) {
      Runs.RestoreDrops(Mac(services), Force(services), s, e);
    } else if Runs.GaveUp(Mac(services), s, e) {
      MacRollbackExact(services, s, e);
    } else {
      Runs.TypedNow(Mac(services), Force(services), s);
      SchemaIsTyped(s.disk.os, services);
      EnabledServersSuffice(s.disk.os, services);
      Runs.EnableOverwrites(Mac(services), Force(services), s, e);
    }
  }
}
