/** What Enable puts in force on GNOME and macOS (internal/sysproxy/linux.go, darwin.go). */
module EnableLaws {
  import opened Wrappers
  import opened Settings
  import opened Targets
  import opened SysEnable
  import D = DarwinProxy
  import B = DarwinRollback
  import L = LinuxProxy
  import Runs = SysRuns
  import S = SysProxy
  import Decimal

  predicate Int64(n: int) { -Decimal.MAX_INT - 1 <= n <= Decimal.MAX_INT }

  /** The host an Enable is for. */
  function HostOf(host: string): string {
    TrimBrackets(if host == "" then "127.0.0.1" else host)
  }

  lemma TargetSplits(host: string, port: int)
    requires Int64(port)
    ensures SplitTarget(S.TargetOf(host, port)) == (HostOf(host), port)
  {
    hide SplitTarget, TrimBrackets;
    SplitOfTarget(if host == "" then "127.0.0.1" else host, port);
  }

  // ---- GNOME --------------------------------------------------------------

  /** The proxy is in manual mode, and both kinds of traffic go to this host and port. */
  predicate GnomeAt(os: OS, host: string, port: int) {
    && L.MODE in os && os[L.MODE] == Str("manual")
    && L.HTTP_HOST in os && os[L.HTTP_HOST] == Str(host) && L.HTTP_PORT in os && os[L.HTTP_PORT] == Num(port)
    && L.HTTPS_HOST in os && os[L.HTTPS_HOST] == Str(host) && L.HTTPS_PORT in os && os[L.HTTPS_PORT] == Num(port)
  }

  function GnomePoints(): (OS, string) -> bool {
    (os, t) => GnomeAt(os, SplitTarget(t).0, SplitTarget(t).1)
  }

  lemma RunFive(os: OS, a: Cmd, b: Cmd, c: Cmd, d: Cmd, e: Cmd)
    ensures RunAll(os, [a, b, c, d, e]) == os + a + b + c + d + e
  {
    hide RunAll;
    var cmds := [a, b, c, d, e];
    NothingRun(os);
    assert cmds[..5] == cmds && cmds[..0] == [];
    RunOne(os, cmds, 1);
    RunOne(os, cmds, 2);
    RunOne(os, cmds, 3);
    RunOne(os, cmds, 4);
    RunOne(os, cmds, 5);
  }

  lemma FiveWritten(os: OS, host: string, port: int)
    ensures GnomeAt(os + map[L.MODE := Str("manual")] + map[L.HTTP_HOST := Str(host)] + map[L.HTTP_PORT := Num(port)]
                    + map[L.HTTPS_HOST := Str(host)] + map[L.HTTPS_PORT := Num(port)], host, port)
  {
  }

  lemma GnomeSteers()
    ensures Steers(L.GNOME, GnomePoints())
  {
    hide RunAll, SplitTarget, GnomeAt;
    forall os, t
      ensures GnomePoints()(RunAll(os, L.GNOME.apply(t)), t)
    {
      var (host, port) := SplitTarget(t);
      RunFive(os, map[L.MODE := Str("manual")], map[L.HTTP_HOST := Str(host)], map[L.HTTP_PORT := Num(port)],
              map[L.HTTPS_HOST := Str(host)], map[L.HTTPS_PORT := Num(port)]);
      FiveWritten(os, host, port);
    }
  }

  /**
   On GNOME an Enable that returns ok leaves the mode manual and both proxies at its host, without brackets, and
   port: exactly when that target was not remembered, or they were so already.
   */
  lemma GnomeEnables(s: Runs.Sys, host: string, port: int, f: S.Faults)
    requires s.up && Int64(port) && Succeeds(L.GNOME, s, Runs.Ran(Runs.Enable(host, port), f))
    ensures var n := Runs.After(L.GNOME, s, Runs.Ran(Runs.Enable(host, port), f));
            GnomeAt(n.disk.os, HostOf(host), port)
            <==> s.mem.snap.None? || s.mem.target != S.TargetOf(host, port) || GnomeAt(s.disk.os, HostOf(host), port)
  {
    hide Runs.After, Succeeds, Steers, SplitTarget, GnomeAt, S.TargetOf;
    GnomeSteers();
    TargetSplits(host, port);
    EnablePointsExactly(L.GNOME, GnomePoints(), s, Runs.Ran(Runs.Enable(host, port), f));
  }

  function GnomeRead(): (OS, nat) -> Option<Value> {
    (os: OS, x: nat) => if x < 5 && L.FIELDS[x] in os then Some(os[L.FIELDS[x]]) else None
  }

  function GnomeValue(): (string, nat) -> Option<Value> {
    (t: string, x: nat) => if x < 5 then Some(L.ValuesApplied(t)[x]) else None
  }

  lemma {:induction false} GnomePart(os: OS, t: string, n: nat, x: nat)
    requires n <= 5 && x < 5 && |L.ApplyCmds(t)| == 5
    ensures GnomeRead()(RunAll(os, L.ApplyCmds(t)[..n]), x) == if x < n then GnomeValue()(t, x) else GnomeRead()(os, x)
  {
    hide L.ApplyCmds, L.ValuesApplied;
    if 0 < n {
      GnomePart(os, t, n - 1, x);
      RunOne(os, L.ApplyCmds(t), n);
      L.ApplyWrites(t);
      hide RunAll;
    }
  }

  lemma GnomeSlotted()
    ensures Slotted(L.GNOME, 5, GnomeRead(), GnomeValue())
  {
    hide RunAll, L.ApplyCmds, GnomeRead, GnomeValue;
    forall t ensures |L.GNOME.apply(t)| == 5 { L.ApplyIsFive(t); }
    forall os, t, n: nat, x: nat | n <= 5 && x < 5
      ensures GnomeRead()(RunAll(os, L.GNOME.apply(t)[..n]), x) == if x < n then GnomeValue()(t, x) else GnomeRead()(os, x)
    {
      L.ApplyIsFive(t);
      GnomePart(os, t, n, x);
    }
  }

  lemma GnomeParts(os: OS, t: string)
    ensures PointAt(5, GnomeRead(), GnomeValue(), os, t) <==> GnomePoints()(os, t)
  {
    var v := L.ValuesApplied(t);
    if PointAt(5, GnomeRead(), GnomeValue(), os, t) {
      assert forall x: nat :: x < 5 ==> GnomeRead()(os, x) == Some(v[x]);
      assert GnomeRead()(os, 0) == Some(v[0]) && GnomeRead()(os, 1) == Some(v[1]) && GnomeRead()(os, 2) == Some(v[2]);
      assert GnomeRead()(os, 3) == Some(v[3]) && GnomeRead()(os, 4) == Some(v[4]);
    }
  }

  /**
   In every run on GNOME, while the proxy is on, the settings point at the remembered target exactly when each of the
   five fields was last written with what that target asks for; and always so where no re-point was cut off.
   */
  lemma GnomeRunPointsExactly(ss: seq<Runs.Sys>, es: seq<Runs.Event>, i: nat)
    requires Runs.IsRun(L.GNOME, ss, es) && i < |ss| && ss[i].mem.snap.Some?
    ensures var (host, port) := SplitTarget(ss[i].mem.target);
            && (GnomeAt(ss[i].disk.os, host, port)
                <==> forall x: nat :: x < 5 ==>
                       var w := LastWriter(L.GNOME, ss, es, i, x);
                       w.Some? && L.ValuesApplied(w.value)[x] == L.ValuesApplied(ss[i].mem.target)[x])
            && ((forall j :: 0 <= j < i ==> !CutOff(L.GNOME, ss[j], es[j])) ==> GnomeAt(ss[i].disk.os, host, port))
  {
    hide LastWriter, CutOff, Slotted, PointAt, SplitTarget, L.ValuesApplied, GnomeAt;
    GnomeSlotted();
    RunPointsExactly(L.GNOME, 5, GnomeRead(), GnomeValue(), ss, es, i);
    GnomeParts(ss[i].disk.os, ss[i].mem.target);
    if forall j :: 0 <= j < i ==> !CutOff(L.GNOME, ss[j], es[j]) {
      RunPoints(L.GNOME, 5, GnomeRead(), GnomeValue(), ss, es, i);
    }
    var now := ss[i].mem.target;
    forall x: nat | x < 5
      ensures var w := LastWriter(L.GNOME, ss, es, i, x);
              w.Some? ==> (GnomeValue()(w.value, x) == GnomeValue()(now, x) <==> L.ValuesApplied(w.value)[x] == L.ValuesApplied(now)[x])
    {
    }
  }

  // ---- the input for which Enable does nothing ----------------------------

  const CLEAN := S.Faults(false, false, None, {})

  /** Started, switched on at a, moved to b with the third command failing, and asked for a again. */
  const ASTRAY: seq<Runs.Event> := [
    Runs.Ran(Runs.Recover, CLEAN), Runs.Ran(Runs.Enable("a", 1), CLEAN),
    Runs.Ran(Runs.Enable("b", 2), S.Faults(false, false, Some(2), {})), Runs.Ran(Runs.Enable("a", 1), CLEAN)]

  lemma AstrayStart(os: OS)
    ensures var s := Runs.FirstBoot(os);
            Runs.Allowed(L.GNOME, s, ASTRAY[0]) && Runs.After(L.GNOME, s, ASTRAY[0]) == s.(up := true)
  {
    Runs.NothingDone(Disk(os, None));
  }

  lemma AstrayOn(s: Runs.Sys)
    requires s.up && s.mem == S.OFF
    ensures var n := Runs.After(L.GNOME, s, ASTRAY[1]);
            && n.up && n.mem.snap.Some? && n.mem.target == S.TargetOf("a", 1)
  {
    hide DoAll, S.TargetOf;
    SucceedsExactly(L.GNOME, s, ASTRAY[1]);
    SettingsAfter(L.GNOME, s, ASTRAY[1]);
  }

  lemma TargetsDiffer()
    ensures S.TargetOf("a", 1) != S.TargetOf("b", 2)
  {
    TargetSplits("a", 1);
    TargetSplits("b", 2);
    TrimExact("a");
    TrimExact("b");
    hide SplitTarget, TrimBrackets;
  }

  lemma AstrayCut(s: Runs.Sys)
    requires s.up && s.mem.snap.Some? && s.mem.target == S.TargetOf("a", 1)
    ensures var n := Runs.After(L.GNOME, s, ASTRAY[2]);
            n.up && n.mem == s.mem && L.HTTP_HOST in n.disk.os && n.disk.os[L.HTTP_HOST] == Str("b")
  {
    hide DoAll, RunAll, S.TargetOf, TrimBrackets, SplitTarget;
    TargetsDiffer();
    TargetSplits("b", 2);
    TrimExact("b");
    var t := S.TargetOf("b", 2);
    L.ApplyIsFive(t);
    SettingsAfter(L.GNOME, s, ASTRAY[2]);
    var cmds := L.ApplyCmds(t);
    RunOne(s.disk.os, cmds, 2);
    assert cmds[1] == map[L.HTTP_HOST := Str("b")];
  }

  lemma AstrayAgain(s: Runs.Sys)
    requires s.up && s.mem.snap.Some? && s.mem.target == S.TargetOf("a", 1)
    ensures Succeeds(L.GNOME, s, ASTRAY[3]) && Runs.After(L.GNOME, s, ASTRAY[3]) == s
  {
    hide S.TargetOf;
    Runs.NothingDone(s.disk);
  }

  /** The last Enable of that run returns ok and remembers a, while plain HTTP goes to b. */
  lemma EnableCanDoNothing(os: OS) returns (ss: seq<Runs.Sys>)
    ensures Runs.IsRun(L.GNOME, ss, ASTRAY) && Succeeds(L.GNOME, ss[3], ASTRAY[3])
    ensures ss[4].mem.target == S.TargetOf("a", 1) && L.HTTP_HOST in ss[4].disk.os
    ensures ss[4].disk.os[L.HTTP_HOST] == Str("b") && !GnomeAt(ss[4].disk.os, "a", 1)
  {
    hide S.TargetOf, Runs.After, Succeeds;
    var s0 := Runs.FirstBoot(os);
    AstrayStart(os);
    var s1 := Runs.After(L.GNOME, s0, ASTRAY[0]);
    AstrayOn(s1);
    var s2 := Runs.After(L.GNOME, s1, ASTRAY[1]);
    AstrayCut(s2);
    var s3 := Runs.After(L.GNOME, s2, ASTRAY[2]);
    AstrayAgain(s3);
    ss := [s0, s1, s2, s3, s3];
  }

  // ---- macOS --------------------------------------------------------------

  /** Every service sends both kinds of traffic to this host and port. */
  predicate MacAt(services: seq<string>, os: OS, host: string, port: int) {
    forall svc, kind :: svc in services && kind in D.KINDS ==> D.Effective(os, svc, kind) == Some((host, port))
  }

  function MacPoints(services: seq<string>): (OS, string) -> bool {
    (os, t) => MacAt(services, os, SplitTarget(t).0, SplitTarget(t).1)
  }

  lemma {:induction false} AppliedLeaves(services: seq<string>, os: OS, host: string, port: int, svc: string, kind: Kind)
    requires kind in D.KINDS
    ensures var e := D.ReadProxy(RunAll(os, D.ApplyTo(services, host, port)), svc, kind);
            if svc in services then D.Forced(e) == Some((host, port)) else e == D.ReadProxy(os, svc, kind)
  {
    hide D.ReadProxy, D.SetProxy, RunAll;
    if services == [] {
      NothingRun(os);
    } else {
      var first, rest := services[0], services[1..];
      var web, secure := D.SetProxy(first, Web, host, port), D.SetProxy(first, Secure, host, port);
      D.RunConcat(os, [web, secure], D.ApplyTo(rest, host, port));
      RunTwo(os, web, secure);
      B.ProxySet(os, first, Web, host, port, svc, kind);
      B.ProxySet(os + web, first, Secure, host, port, svc, kind);
      AppliedLeaves(rest, os + web + secure, host, port, svc, kind);
      assert svc in services <==> svc == first || svc in rest;
    }
  }

  lemma RunTwo(os: OS, a: Cmd, b: Cmd)
    ensures RunAll(os, [a, b]) == os + a + b
  {
    var cmds := [a, b];
    assert cmds[..2] == cmds && cmds[..0] == [];
    RunOne(os, cmds, 1);
    RunOne(os, cmds, 2);
  }

  lemma MacSteers(services: seq<string>)
    ensures Steers(D.Mac(services), MacPoints(services))
  {
    hide RunAll, D.ApplyTo, D.ReadProxy;
    forall os, t
      ensures MacPoints(services)(RunAll(os, D.Mac(services).apply(t)), t)
    {
      var (host, port) := SplitTarget(t);
      forall svc, kind | svc in services && kind in D.KINDS
        ensures D.Effective(RunAll(os, D.ApplyTo(services, host, port)), svc, kind) == Some((host, port))
      {
        AppliedLeaves(services, os, host, port, svc, kind);
      }
    }
  }

  /** On macOS, so do the web and the secure proxy of every service. */
  lemma MacEnables(services: seq<string>, s: Runs.Sys, host: string, port: int, f: S.Faults)
    requires s.up && Int64(port) && Succeeds(D.Mac(services), s, Runs.Ran(Runs.Enable(host, port), f))
    ensures var n := Runs.After(D.Mac(services), s, Runs.Ran(Runs.Enable(host, port), f));
            MacAt(services, n.disk.os, HostOf(host), port)
            <==> s.mem.snap.None? || s.mem.target != S.TargetOf(host, port) || MacAt(services, s.disk.os, HostOf(host), port)
  {
    hide Runs.After, Succeeds, Steers, SplitTarget, MacAt, S.TargetOf;
    MacSteers(services);
    TargetSplits(host, port);
    EnablePointsExactly(D.Mac(services), MacPoints(services), s, Runs.Ran(Runs.Enable(host, port), f));
  }

  function MacRead(services: seq<string>): (OS, nat) -> Option<(string, int)> {
    (os: OS, m: nat) => if m < 2 * |services| then D.Forced(B.SlotAt(services, os, m)) else None
  }

  function MacValue(): (string, nat) -> Option<(string, int)> {
    (t: string, m: nat) => Some(SplitTarget(t))
  }

  lemma MacSlotted(services: seq<string>)
    requires B.Distinct(services)
    ensures Slotted(D.Mac(services), 2 * |services|, MacRead(services), MacValue())
  {
    hide RunAll, D.ApplyTo, B.SlotAt, SplitTarget;
    forall os, t, n: nat, m: nat | n <= 2 * |services| && m < 2 * |services|
      ensures MacRead(services)(RunAll(os, D.Mac(services).apply(t)[..n]), m)
           == if m < n then MacValue()(t, m) else MacRead(services)(os, m)
    {
      var (host, port) := SplitTarget(t);
      B.AppliedAt(services, os, host, port, n, m);
    }
  }

  lemma MacParts(services: seq<string>, os: OS, t: string)
    ensures PointAt(2 * |services|, MacRead(services), MacValue(), os, t) <==> MacPoints(services)(os, t)
  {
    hide D.ReadProxy, SplitTarget;
    if PointAt(2 * |services|, MacRead(services), MacValue(), os, t) {
      forall svc, kind | svc in services && kind in D.KINDS
        ensures D.Effective(os, svc, kind) == Some(SplitTarget(t))
      {
        var i :| 0 <= i < |services| && services[i] == svc;
        var m := 2 * i + if kind == Web then 0 else 1;
        assert B.ServiceAt(services, m) == svc && B.KindAt(m) == kind;
        assert MacRead(services)(os, m) == MacValue()(t, m);
      }
    }
    if MacPoints(services)(os, t) {
      forall m: nat | m < 2 * |services|
        ensures MacRead(services)(os, m) == MacValue()(t, m)
      {
        assert D.Effective(os, B.ServiceAt(services, m), B.KindAt(m)) == Some(SplitTarget(t));
      }
    }
  }

  /** The same over runs on macOS, proxy by proxy. */
  lemma MacRunPointsExactly(services: seq<string>, ss: seq<Runs.Sys>, es: seq<Runs.Event>, i: nat)
    requires B.Distinct(services) && Runs.IsRun(D.Mac(services), ss, es) && i < |ss| && ss[i].mem.snap.Some?
    ensures var (host, port) := SplitTarget(ss[i].mem.target);
            && (MacAt(services, ss[i].disk.os, host, port)
                <==> forall m: nat :: m < 2 * |services| ==>
                       var w := LastWriter(D.Mac(services), ss, es, i, m);
                       w.Some? && SplitTarget(w.value) == (host, port))
            && ((forall j :: 0 <= j < i ==> !CutOff(D.Mac(services), ss[j], es[j])) ==>
                  MacAt(services, ss[i].disk.os, host, port))
  {
    hide LastWriter, CutOff, Slotted, PointAt, SplitTarget, MacAt;
    var p := D.Mac(services);
    MacSlotted(services);
    RunPointsExactly(p, 2 * |services|, MacRead(services), MacValue(), ss, es, i);
    MacParts(services, ss[i].disk.os, ss[i].mem.target);
    if forall j :: 0 <= j < i ==> !CutOff(p, ss[j], es[j]) {
      RunPoints(p, 2 * |services|, MacRead(services), MacValue(), ss, es, i);
    }
    forall m: nat, w: string
      ensures MacValue()(w, m) == Some(SplitTarget(w))
    {
    }
  }
}
