/**
 What the system proxy points at (internal/sysproxy/sysproxy.go): after one Enable, and over whole runs. `points`
 says that settings point at a target; `read` and `value` are the parts of settings that an apply writes one by one.
 */
module SysEnable {
  import opened Wrappers
  import opened Settings
  import opened SysProxy
  import Runs = SysRuns

  // ---- one call -----------------------------------------------------------

  /** The call returned without an error. */
  predicate Succeeds(p: Platform, s: Runs.Sys, e: Runs.Event) {
    e.Ran? && Runs.CallOutcome(p, s, e.c, e.f).ok
  }

  /** Enable finds the target it is to point at in memory, and returns at once. */
  predicate Remembered(s: Runs.Sys, e: Runs.Event) {
    e.Ran? && e.c.Enable? && s.mem.snap.Some? && s.mem.target == TargetOf(e.c.host, e.c.port)
  }

  /** Enable succeeds exactly when its target is remembered or nothing that it has to do fails. */
  lemma SucceedsExactly(p: Platform, s: Runs.Sys, e: Runs.Event)
    requires e.Ran? && e.c.Enable?
    ensures Succeeds(p, s, e)
        <==> Remembered(s, e)
             || (!Stops(p.apply(TargetOf(e.c.host, e.c.port)), e.f)
                 && (s.mem.snap.None? ==> !e.f.snapshotFails && !e.f.writeFails))
  {
  }

  /** A whole apply leaves settings that point at its target. */
  ghost predicate Steers(p: Platform, points: (OS, string) -> bool) {
    forall os, t :: points(RunAll(os, p.apply(t)), t)
  }

  lemma FirstWrite(d: Disk, b: Snapshot, cmds: seq<Cmd>)
    ensures DoAll(d, [Write(b)] + Sets(cmds)) == Disk(RunAll(d.os, cmds), Some(b))
  {
    hide RunAll;
    DoAllConcat(d, [Write(b)], Sets(cmds));
    Runs.WriteOnly(d, b);
    DoAllSets(Disk(d.os, Some(b)), cmds);
  }

  lemma LastWrite(d: Disk, b: Snapshot, cmds: seq<Cmd>)
    ensures DoAll(d, Sets(cmds) + [Write(b)]) == Disk(RunAll(d.os, cmds), Some(b))
    ensures DoAll(d, Sets(cmds) + []) == d.(os := RunAll(d.os, cmds))
  {
    hide RunAll;
    DoAllConcat(d, Sets(cmds), [Write(b)]);
    DoAllSets(d, cmds);
    Runs.WriteOnly(d.(os := RunAll(d.os, cmds)), b);
    assert Sets(cmds) + [] == Sets(cmds);
  }

  /** How many of its apply commands an Enable carries out. */
  function Reached(p: Platform, s: Runs.Sys, e: Runs.Event): nat {
    if !e.Ran? || !e.c.Enable? || Remembered(s, e) then 0
    else
      var cmds := p.apply(TargetOf(e.c.host, e.c.port));
      if Stops(cmds, e.f) then e.f.applyStop.value else |cmds|
  }

  /** The settings after an Enable that leaves the proxy on are those of the apply commands it carried out. */
  lemma SettingsAfter(p: Platform, s: Runs.Sys, e: Runs.Event)
    requires Runs.Allowed(p, s, e) && e.Ran? && e.c.Enable? && Runs.After(p, s, e).mem.snap.Some?
    ensures var cmds := p.apply(TargetOf(e.c.host, e.c.port));
            Reached(p, s, e) <= |cmds| && Runs.After(p, s, e).disk.os == RunAll(s.disk.os, cmds[..Reached(p, s, e)])
    ensures s.mem.snap.None? ==> Succeeds(p, s, e)
    ensures Runs.After(p, s, e).mem.target == if Succeeds(p, s, e) then TargetOf(e.c.host, e.c.port) else s.mem.target
  {
    hide DoAll, RunAll, TargetOf;
    var t := TargetOf(e.c.host, e.c.port);
    var cmds := p.apply(t);
    var n := Reached(p, s, e);
    assert cmds[..|cmds|] == cmds;
    NothingRun(s.disk.os);
    Runs.NothingDone(s.disk);
    DoAllSets(s.disk, cmds[..if n <= |cmds| then n else 0]);
    if s.mem.snap.None? {
      FirstWrite(s.disk, Runs.CopyOf(p, s.disk.os, t), cmds);
    } else {
      LastWrite(s.disk, s.mem.snap.value.(target := t), cmds);
    }
  }

  lemma NothingRun(os: OS)
    ensures RunAll(os, []) == os
  {
  }

  /**
   An Enable that returns ok remembers its target. The settings then point at it exactly when the target was not
   remembered already, so that it was applied, or they pointed at it before the call, which then did nothing.
   */
  lemma EnablePointsExactly(p: Platform, points: (OS, string) -> bool, s: Runs.Sys, e: Runs.Event)
    requires Steers(p, points) && Runs.Allowed(p, s, e) && e.Ran? && e.c.Enable? && Succeeds(p, s, e)
    ensures var n, t := Runs.After(p, s, e), TargetOf(e.c.host, e.c.port);
            && n.mem.snap.Some? && n.mem.target == t
            && (points(n.disk.os, t) <==> !Remembered(s, e) || points(s.disk.os, t))
  {
    hide DoAll, RunAll, TargetOf;
    var t := TargetOf(e.c.host, e.c.port);
    StaysOn(p, s, e);
    SettingsAfter(p, s, e);
    assert p.apply(t)[..|p.apply(t)|] == p.apply(t);
    NothingRun(s.disk.os);
    assert p.apply(t)[..0] == [];
    SucceedsExactly(p, s, e);
  }

  lemma StaysOn(p: Platform, s: Runs.Sys, e: Runs.Event)
    requires Runs.Allowed(p, s, e) && e.Ran? && e.c.Enable? && Succeeds(p, s, e)
    ensures Runs.After(p, s, e).mem.snap.Some?
  {
  }

  /**
   After an Enable that applied its target, and whose copy was written, the copy on disk names that target and
   holds the settings to go back to: those before the call, or those kept in memory since the proxy was switched on.
   */
  lemma CopyNamesTarget(p: Platform, s: Runs.Sys, e: Runs.Event)
    requires Runs.Allowed(p, s, e) && e.Ran? && e.c.Enable? && Succeeds(p, s, e) && !Remembered(s, e) && !e.f.writeFails
    ensures var n, t := Runs.After(p, s, e), TargetOf(e.c.host, e.c.port);
            n.disk.backup == n.mem.snap
            && n.disk.backup == Some(match s.mem.snap
                                     case None => Snapshot(p.name, t, p.snapshot(s.disk.os))
                                     case Some(b) => Snapshot(b.platform, t, b.entries))
  {
    hide DoAll, RunAll, TargetOf;
    var t := TargetOf(e.c.host, e.c.port);
    if s.mem.snap.None? {
      FirstWrite(s.disk, Runs.CopyOf(p, s.disk.os, t), p.apply(t));
    } else {
      LastWrite(s.disk, s.mem.snap.value.(target := t), p.apply(t));
    }
  }

  // ---- whole runs ---------------------------------------------------------

  /** Command x of an apply writes part x and no other. */
  ghost predicate Slotted<W(!new)>(p: Platform, slots: nat, read: (OS, nat) -> W, value: (string, nat) -> W) {
    && (forall t :: |p.apply(t)| == slots)
    && (forall os, t, n: nat, x: nat :: n <= slots && x < slots ==>
          read(RunAll(os, p.apply(t)[..n]), x) == if x < n then value(t, x) else read(os, x))
  }

  /** The target of the last Enable before step i that got as far as part x. */
  ghost function LastWriter(p: Platform, ss: seq<Runs.Sys>, es: seq<Runs.Event>, i: nat, x: nat): Option<string>
    requires i <= |es| <= |ss|
  {
    if i == 0 then None
    else if x < Reached(p, ss[i - 1], es[i - 1]) then
      var e := es[i - 1];
      Some(TargetOf(e.c.host, e.c.port))
    else LastWriter(p, ss, es, i - 1, x)
  }

  lemma {:induction false} DownIsOff(p: Platform, ss: seq<Runs.Sys>, es: seq<Runs.Event>, i: nat)
    requires Runs.IsRun(p, ss, es) && i < |ss|
    ensures !ss[i].up ==> ss[i].mem == OFF
  {
    hide Runs.CallOutcome;
    if 0 < i {
      DownIsOff(p, ss, es, i - 1);
      assert Runs.Allowed(p, ss[i - 1], es[i - 1]) && ss[i - 1 + 1] == Runs.After(p, ss[i - 1], es[i - 1]);
    }
  }

  /** The proxy is on after an event: it was an Enable, which left it on. */
  lemma OnByEnable(p: Platform, s: Runs.Sys, e: Runs.Event)
    requires Runs.Allowed(p, s, e) && Runs.After(p, s, e).mem.snap.Some? && (!s.up ==> s.mem == OFF)
    ensures e.Ran? && e.c.Enable?
  {
    hide DoAll, Surviving, SomeFail;
  }

  /** While the proxy is on, each part of the settings is what the last Enable to reach it put there. */
  lemma {:induction false} PartsAreWritten<W(!new)>(p: Platform, slots: nat, read: (OS, nat) -> W, value: (string, nat) -> W,
                                                    ss: seq<Runs.Sys>, es: seq<Runs.Event>, i: nat, x: nat)
    requires Slotted(p, slots, read, value) && Runs.IsRun(p, ss, es) && i < |ss| && ss[i].mem.snap.Some? && x < slots
    ensures var w := LastWriter(p, ss, es, i, x); w.Some? && read(ss[i].disk.os, x) == value(w.value, x)
  {
    hide Runs.After, Succeeds, RunAll, Reached, TargetOf;
    if 0 < i {
      var s, e := ss[i - 1], es[i - 1];
      assert Runs.Allowed(p, s, e) && ss[i - 1 + 1] == Runs.After(p, s, e);
      DownIsOff(p, ss, es, i - 1);
      OnByEnable(p, s, e);
      SettingsAfter(p, s, e);
      assert |p.apply(TargetOf(e.c.host, e.c.port))| == slots;
      if s.mem.snap.None? {
        AllReached(p, s, e);
      } else {
        PartsAreWritten(p, slots, read, value, ss, es, i - 1, x);
      }
    }
  }

  lemma AllReached(p: Platform, s: Runs.Sys, e: Runs.Event)
    requires e.Ran? && e.c.Enable? && s.mem.snap.None? && Succeeds(p, s, e)
    ensures Reached(p, s, e) == |p.apply(TargetOf(e.c.host, e.c.port))|
  {
  }

  ghost predicate PointAt<W(!new)>(slots: nat, read: (OS, nat) -> W, value: (string, nat) -> W, os: OS, t: string) {
    forall x: nat :: x < slots ==> read(os, x) == value(t, x)
  }

  /**
   In every run, while the proxy is on, the settings point at the target it remembers exactly when the last Enable to
   reach each part wrote there what that target asks for.
   */
  lemma RunPointsExactly<W(!new)>(p: Platform, slots: nat, read: (OS, nat) -> W, value: (string, nat) -> W,
                                  ss: seq<Runs.Sys>, es: seq<Runs.Event>, i: nat)
    requires Slotted(p, slots, read, value) && Runs.IsRun(p, ss, es) && i < |ss| && ss[i].mem.snap.Some?
    ensures PointAt(slots, read, value, ss[i].disk.os, ss[i].mem.target)
        <==> forall x: nat :: x < slots ==>
               LastWriter(p, ss, es, i, x).Some?
               && value(LastWriter(p, ss, es, i, x).value, x) == value(ss[i].mem.target, x)
  {
    hide LastWriter, Slotted;
    forall x: nat | x < slots
      ensures var w := LastWriter(p, ss, es, i, x); w.Some? && read(ss[i].disk.os, x) == value(w.value, x)
    {
      PartsAreWritten(p, slots, read, value, ss, es, i, x);
    }
  }

  /** A re-point that some command cut off: it returned an error, and memory kept the target before. */
  predicate CutOff(p: Platform, s: Runs.Sys, e: Runs.Event) {
    && e.Ran? && e.c.Enable? && s.mem.snap.Some? && !Remembered(s, e)
    && Stops(p.apply(TargetOf(e.c.host, e.c.port)), e.f)
  }

  lemma {:induction false} WriterIsTarget(p: Platform, ss: seq<Runs.Sys>, es: seq<Runs.Event>, i: nat, x: nat)
    requires Runs.IsRun(p, ss, es) && i < |ss| && ss[i].mem.snap.Some? && (forall t :: x < |p.apply(t)|)
    requires forall j :: 0 <= j < i ==> !CutOff(p, ss[j], es[j])
    ensures LastWriter(p, ss, es, i, x) == Some(ss[i].mem.target)
  {
    hide Runs.After, RunAll, TargetOf;
    if 0 < i {
      var s, e := ss[i - 1], es[i - 1];
      assert Runs.Allowed(p, s, e) && ss[i - 1 + 1] == Runs.After(p, s, e);
      DownIsOff(p, ss, es, i - 1);
      OnByEnable(p, s, e);
      SettingsAfter(p, s, e);
      SucceedsExactly(p, s, e);
      if Remembered(s, e) {
        WriterIsTarget(p, ss, es, i - 1, x);
      } else if s.mem.snap.None? {
        AllReached(p, s, e);
      }
    }
  }

  /** So where no re-point is cut off, the settings point at the target whenever the proxy is on. */
  lemma RunPoints<W(!new)>(p: Platform, slots: nat, read: (OS, nat) -> W, value: (string, nat) -> W,
                           ss: seq<Runs.Sys>, es: seq<Runs.Event>, i: nat)
    requires Slotted(p, slots, read, value) && Runs.IsRun(p, ss, es) && i < |ss| && ss[i].mem.snap.Some?
    requires forall j :: 0 <= j < i ==> !CutOff(p, ss[j], es[j])
    ensures PointAt(slots, read, value, ss[i].disk.os, ss[i].mem.target)
  {
    hide LastWriter, CutOff;
    assert forall t :: |p.apply(t)| == slots;
    forall x: nat | x < slots
      ensures LastWriter(p, ss, es, i, x) == Some(ss[i].mem.target)
    {
      WriterIsTarget(p, ss, es, i, x);
    }
    RunPointsExactly(p, slots, read, value, ss, es, i);
  }
}
