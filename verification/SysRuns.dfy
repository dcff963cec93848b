/**
 The system proxy switch over whole runs (internal/sysproxy/sysproxy.go): calls, failures, crashes
 between any two effects, and the user's own edits. `see` says what of the settings has to come back:
 all of them, or only the proxies in force.
 */
module SysRuns {
  import opened Wrappers
  import opened Settings
  import opened SysProxy

  // ---- every disk state along the way -------------------------------------

  /** Restoring the entries brings the original back from wherever the platform can have taken it. */
  ghost predicate BringsBack<V>(p: Platform, see: OS -> V, orig: OS, entries: seq<Entry>) {
    && Within(p.restore(entries), p.keys)
    && forall os :: Near(p, orig, os) ==> see(RunAll(os, p.restore(entries))) == see(orig)
  }

  ghost predicate Keeps<V>(p: Platform, see: OS -> V, orig: OS, b: Snapshot) {
    b.platform == p.name && BringsBack(p, see, orig, b.entries)
  }

  /** Either the original is in force, or the recovery copy can bring it back. */
  ghost predicate Recoverable<V>(p: Platform, see: OS -> V, orig: OS, d: Disk) {
    && Near(p, orig, d.os)
    && match d.backup
       case None => see(d.os) == see(orig)
       case Some(b) => Keeps(p, see, orig, b)
  }

  /** Effects that never endanger the original once a copy of it is on disk. */
  ghost predicate Harmless<V>(p: Platform, see: OS -> V, orig: OS, es: seq<Effect>) {
    forall i :: 0 <= i < |es| ==>
      match es[i]
      case Set(cmd) => InType(cmd, p.keys)
      case Write(b) => Keeps(p, see, orig, b)
      case Remove => false
  }

  lemma {:induction false} HarmlessIsSafe<V>(p: Platform, see: OS -> V, orig: OS, d: Disk, es: seq<Effect>)
    requires Recoverable(p, see, orig, d) && Harmless(p, see, orig, es) && p.keys <= orig.Keys
    requires d.backup.Some? || es == [] || es[0].Write?
    ensures Recoverable(p, see, orig, DoAll(d, es))
    ensures es != [] ==> DoAll(d, es).backup.Some?
  {
    hide Keeps;
    if es != [] {
      HarmlessIsSafe(p, see, orig, d, es[..|es| - 1]);
      assert |es| == 1 ==> DoAll(d, es[..0]) == d;
    }
  }

  /** A safe body, then at most the removal of a copy no longer needed: safe at every prefix. */
  lemma EveryPrefixIsSafe<V>(p: Platform, see: OS -> V, orig: OS, d: Disk, body: seq<Effect>, tail: seq<Effect>, n: nat)
    requires Recoverable(p, see, orig, d) && Harmless(p, see, orig, body) && p.keys <= orig.Keys
    requires d.backup.Some? || body == [] || body[0].Write?
    requires tail == [] || (tail == [Remove] && see(DoAll(d, body).os) == see(orig))
    requires n <= |body + tail|
    ensures Recoverable(p, see, orig, DoAll(d, (body + tail)[..n]))
    ensures DoAll(d, body + tail) == if tail == [] then DoAll(d, body) else DoAll(d, body).(backup := None)
  {
    hide Keeps, Harmless;
    DoAllConcat(d, body, tail);
    assert tail == [Remove] ==> tail[..0] == [];
    HarmlessIsSafe(p, see, orig, d, body);
    if n <= |body| {
      assert (body + tail)[..n] == body[..n];
      HarmlessPrefix(p, see, orig, body, n);
      HarmlessIsSafe(p, see, orig, d, body[..n]);
    } else {
      assert (body + tail)[..n] == body + tail;
    }
  }

  lemma HarmlessPrefix<V>(p: Platform, see: OS -> V, orig: OS, es: seq<Effect>, n: nat)
    requires Harmless(p, see, orig, es) && n <= |es|
    ensures Harmless(p, see, orig, es[..n])
  {
    hide Keeps;
  }

  lemma SetsAreHarmless<V>(p: Platform, see: OS -> V, orig: OS, cmds: seq<Cmd>)
    requires Within(cmds, p.keys)
    ensures Harmless(p, see, orig, Sets(cmds))
  {
  }

  /** Whichever commands of a restore fail, those that do not are harmless. */
  lemma {:induction false} SurvivorsAreHarmless<V>(p: Platform, see: OS -> V, orig: OS, cmds: seq<Cmd>, failed: set<nat>, i: nat)
    requires Within(cmds, p.keys)
    ensures Harmless(p, see, orig, Surviving(cmds, failed, i))
    decreases |cmds| - i
  {
    hide Surviving;
    SurvivingUnfolds(cmds, failed, i);
    if i < |cmds| {
      SurvivorsAreHarmless(p, see, orig, cmds, failed, i + 1);
      assert InType(cmds[i], p.keys);
    }
  }

  /** The undo every operation relies on: when no command fails, the original is back. */
  lemma UndoBringsBack<V>(p: Platform, see: OS -> V, orig: OS, d: Disk, entries: seq<Entry>, failed: set<nat>)
    requires BringsBack(p, see, orig, entries) && Near(p, orig, d.os)
    requires !SomeFail(p.restore(entries), failed)
    ensures var cmds := p.restore(entries);
            Surviving(cmds, failed, 0) == Sets(cmds) && see(DoAll(d, Sets(cmds)).os) == see(orig)
  {
    var cmds := p.restore(entries);
    AllSurvive(cmds, failed, 0);
    assert cmds[0..] == cmds;
    DoAllSets(d, cmds);
  }

  // ---- the machine --------------------------------------------------------

  datatype Call = Enable(host: string, port: int) | Restore | Recover

  /** `orig` is what the user last chose, `up` says that a process is running. */
  datatype Sys = Sys(disk: Disk, up: bool, mem: Mem, orig: OS)

  datatype Event =
    | Ran(c: Call, f: Faults)
    | Crashed(c: Call, f: Faults, done: nat)   // after `done` effects
    | Edited(os: OS)                           // the user changes the settings

  function CallOutcome(p: Platform, s: Sys, c: Call, f: Faults): Outcome {
    match c
    case Enable(host, port) => EnableOutcome(p, true, s.disk, s.mem, host, port, f)
    case Restore => RestoreOutcome(p, true, s.mem, f)
    case Recover => RecoverOutcome(p, true, s.disk, s.mem, f)
  }

  /** A process starts with RecoverStale and calls it only then; edits happen while the proxy is off. */
  predicate Allowed(p: Platform, s: Sys, e: Event) {
    match e
    case Ran(c, f) => s.up <==> !c.Recover?
    case Crashed(c, f, done) => (s.up <==> !c.Recover?) && done <= |CallOutcome(p, s, c, f).effects|
    case Edited(os) => s.mem.snap.None? && s.disk.backup.None?
  }

  function After(p: Platform, s: Sys, e: Event): Sys
    requires Allowed(p, s, e)
  {
    match e
    case Ran(c, f) =>
      var o := CallOutcome(p, s, c, f);
      Sys(DoAll(s.disk, o.effects), true, o.mem, s.orig)
    case Crashed(c, f, done) =>
      Sys(DoAll(s.disk, CallOutcome(p, s, c, f).effects[..done]), false, OFF, s.orig)
    case Edited(os) => s.(disk := Disk(os, None), orig := os)
  }

  function FirstBoot(os: OS): Sys {
    Sys(Disk(os, None), false, OFF, os)
  }

  ghost predicate IsRun(p: Platform, ss: seq<Sys>, es: seq<Event>) {
    && |ss| == |es| + 1 && ss[0] == FirstBoot(ss[0].orig)
    && forall i :: 0 <= i < |es| ==> Allowed(p, ss[i], es[i]) && ss[i + 1] == After(p, ss[i], es[i])
  }

  /** What the user starts from, and chooses later, can be undone to. */
  ghost predicate Choices<V>(p: Platform, see: OS -> V, ss: seq<Sys>, es: seq<Event>) {
    && ss != [] && Undoable(p, see, ss[0].orig)
    && forall i :: 0 <= i < |es| && es[i].Edited? ==> Undoable(p, see, es[i].os)
  }

  ghost predicate Inv<V>(p: Platform, see: OS -> V, s: Sys) {
    && Undoable(p, see, s.orig)
    && Recoverable(p, see, s.orig, s.disk)
    && (s.up && s.mem.snap.Some? ==> Keeps(p, see, s.orig, s.mem.snap.value) && s.disk.backup.Some?)
    && (s.up && s.mem.snap.None? ==> s.mem == OFF)
    && (!s.up ==> s.mem == OFF)
  }

  // ---- which calls lose the original --------------------------------------

  /** How many of a call's effects take place. */
  function Done(p: Platform, s: Sys, e: Event): nat {
    match e
    case Ran(c, f) => |CallOutcome(p, s, c, f).effects|
    case Crashed(_, _, done) => done
    case Edited(_) => 0
  }

  /** The recovery copy that Enable writes from the settings as they are. */
  function CopyOf(p: Platform, os: OS, target: string): Snapshot {
    Snapshot(p.name, target, p.snapshot(os))
  }

  /** Enable, with nothing in memory, gets as far as writing the copy. */
  predicate Copies(p: Platform, s: Sys, e: Event) {
    && !e.Edited? && e.c.Enable? && s.mem.snap.None? && !e.f.snapshotFails && !e.f.writeFails && 1 <= Done(p, s, e)
  }

  /** It has gone on to roll a failed apply back and to remove the copy. */
  predicate GaveUp(p: Platform, s: Sys, e: Event)
    requires Copies(p, s, e)
  {
    && Stops(p.apply(TargetOf(e.c.host, e.c.port)), e.f)
    && Done(p, s, e) == |CallOutcome(p, s, e.c, e.f).effects|
  }

  /** The settings after n commands of an apply, and then the restore's commands but for the failing ones. */
  function RolledBackTo(p: Platform, os: OS, target: string, n: nat, failed: set<nat>): OS {
    var cmds := p.apply(target);
    var now := RunAll(os, if n <= |cmds| then cmds[..n] else cmds);
    DoAll(Disk(now, None), Surviving(p.restore(p.snapshot(os)), failed, 0)).os
  }

  /** What a copying Enable that gives up has made of the settings. */
  function GivenUp(p: Platform, s: Sys, e: Event): OS
    requires Copies(p, s, e) && GaveUp(p, s, e)
  {
    RolledBackTo(p, s.disk.os, TargetOf(e.c.host, e.c.port), e.f.applyStop.value, e.f.restoreFails)
  }

  /** Restore, with nothing in memory, removes the copy. */
  predicate Drops(p: Platform, s: Sys, e: Event) {
    !e.Edited? && e.c.Restore? && s.mem.snap.None? && 1 <= Done(p, s, e)
  }

  /**
   The dangerous calls, as a caller can tell them: an Enable with nothing in memory while a copy is
   on disk, or whose rollback fails in part; a Restore with nothing in memory while a copy is on disk.
   */
  predicate Hazard(p: Platform, s: Sys, e: Event) {
    || (Copies(p, s, e)
        && (s.disk.backup.Some?
            || (GaveUp(p, s, e) && SomeFail(p.restore(p.snapshot(s.disk.os)), e.f.restoreFails))))
    || (Drops(p, s, e) && s.disk.backup.Some?)
  }

  /** When a dangerous call does no harm: what it trusts in place of the copy is as good. */
  ghost predicate Spared<V>(p: Platform, see: OS -> V, s: Sys, e: Event)
    requires Hazard(p, s, e)
  {
    if Drops(p, s, e) then see(s.disk.os) == see(s.orig)
    else if GaveUp(p, s, e) then see(GivenUp(p, s, e)) == see(s.orig)
    else BringsBack(p, see, s.orig, p.snapshot(s.disk.os))
  }

  ghost predicate Loses<V>(p: Platform, see: OS -> V, s: Sys, e: Event) {
    Hazard(p, s, e) && !Spared(p, see, s, e)
  }

  // ---- one event ----------------------------------------------------------

  predicate OnlySets(es: seq<Effect>) {
    forall i :: 0 <= i < |es| ==> es[i].Set?
  }

  ghost predicate Tame(p: Platform, es: seq<Effect>) {
    forall i :: 0 <= i < |es| && es[i].Set? ==> InType(es[i].cmd, p.keys)
  }

  lemma {:induction false} TameStaysNear(p: Platform, orig: OS, d: Disk, es: seq<Effect>)
    requires Near(p, orig, d.os) && Tame(p, es) && p.keys <= orig.Keys
    ensures Near(p, orig, DoAll(d, es).os)
  {
    if es != [] {
      TameStaysNear(p, orig, d, es[..|es| - 1]);
    }
  }

  lemma {:induction false} SetsLeaveTheCopy(d: Disk, es: seq<Effect>)
    requires OnlySets(es)
    ensures DoAll(d, es).backup == d.backup
  {
    if es != [] {
      SetsLeaveTheCopy(d, es[..|es| - 1]);
    }
  }

  /** A write, then settings: the copy is the one written. */
  lemma CopyStands(d: Disk, b: Snapshot, es: seq<Effect>)
    requires OnlySets(es)
    ensures DoAll(d, [Write(b)] + es).backup == Some(b)
  {
    DoAllConcat(d, [Write(b)], es);
    assert [Write(b)][..0] == [];
    SetsLeaveTheCopy(DoAll(d, [Write(b)]), es);
  }

  lemma {:induction false} SurvivorsAreSets(cmds: seq<Cmd>, failed: set<nat>, i: nat)
    ensures OnlySets(Surviving(cmds, failed, i))
    decreases |cmds| - i
  {
    if i < |cmds| {
      SurvivorsAreSets(cmds, failed, i + 1);
    }
  }

  /** The settings seen as the original are as good to copy as the original. */
  lemma CurrentIsAsGood<V>(p: Platform, see: OS -> V, orig: OS, os: OS)
    requires Lawful(p) && Undoable(p, see, orig) && Near(p, orig, os) && see(os) == see(orig)
    ensures BringsBack(p, see, orig, p.snapshot(os))
  {
    assert Restores(p, see, os);
    forall x | Near(p, orig, x)
      ensures see(RunAll(x, p.restore(p.snapshot(os)))) == see(orig)
    {
      assert Near(p, os, x);
    }
  }

  lemma RepointIsSafe<V>(p: Platform, see: OS -> V, s: Sys, target: string, f: Faults, n: nat)
    requires Inv(p, see, s) && Lawful(p) && s.up && s.mem.snap.Some?
    requires n <= |RepointOutcome(p, true, s.mem, target, f).effects|
    ensures var o := RepointOutcome(p, true, s.mem, target, f);
            && Recoverable(p, see, s.orig, DoAll(s.disk, o.effects[..n]))
            && Inv(p, see, Sys(DoAll(s.disk, o.effects), true, o.mem, s.orig))
  {
    hide Recoverable, Near, BringsBack, Undoable;
    var o := RepointOutcome(p, true, s.mem, target, f);
    KeysPresent(p, see, s);
    assert Within(p.apply(target), p.keys);
    SetsAreHarmless(p, see, s.orig, if Stops(p.apply(target), f) then p.apply(target)[..f.applyStop.value] else p.apply(target));
    assert Harmless(p, see, s.orig, o.effects);
    HarmlessPrefix(p, see, s.orig, o.effects, n);
    HarmlessIsSafe(p, see, s.orig, s.disk, o.effects[..n]);
    HarmlessIsSafe(p, see, s.orig, s.disk, o.effects);
  }

  lemma KeysPresent<V>(p: Platform, see: OS -> V, s: Sys)
    requires Inv(p, see, s)
    ensures p.keys <= s.orig.Keys
  {
  }

  /** Restoring entries that bring the original back, and dropping the copy if no command failed. */
  lemma UndoIsSafe<V>(p: Platform, see: OS -> V, s: Sys, entries: seq<Entry>, f: Faults, n: nat)
    requires Inv(p, see, s) && BringsBack(p, see, s.orig, entries) && s.disk.backup.Some?
    requires var tail := if SomeFail(p.restore(entries), f.restoreFails) then [] else [Remove];
             n <= |Surviving(p.restore(entries), f.restoreFails, 0) + tail|
    ensures var tail := if SomeFail(p.restore(entries), f.restoreFails) then [] else [Remove];
            var es := Surviving(p.restore(entries), f.restoreFails, 0) + tail;
            && Recoverable(p, see, s.orig, DoAll(s.disk, es[..n]))
            && (tail != [] ==> DoAll(s.disk, es).backup.None?)
  {
    hide Recoverable, Undoable, SomeFail, Keeps;
    KeysPresent(p, see, s);
    var cmds := p.restore(entries);
    var body := Surviving(cmds, f.restoreFails, 0);
    SurvivorsAreHarmless(p, see, s.orig, cmds, f.restoreFails, 0);
    NearNow(p, see, s);
    if SomeFail(cmds, f.restoreFails) {
      EveryPrefixIsSafe(p, see, s.orig, s.disk, body, [], n);
    } else {
      UndoBringsBack(p, see, s.orig, s.disk, entries, f.restoreFails);
      EveryPrefixIsSafe(p, see, s.orig, s.disk, body, [Remove], n);
    }
  }

  lemma NearNow<V>(p: Platform, see: OS -> V, s: Sys)
    requires Inv(p, see, s)
    ensures Near(p, s.orig, s.disk.os)
  {
  }

  /** What a copying Enable does: the write, then settings, then perhaps the removal. */
  lemma CopyingEffects(p: Platform, s: Sys, e: Event)
    requires Copies(p, s, e) && Allowed(p, s, e)
    ensures var o := CallOutcome(p, s, e.c, e.f);
            var b := CopyOf(p, s.disk.os, TargetOf(e.c.host, e.c.port));
            o.effects != [] && Done(p, s, e) <= |o.effects| && o.effects[0] == Write(b)
    ensures var o := CallOutcome(p, s, e.c, e.f);
            if Stops(p.apply(TargetOf(e.c.host, e.c.port)), e.f)
            then OnlySets(o.effects[1..|o.effects| - 1]) && o.effects[|o.effects| - 1] == Remove && 2 <= |o.effects|
            else OnlySets(o.effects[1..])
  {
    hide Surviving;
    SurvivorsAreSets(p.restore(p.snapshot(s.disk.os)), e.f.restoreFails, 0);
  }

  /** They are commands of the platform, in their types. */
  lemma CopyingIsTame(p: Platform, s: Sys, e: Event)
    requires Copies(p, s, e) && Allowed(p, s, e) && Lawful(p) && Typed(p.keys, s.disk.os)
    ensures Tame(p, CallOutcome(p, s, e.c, e.f).effects)
  {
    hide Surviving, Typed;
    var t := TargetOf(e.c.host, e.c.port);
    assert Within(p.apply(t), p.keys);
    SurvivorsAreHarmless(p, Exactly, s.disk.os, p.restore(p.snapshot(s.disk.os)), e.f.restoreFails, 0);
  }

  /** The copy after a copying Enable, cut off or not. */
  lemma CopyAfter(p: Platform, s: Sys, e: Event)
    requires Copies(p, s, e) && Allowed(p, s, e)
    ensures var o := CallOutcome(p, s, e.c, e.f);
            DoAll(s.disk, o.effects[..Done(p, s, e)]).backup
            == if GaveUp(p, s, e) then None else Some(CopyOf(p, s.disk.os, TargetOf(e.c.host, e.c.port)))
  {
    hide CallOutcome, CopyOf;
    CopyingEffects(p, s, e);
    var es, n := CallOutcome(p, s, e.c, e.f).effects, Done(p, s, e);
    var b := CopyOf(p, s.disk.os, TargetOf(e.c.host, e.c.port));
    if GaveUp(p, s, e) {
      assert es[..n] == es;
    } else {
      var rest := es[1..n];
      assert OnlySets(rest) by {
        assert forall i :: 0 <= i < |rest| ==> rest[i] == es[1..][i];
        if Stops(p.apply(TargetOf(e.c.host, e.c.port)), e.f) {
          assert forall i :: 0 <= i < |rest| ==> rest[i] == es[1..|es| - 1][i];
        }
      }
      assert es[..n] == [Write(b)] + rest;
      CopyStands(s.disk, b, rest);
    }
  }

  /** Settings depend on settings alone. */
  lemma {:induction false} SameSettings(a: Disk, b: Disk, es: seq<Effect>)
    requires a.os == b.os
    ensures DoAll(a, es).os == DoAll(b, es).os
  {
    if es != [] {
      SameSettings(a, b, es[..|es| - 1]);
    }
  }

  /** A copying Enable that gives up: no copy is left, and the settings are those of the rollback with its failures. */
  lemma GaveUpLeaves(p: Platform, s: Sys, e: Event)
    requires Copies(p, s, e) && Allowed(p, s, e) && GaveUp(p, s, e)
    ensures DoAll(s.disk, CallOutcome(p, s, e.c, e.f).effects) == Disk(GivenUp(p, s, e), None)
  {
    hide Surviving, DoAll;
    var t := TargetOf(e.c.host, e.c.port);
    var b := CopyOf(p, s.disk.os, t);
    var done := p.apply(t)[..e.f.applyStop.value];
    var undo := Surviving(p.restore(p.snapshot(s.disk.os)), e.f.restoreFails, 0);
    assert CallOutcome(p, s, e.c, e.f).effects == [Write(b)] + Sets(done) + undo + [Remove];
    DoAllConcat(s.disk, [Write(b)] + Sets(done) + undo, [Remove]);
    DoAllConcat(s.disk, [Write(b)] + Sets(done), undo);
    DoAllConcat(s.disk, [Write(b)], Sets(done));
    WriteOnly(s.disk, b);
    DoAllSets(Disk(s.disk.os, Some(b)), done);
    var now := RunAll(s.disk.os, done);
    SameSettings(Disk(now, Some(b)), Disk(now, None), undo);
    RemoveLeavesSettings(DoAll(Disk(now, Some(b)), undo));
  }

  lemma WriteOnly(d: Disk, b: Snapshot)
    ensures DoAll(d, [Write(b)]) == Disk(d.os, Some(b))
  {
    assert [Write(b)][..0] == [];
  }

  /** A rollback in which every command succeeds leaves the settings as they were seen before. */
  lemma RolledBack<V>(p: Platform, see: OS -> V, orig: OS, os: OS, target: string, n: nat, failed: set<nat>)
    requires Lawful(p) && Near(p, orig, os) && p.keys <= orig.Keys
    requires BringsBack(p, see, orig, p.snapshot(os)) && !SomeFail(p.restore(p.snapshot(os)), failed)
    ensures see(RolledBackTo(p, os, target, n, failed)) == see(orig)
  {
    hide Surviving, SomeFail, BringsBack, DoAll, Near;
    var cmds := p.apply(target);
    var done := if n <= |cmds| then cmds[..n] else cmds;
    assert Within(done, p.keys) by { assert Within(cmds, p.keys); }
    StaysNear(p, orig, os, done);
    UndoBringsBack(p, see, orig, Disk(RunAll(os, done), None), p.snapshot(os), failed);
  }

  lemma RemoveLeavesSettings(d: Disk)
    ensures DoAll(d, [Remove]) == d.(backup := None)
  {
    assert [Remove][..0] == [];
  }

  /** A copying Enable, cut off anywhere: the original is safe exactly when the call is no hazard, or is spared. */
  lemma CopyingExact<V>(p: Platform, see: OS -> V, s: Sys, e: Event)
    requires Inv(p, see, s) && Lawful(p) && Allowed(p, s, e) && Copies(p, s, e)
    ensures Recoverable(p, see, s.orig, DoAll(s.disk, CallOutcome(p, s, e.c, e.f).effects[..Done(p, s, e)]))
        <==> !Loses(p, see, s, e)
  {
    hide Undoable, BringsBack, Near, SomeFail, CallOutcome, DoAll;
    KeysPresent(p, see, s);
    NearNow(p, see, s);
    TypedNow(p, see, s);
    CopyingIsTame(p, s, e);
    CopyingEffects(p, s, e);
    CopyAfter(p, s, e);
    var es, n := CallOutcome(p, s, e.c, e.f).effects, Done(p, s, e);
    assert Tame(p, es[..n]);
    TameStaysNear(p, s.orig, s.disk, es[..n]);
    if s.disk.backup.None? {
      CurrentIsAsGood(p, see, s.orig, s.disk.os);
    }
    if GaveUp(p, s, e) {
      assert es[..n] == es;
      GaveUpLeaves(p, s, e);
      if s.disk.backup.None? && !SomeFail(p.restore(p.snapshot(s.disk.os)), e.f.restoreFails) {
        RolledBack(p, see, s.orig, s.disk.os, TargetOf(e.c.host, e.c.port), e.f.applyStop.value, e.f.restoreFails);
      }
    }
  }

  lemma TypedNow<V>(p: Platform, see: OS -> V, s: Sys)
    requires Inv(p, see, s)
    ensures Typed(p.keys, s.disk.os)
  {
  }

  lemma EnableExact<V>(p: Platform, see: OS -> V, s: Sys, e: Event)
    requires Inv(p, see, s) && Lawful(p) && Allowed(p, s, e) && !e.Edited? && e.c.Enable?
    ensures Recoverable(p, see, s.orig, After(p, s, e).disk) <==> !Loses(p, see, s, e)
    ensures !Loses(p, see, s, e) ==> Inv(p, see, After(p, s, e))
  {
    hide Undoable, BringsBack, Near, SomeFail, DoAll, Recoverable;
    var t := TargetOf(e.c.host, e.c.port);
    var es, n := CallOutcome(p, s, e.c, e.f).effects, Done(p, s, e);
    assert e.Ran? ==> es[..n] == es;
    if s.mem.snap.Some? {
      RepointIsSafe(p, see, s, t, e.f, n);
    } else if Copies(p, s, e) {
      CopyingExact(p, see, s, e);
      CopyAfter(p, s, e);
      if e.Ran? && !Loses(p, see, s, e) && !GaveUp(p, s, e) {
        CopyKept(p, see, s.orig, After(p, s, e).disk);
      }
    } else {
      assert es[..n] == [];
      NothingDone(s.disk);
    }
  }

  lemma CopyKept<V>(p: Platform, see: OS -> V, orig: OS, d: Disk)
    requires Recoverable(p, see, orig, d) && d.backup.Some?
    ensures Keeps(p, see, orig, d.backup.value)
  {
  }

  lemma NothingDone(d: Disk)
    ensures DoAll(d, []) == d
  {
  }

  /** Restore and RecoverStale: dangerous only when nothing is in memory and a copy is dropped. */
  lemma UndoExact<V>(p: Platform, see: OS -> V, s: Sys, e: Event)
    requires Inv(p, see, s) && Lawful(p) && Allowed(p, s, e) && !e.Edited? && !e.c.Enable?
    ensures Recoverable(p, see, s.orig, After(p, s, e).disk) <==> !Loses(p, see, s, e)
    ensures !Loses(p, see, s, e) ==> Inv(p, see, After(p, s, e))
  {
    hide Undoable, BringsBack, Near, SomeFail, DoAll, Surviving;
    var es, n := CallOutcome(p, s, e.c, e.f).effects, Done(p, s, e);
    assert e.Ran? ==> es[..n] == es;
    var source := if e.c.Restore? then s.mem.snap else s.disk.backup;
    if source.Some? {
      var body := Surviving(p.restore(source.value.entries), e.f.restoreFails, 0);
      assert body + [] == body;
      UndoIsSafe(p, see, s, source.value.entries, e.f, n);
    } else {
      NothingDone(s.disk);
      RemoveLeavesSettings(s.disk);
      assert es[..n] == [] || es[..n] == [Remove];
    }
  }

  /** Every event, whatever fails and wherever it is cut off, keeps the original safe exactly when it does not lose it. */
  lemma StepExact<V>(p: Platform, see: OS -> V, s: Sys, e: Event)
    requires Inv(p, see, s) && Lawful(p) && Allowed(p, s, e) && (e.Edited? ==> Undoable(p, see, e.os))
    ensures Recoverable(p, see, After(p, s, e).orig, After(p, s, e).disk) <==> !Loses(p, see, s, e)
    ensures !Loses(p, see, s, e) ==> Inv(p, see, After(p, s, e))
  {
    hide Undoable, Loses;
    if e.Edited? {
      EditIsSafe(p, see, s, e);
    } else if e.c.Enable? {
      EnableExact(p, see, s, e);
    } else {
      UndoExact(p, see, s, e);
    }
  }

  lemma EditIsSafe<V>(p: Platform, see: OS -> V, s: Sys, e: Event)
    requires Inv(p, see, s) && Allowed(p, s, e) && e.Edited? && Undoable(p, see, e.os)
    ensures !Loses(p, see, s, e) && Inv(p, see, After(p, s, e))
  {
  }

  // ---- what the hazards come to -------------------------------------------

  /** Entries of settings that can be restored to bring the original back exactly when those settings look like it. */
  lemma CurrentExact<V>(p: Platform, see: OS -> V, s: Sys)
    requires Inv(p, see, s) && Lawful(p) && Restores(p, see, s.disk.os)
    ensures BringsBack(p, see, s.orig, p.snapshot(s.disk.os)) <==> see(s.disk.os) == see(s.orig)
  {
    hide Undoable;
    NearNow(p, see, s);
    OrigIsNear(p, see, s);
    assert see(RunAll(s.orig, p.restore(p.snapshot(s.disk.os)))) == see(s.disk.os);
    if see(s.disk.os) == see(s.orig) {
      CurrentIsAsGood(p, see, s.orig, s.disk.os);
    }
  }

  /** A copying Enable that gives up keeps the original exactly when its rollback, with its failures, looks like it. */
  lemma GivenUpExact<V>(p: Platform, see: OS -> V, s: Sys, e: Event)
    requires Inv(p, see, s) && Lawful(p) && Allowed(p, s, e) && Copies(p, s, e) && GaveUp(p, s, e)
    ensures After(p, s, e).disk == Disk(GivenUp(p, s, e), None)
    ensures Recoverable(p, see, s.orig, After(p, s, e).disk) <==> see(GivenUp(p, s, e)) == see(s.orig)
  {
    hide Undoable, BringsBack, Near, SomeFail, CallOutcome, DoAll, RolledBackTo;
    GaveUpLeaves(p, s, e);
    EnableExact(p, see, s, e);
    var es, n := CallOutcome(p, s, e.c, e.f).effects, Done(p, s, e);
    assert es[..n] == es;
    if !Hazard(p, s, e) {
      CurrentIsAsGood(p, see, s.orig, s.disk.os);
      NearNow(p, see, s);
      KeysPresent(p, see, s);
      RolledBack(p, see, s.orig, s.disk.os, TargetOf(e.c.host, e.c.port), e.f.applyStop.value, e.f.restoreFails);
    }
  }

  /** A rollback in which every command succeeds gives back what was in force before the call. */
  lemma RolledBackToCurrent<V>(p: Platform, see: OS -> V, s: Sys, e: Event)
    requires Inv(p, see, s) && Lawful(p) && Allowed(p, s, e) && Copies(p, s, e) && GaveUp(p, s, e)
    requires Restores(p, see, s.disk.os) && !SomeFail(p.restore(p.snapshot(s.disk.os)), e.f.restoreFails)
    ensures see(GivenUp(p, s, e)) == see(s.disk.os)
  {
    hide Undoable, SomeFail, DoAll, RolledBackTo;
    NearNow(p, see, s);
    OrigIsNear(p, see, s);
    KeysPresent(p, see, s);
    RolledBack(p, see, s.disk.os, s.disk.os, TargetOf(e.c.host, e.c.port), e.f.applyStop.value, e.f.restoreFails);
  }

  /**
   An Enable that gets to copy, whether it then succeeds, is cut off, or fails and is rolled back, with any
   failures, keeps the original exactly when what it leaves to go by looks like it: the settings the rollback
   comes to where it gives up, otherwise those in force before the call; and these where no rollback command fails.
   */
  lemma EnableOverwrites<V>(p: Platform, see: OS -> V, s: Sys, e: Event)
    requires Inv(p, see, s) && Lawful(p) && Allowed(p, s, e) && Copies(p, s, e)
    requires Restores(p, see, s.disk.os)
    ensures Recoverable(p, see, s.orig, After(p, s, e).disk)
        <==> see(if GaveUp(p, s, e) then GivenUp(p, s, e) else s.disk.os) == see(s.orig)
    ensures GaveUp(p, s, e) && !SomeFail(p.restore(p.snapshot(s.disk.os)), e.f.restoreFails) ==>
              see(GivenUp(p, s, e)) == see(s.disk.os)
  {
    hide Undoable, Restores, BringsBack, Near, SomeFail, DoAll, Recoverable, CallOutcome, GivenUp, Done, Keeps;
    if GaveUp(p, s, e) {
      GivenUpExact(p, see, s, e);
      if !SomeFail(p.restore(p.snapshot(s.disk.os)), e.f.restoreFails) {
        RolledBackToCurrent(p, see, s, e);
      }
    } else {
      EnableExact(p, see, s, e);
      CurrentExact(p, see, s);
      InForceUncopied(p, see, s);
    }
  }

  lemma InForceUncopied<V>(p: Platform, see: OS -> V, s: Sys)
    requires Inv(p, see, s)
    ensures s.disk.backup.None? ==> see(s.disk.os) == see(s.orig)
  {
  }

  lemma OrigIsNear<V>(p: Platform, see: OS -> V, s: Sys)
    requires Inv(p, see, s)
    ensures Near(p, s.orig, s.orig) && Near(p, s.disk.os, s.orig)
  {
  }

  /** A second Restore, or one after a failed start, loses the original exactly when the settings in force are seen to differ. */
  lemma RestoreDrops<V>(p: Platform, see: OS -> V, s: Sys, e: Event)
    requires Inv(p, see, s) && Lawful(p) && Allowed(p, s, e) && Drops(p, s, e)
    ensures Recoverable(p, see, s.orig, After(p, s, e).disk) <==> see(s.disk.os) == see(s.orig)
  {
    hide Undoable;
    UndoExact(p, see, s, e);
  }

  // ---- whole runs ---------------------------------------------------------

  /**
   In every run, whatever fails and wherever it crashes, the original is in force or on disk at every
   point exactly when no event loses it.
   */
  lemma {:induction false} RunExact<V>(p: Platform, see: OS -> V, ss: seq<Sys>, es: seq<Event>, n: nat)
    requires Lawful(p) && IsRun(p, ss, es) && Choices(p, see, ss, es) && n < |ss|
    ensures (forall i :: 0 <= i <= n ==> Recoverable(p, see, ss[i].orig, ss[i].disk))
        <==> (forall i :: 0 <= i < n ==> !Loses(p, see, ss[i], es[i]))
    ensures (forall i :: 0 <= i < n ==> !Loses(p, see, ss[i], es[i])) ==> Inv(p, see, ss[n])
  {
    hide Undoable, Recoverable, Loses, Inv;
    if n == 0 {
      BootIsSafe(p, see, ss[0].orig);
    } else {
      RunExact(p, see, ss, es, n - 1);
      assert ss[n - 1 + 1] == After(p, ss[n - 1], es[n - 1]);
      if forall i :: 0 <= i < n - 1 ==> !Loses(p, see, ss[i], es[i]) {
        StepExact(p, see, ss[n - 1], es[n - 1]);
      }
    }
  }

  lemma BootIsSafe<V>(p: Platform, see: OS -> V, os: OS)
    requires Undoable(p, see, os)
    ensures Inv(p, see, FirstBoot(os)) && Recoverable(p, see, os, FirstBoot(os).disk)
  {
  }

  /** The entries a call restores from. */
  function Source(s: Sys, c: Call): Option<Snapshot> {
    match c
    case Enable(_, _) => None
    case Restore => s.mem.snap
    case Recover => s.disk.backup
  }

  /** A Restore or a start none of whose commands fails. */
  predicate CleanUndo(p: Platform, s: Sys, e: Event) {
    && e.Ran? && !e.c.Enable?
    && (Source(s, e.c).Some? ==> !SomeFail(p.restore(Source(s, e.c).value.entries), e.f.restoreFails))
  }

  /**
   Crash safety over whole runs, with any commands failing: unless a dangerous call is made, the
   original is in force or on disk at every point; and after every Restore and every start none of whose
   commands fails it is in force and no copy is left.
   */
  lemma EveryRunIsCrashSafe<V>(p: Platform, see: OS -> V, ss: seq<Sys>, es: seq<Event>, i: nat)
    requires Lawful(p) && IsRun(p, ss, es) && Choices(p, see, ss, es) && i < |ss|
    requires forall j :: 0 <= j < i ==> !Hazard(p, ss[j], es[j])
    ensures Inv(p, see, ss[i]) && Recoverable(p, see, ss[i].orig, ss[i].disk)
    ensures ss[i].disk.backup.None? ==> see(ss[i].disk.os) == see(ss[i].orig)
    ensures 0 < i && CleanUndo(p, ss[i - 1], es[i - 1]) ==> ss[i].disk.backup.None?
  {
    hide Undoable, Keeps, Near, SomeFail;
    RunExact(p, see, ss, es, i);
    if 0 < i {
      RunExact(p, see, ss, es, i - 1);
      assert ss[i - 1 + 1] == After(p, ss[i - 1], es[i - 1]);
      UndoRemoves(p, see, ss[i - 1], es[i - 1]);
    }
  }

  lemma UndoRemoves<V>(p: Platform, see: OS -> V, s: Sys, e: Event)
    requires Inv(p, see, s) && Allowed(p, s, e)
    ensures CleanUndo(p, s, e) ==> After(p, s, e).disk.backup.None?
  {
    hide Undoable, Near, SomeFail, Surviving, DoAll;
    if e.Ran? && !e.c.Enable? {
      var source := Source(s, e.c);
      if source.Some? {
        if !SomeFail(p.restore(source.value.entries), e.f.restoreFails) {
          var es := CallOutcome(p, s, e.c, e.f).effects;
          UndoIsSafe(p, see, s, source.value.entries, e.f, |es|);
        }
      } else {
        NothingDone(s.disk);
        RemoveLeavesSettings(s.disk);
      }
    }
  }

  /** A copy left by another platform is neither restored nor removed. */
  lemma ForeignCopyStays(p: Platform, s: Sys, f: Faults)
    requires !s.up && s.disk.backup.Some? && s.disk.backup.value.platform != p.name
    ensures After(p, s, Ran(Recover, f)) == s.(up := true)
  {
    NothingDone(s.disk);
  }
}
