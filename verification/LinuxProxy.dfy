/** The GNOME settings platform (internal/sysproxy/linux.go). */
module LinuxProxy {
  import opened Wrappers
  import opened Settings
  import opened Targets
  import Runs = SysRuns
  import S = SysProxy
  import Text

  const MODE := Key("org.gnome.system.proxy", General, Mode)
  const HTTP_HOST := Key("org.gnome.system.proxy", Http, Server)
  const HTTP_PORT := Key("org.gnome.system.proxy", Http, Port)
  const HTTPS_HOST := Key("org.gnome.system.proxy", Https, Server)
  const HTTPS_PORT := Key("org.gnome.system.proxy", Https, Port)

  const FIELDS := [MODE, HTTP_HOST, HTTP_PORT, HTTPS_HOST, HTTPS_PORT]
  const KEYS := {MODE, HTTP_HOST, HTTP_PORT, HTTPS_HOST, HTTPS_PORT}

  /** The schema: five fields, of these types. */
  predicate Schema(os: OS) {
    && KEYS <= os.Keys
    && os[MODE].Str? && os[HTTP_HOST].Str? && os[HTTP_PORT].Num? && os[HTTPS_HOST].Str? && os[HTTPS_PORT].Num?
  }

  lemma SchemaIsTyped(os: OS)
    ensures Schema(os) <==> Typed(KEYS, os)
  {
    if Typed(KEYS, os) {
      assert forall k :: k in KEYS ==> k in os;
    }
  }

  function StrAt(os: OS, k: Key): string {
    if k in os && os[k].Str? then os[k].s else ""
  }

  function NumAt(os: OS, k: Key): int {
    if k in os && os[k].Num? then os[k].n else 0
  }

  function SnapshotOf(os: OS): seq<Entry> {
    [Entry("gnome", "mode", false, "", 0, StrAt(os, MODE)),
     Entry("gnome", "http", false, StrAt(os, HTTP_HOST), NumAt(os, HTTP_PORT), ""),
     Entry("gnome", "https", false, StrAt(os, HTTPS_HOST), NumAt(os, HTTPS_PORT), "")]
  }

  function ApplyCmds(target: string): seq<Cmd> {
    var (host, port) := SplitTarget(target);
    [map[MODE := Str("manual")],
     map[HTTP_HOST := Str(host)], map[HTTP_PORT := Num(port)],
     map[HTTPS_HOST := Str(host)], map[HTTPS_PORT := Num(port)]]
  }

  function EntryCmds(e: Entry): seq<Cmd> {
    if e.key == "mode" then [map[MODE := Str(if e.text == "" then "none" else e.text)]]
    else if e.key == "http" then [map[HTTP_HOST := Str(e.server)], map[HTTP_PORT := Num(e.port)]]
    else if e.key == "https" then [map[HTTPS_HOST := Str(e.server)], map[HTTPS_PORT := Num(e.port)]]
    else []
  }

  function RestoreCmds(entries: seq<Entry>): seq<Cmd> {
    CmdsOf(EntryCmds, entries)
  }

  const GNOME := Platform("linux", KEYS, os => SnapshotOf(os), t => ApplyCmds(t), es => RestoreCmds(es))

  // ---- the loops ----------------------------------------------------------

  /** applyPlatform: ordered commands, stopping at the first that fails. */
  method ApplyPlatform(w: World, target: string, stop: Option<nat>) returns (ok: bool)
    requires w.Valid()
    modifies w
    ensures w.Valid() && ok == !(stop.Some? && stop.value < 5)
    ensures w.log == old(w.log) + Sets(if ok then ApplyCmds(target) else ApplyCmds(target)[..stop.value])
  {
    var (host, port) := SplitTarget(target);
    var steps := [map[MODE := Str("manual")],
                  map[HTTP_HOST := Str(host)], map[HTTP_PORT := Num(port)],
                  map[HTTPS_HOST := Str(host)], map[HTTPS_PORT := Num(port)]];
    ok := w.ApplyAll(steps, stop);
  }

  /** restorePlatform: every command is tried, whatever became of the ones before. */
  method RestorePlatform(w: World, entries: seq<Entry>, failed: set<nat>) returns (ok: bool)
    requires w.Valid()
    modifies w
    ensures w.Valid() && ok == !SomeFail(RestoreCmds(entries), failed)
    ensures w.log == old(w.log) + Surviving(RestoreCmds(entries), failed, 0)
  {
    ok := w.RestoreEntries(EntryCmds, entries, failed);
  }

  // ---- restoring ----------------------------------------------------------

  function ModeBack(os: OS): Value {
    Str(if StrAt(os, MODE) == "" then "none" else StrAt(os, MODE))
  }

  /** The values a restore of the snapshot of `os` writes to the five fields. */
  function ValuesBack(os: OS): seq<Value>
    requires Schema(os)
  {
    [ModeBack(os), os[HTTP_HOST], os[HTTP_PORT], os[HTTPS_HOST], os[HTTPS_PORT]]
  }

  lemma RestoreOfSnapshot(os: OS)
    requires Schema(os)
    ensures OneByOne(RestoreCmds(SnapshotOf(os)), FIELDS, ValuesBack(os))
  {
    var s := SnapshotOf(os);
    assert s[1..][1..] == s[2..] && s[2..][1..] == [];
    assert RestoreCmds(s[2..]) == EntryCmds(s[2]) + RestoreCmds(s[2..][1..]);
    assert RestoreCmds(s[1..]) == EntryCmds(s[1]) + RestoreCmds(s[2..]);
  }

  function ValuesApplied(target: string): (vs: seq<Value>)
    ensures |vs| == 5
  {
    var (host, port) := SplitTarget(target);
    [Str("manual"), Str(host), Num(port), Str(host), Num(port)]
  }

  lemma ApplyWrites(target: string)
    ensures OneByOne(ApplyCmds(target), FIELDS, ValuesApplied(target))
  {
  }

  lemma FieldsAreKeys(k: Key)
    ensures k in FIELDS <==> k in KEYS
  {
    if k in KEYS {
      assert k == FIELDS[0] || k == FIELDS[1] || k == FIELDS[2] || k == FIELDS[3] || k == FIELDS[4];
    }
  }

  lemma GnomeBack(os: OS, now: OS)
    requires Schema(os) && now.Keys == os.Keys && forall k :: k in os && k !in KEYS ==> now[k] == os[k]
    ensures var end := RunAll(now, RestoreCmds(SnapshotOf(os)));
            && end.Keys == os.Keys && end[MODE] == ModeBack(os)
            && forall k :: k in os && k != MODE ==> end[k] == os[k]
  {
    RestoreOfSnapshot(os);
    var cmds, vs := RestoreCmds(SnapshotOf(os)), ValuesBack(os);
    assert cmds[..5] == cmds;
    hide RunAll, RestoreCmds, SnapshotOf;
    RunWrites(now, cmds, FIELDS, vs, 5);
    var end := RunAll(now, cmds);
    assert end[FIELDS[0]] == vs[0] && end[FIELDS[1]] == vs[1] && end[FIELDS[2]] == vs[2];
    assert end[FIELDS[3]] == vs[3] && end[FIELDS[4]] == vs[4];
    forall k | k in os && k != MODE
      ensures end[k] == os[k]
    {
      FieldsAreKeys(k);
    }
  }

  lemma ModeSuffices(os: OS)
    requires Schema(os) && StrAt(os, MODE) != ""
    ensures Restores(GNOME, Exactly, os)
  {
    forall now | Near(GNOME, os, now)
      ensures RunAll(now, RestoreCmds(SnapshotOf(os))) == os
    {
      GnomeBack(os, now);
    }
  }

  /** Restoring brings the settings back exactly, from anywhere near them, if and only if a mode was set. */
  lemma GnomeUndoable(os: OS)
    requires Schema(os)
    ensures Undoable(GNOME, Exactly, os) <==> StrAt(os, MODE) != ""
  {
    SchemaIsTyped(os);
    if StrAt(os, MODE) != "" {
      ModeSuffices(os);
    } else {
      GnomeBack(os, os);
      assert Near(GNOME, os, os);
      assert GNOME.restore(GNOME.snapshot(os)) == RestoreCmds(SnapshotOf(os));
    }
  }

  lemma ApplyIsWithin(t: string)
    ensures Within(ApplyCmds(t), KEYS)
  {
  }

  lemma RestoreIsWithin(os: OS)
    requires Schema(os)
    ensures Within(RestoreCmds(SnapshotOf(os)), KEYS)
  {
    RestoreOfSnapshot(os);
    hide RestoreCmds, SnapshotOf;
    var cmds := RestoreCmds(SnapshotOf(os));
    forall i | 0 <= i < 5
      ensures InType(cmds[i], KEYS)
    {
      FieldsAreKeys(FIELDS[i]);
      assert cmds[i] == map[FIELDS[i] := ValuesBack(os)[i]];
    }
  }

  lemma GnomeLawful()
    ensures Lawful(GNOME)
  {
    forall t: string
      ensures Within(GNOME.apply(t), GNOME.keys)
    {
      ApplyIsWithin(t);
    }
    forall os | Typed(KEYS, os)
      ensures Within(GNOME.restore(GNOME.snapshot(os)), GNOME.keys)
    {
      SchemaIsTyped(os);
      RestoreIsWithin(os);
    }
  }

  /** After any number of applies, complete or cut off, one restore brings the GNOME settings back. */
  lemma AppliesAreUndone(os: OS, runs: seq<(string, nat)>)
    requires Schema(os) && StrAt(os, MODE) != ""
    ensures RunAll(RunAll(os, ManyApplies(GNOME, runs)), RestoreCmds(SnapshotOf(os))) == os
  {
    GnomeUndoable(os);
    GnomeLawful();
    AppliesUndone(GNOME, Exactly, os, runs);
    assert GNOME.restore(GNOME.snapshot(os)) == RestoreCmds(SnapshotOf(os));
  }

  /** The user's settings, at the start and at every edit, follow the schema and set a mode. */
  ghost predicate ModesSet(ss: seq<Runs.Sys>, es: seq<Runs.Event>) {
    && ss != [] && Schema(ss[0].orig) && StrAt(ss[0].orig, MODE) != ""
    && forall i :: 0 <= i < |es| && es[i].Edited? ==> Schema(es[i].os) && StrAt(es[i].os, MODE) != ""
  }

  lemma ModesAreChoices(ss: seq<Runs.Sys>, es: seq<Runs.Event>)
    requires ModesSet(ss, es)
    ensures Runs.Choices(GNOME, Exactly, ss, es)
  {
    GnomeUndoable(ss[0].orig);
    forall i | 0 <= i < |es| && es[i].Edited?
      ensures Undoable(GNOME, Exactly, es[i].os)
    {
      GnomeUndoable(es[i].os);
    }
  }

  /** The crash-safety theorem on GNOME: all that is asked of the user is that a mode be set. */
  lemma GnomeRunsAreCrashSafe(ss: seq<Runs.Sys>, es: seq<Runs.Event>, i: nat)
    requires Runs.IsRun(GNOME, ss, es) && ModesSet(ss, es) && i < |ss|
    requires forall j :: 0 <= j < i ==> !Runs.Hazard(GNOME, ss[j], es[j])
    ensures Runs.Recoverable(GNOME, Exactly, ss[i].orig, ss[i].disk)
    ensures ss[i].disk.backup.None? ==> ss[i].disk.os == ss[i].orig
    ensures 0 < i && Runs.CleanUndo(GNOME, ss[i - 1], es[i - 1]) ==> ss[i].disk == Disk(ss[i].orig, None)
  {
    ModesAreChoices(ss, es);
    GnomeLawful();
    Runs.EveryRunIsCrashSafe(GNOME, Exactly, ss, es, i);
  }

  // ---- when commands fail -------------------------------------------------

  /** What a restore leaves when the commands in `failed` do not take effect. */
  function MaskedRestore(os: OS, now: OS, failed: set<nat>): OS {
    DoAll(Disk(now, None), Surviving(RestoreCmds(SnapshotOf(os)), failed, 0)).os
  }

  /** After the first n commands of any apply, the restore still brings any settings back. */
  ghost predicate StillUndoes(n: nat, failed: set<nat>) {
    forall os, host, port ::
      Schema(os) && StrAt(os, MODE) != "" ==>
        MaskedRestore(os, Partial(os, host, port, n), failed) == os
  }

  function Partial(os: OS, host: string, port: int, n: nat): OS {
    var cmds := ApplyCmds(S.TargetOf(host, port));
    RunAll(os, if n <= |cmds| then cmds[..n] else cmds)
  }

  /** Field j after the masked restore of a partial apply. */
  lemma FieldAfter(os: OS, host: string, port: int, n: nat, failed: set<nat>, j: nat)
    requires Schema(os) && StrAt(os, MODE) != "" && n <= 5 && j < 5
    ensures var end := MaskedRestore(os, Partial(os, host, port, n), failed);
            FIELDS[j] in end
            && end[FIELDS[j]] == if j in failed && j < n then ValuesApplied(S.TargetOf(host, port))[j] else os[FIELDS[j]]
  {
    hide RestoreCmds, SnapshotOf, ApplyCmds, ValuesApplied, RunAll, DoAll, Surviving, OneByOne, StrAt;
    var t := S.TargetOf(host, port);
    ApplyWrites(t);
    ApplyIsFive(t);
    RunWrites(os, ApplyCmds(t), FIELDS, ValuesApplied(t), n);
    RestoreOfSnapshot(os);
    RestoreIsFive(os);
    SurvivingAt(Disk(Partial(os, host, port, n), None), RestoreCmds(SnapshotOf(os)), FIELDS, ValuesBack(os), failed, 0, j);
    assert ValuesBack(os)[j] == os[FIELDS[j]];
  }

  lemma ApplyIsFive(t: string)
    ensures |ApplyCmds(t)| == 5
  {
  }

  lemma RestoreIsFive(os: OS)
    requires Schema(os) && StrAt(os, MODE) != ""
    ensures |RestoreCmds(SnapshotOf(os))| == 5 && ModeBack(os) == os[MODE]
  {
    RestoreOfSnapshot(os);
  }

  lemma OthersAfter(os: OS, host: string, port: int, n: nat, failed: set<nat>)
    requires Schema(os) && n <= 5
    ensures var end := MaskedRestore(os, Partial(os, host, port, n), failed);
            end.Keys == os.Keys && forall k :: k in os && k !in FIELDS ==> end[k] == os[k]
  {
    var t := S.TargetOf(host, port);
    ApplyWrites(t);
    RunWrites(os, ApplyCmds(t), FIELDS, ValuesApplied(t), n);
    RestoreOfSnapshot(os);
    SurvivingElsewhere(Disk(Partial(os, host, port, n), None), RestoreCmds(SnapshotOf(os)), FIELDS, ValuesBack(os), failed, 0);
  }

  /** No command below n whose field the apply changed is among the failing ones. */
  predicate NoneMissed(os: OS, host: string, port: int, n: nat, failed: set<nat>)
    requires Schema(os) && n <= 5
  {
    forall j :: 0 <= j < n && j in failed ==> ValuesApplied(S.TargetOf(host, port))[j] == os[FIELDS[j]]
  }

  lemma NoneMissedIsUndone(os: OS, host: string, port: int, n: nat, failed: set<nat>)
    requires Schema(os) && StrAt(os, MODE) != "" && n <= 5 && NoneMissed(os, host, port, n, failed)
    ensures MaskedRestore(os, Partial(os, host, port, n), failed) == os
  {
    hide MaskedRestore, Partial, ValuesApplied;
    var end := MaskedRestore(os, Partial(os, host, port, n), failed);
    OthersAfter(os, host, port, n, failed);
    forall k | k in os
      ensures end[k] == os[k]
    {
      if k in FIELDS {
        var j :| 0 <= j < 5 && FIELDS[j] == k;
        FieldAfter(os, host, port, n, failed, j);
      }
    }
  }

  lemma MissedIsLost(os: OS, host: string, port: int, n: nat, failed: set<nat>, j: nat)
    requires Schema(os) && StrAt(os, MODE) != "" && j < n <= 5 && j in failed
    requires ValuesApplied(S.TargetOf(host, port))[j] != os[FIELDS[j]]
    ensures MaskedRestore(os, Partial(os, host, port, n), failed) != os
  {
    hide MaskedRestore, Partial, ValuesApplied;
    FieldAfter(os, host, port, n, failed, j);
  }

  /** A restore with failing commands undoes a partial apply exactly when no changed field is missed. */
  lemma MaskedRestoreExact(os: OS, host: string, port: int, n: nat, failed: set<nat>)
    requires Schema(os) && StrAt(os, MODE) != "" && n <= 5
    ensures MaskedRestore(os, Partial(os, host, port, n), failed) == os <==> NoneMissed(os, host, port, n, failed)
  {
    hide MaskedRestore, Partial, ValuesApplied, StrAt;
    if NoneMissed(os, host, port, n, failed) {
      NoneMissedIsUndone(os, host, port, n, failed);
    } else {
      var j: nat :| j < n && j in failed && ValuesApplied(S.TargetOf(host, port))[j] != os[FIELDS[j]];
      MissedIsLost(os, host, port, n, failed, j);
    }
  }

  const SAMPLE: OS := map[MODE := Str("auto"), HTTP_HOST := Str("h"), HTTP_PORT := Num(1),
                          HTTPS_HOST := Str("h"), HTTPS_PORT := Num(1)]

  lemma SampleIsSchema()
    ensures Schema(SAMPLE) && StrAt(SAMPLE, MODE) != ""
  {
  }

  lemma SampleApplied()
    ensures ValuesApplied(S.TargetOf("x", 2)) == [Str("manual"), Str("x"), Num(2), Str("x"), Num(2)]
  {
    SplitOfTarget("x", 2);
    hide SplitTarget;
    assert S.TargetOf("x", 2) == "x" + ":" + Text.Itoa(2);
  }

  lemma SampleDiffers(j: nat)
    requires j < 5
    ensures Schema(SAMPLE) && StrAt(SAMPLE, MODE) != ""
    ensures ValuesApplied(S.TargetOf("x", 2))[j] != SAMPLE[FIELDS[j]]
  {
    hide ValuesApplied, S.TargetOf, Typed;
    SampleIsSchema();
    SampleApplied();
  }

  lemma HarmedIsNotUndone(n: nat, j: nat, failed: set<nat>)
    requires j < n <= 5 && j in failed
    ensures MaskedRestore(SAMPLE, Partial(SAMPLE, "x", 2, n), failed) != SAMPLE
  {
    hide *;
    SampleDiffers(j);
    FieldAfter(SAMPLE, "x", 2, n, failed, j);
  }

  /**
   A restore with failing commands undoes the first n apply commands, whatever the settings and
   the target, exactly when none of its own first n commands is among those failing. A failed
   enable leaves n below 5 and deletes the copy all the same; after a complete enable n is 5,
   and a second Restore deletes the copy after the first has failed.
   */
  lemma FailingRestoreExact(n: nat, failed: set<nat>)
    requires n <= 5
    ensures StillUndoes(n, failed) <==> forall j :: 0 <= j < n ==> j !in failed
  {
    if j: nat :| j < n && j in failed {
      HarmedIsNotUndone(n, j, failed);
    } else {
      forall os, host, port | Schema(os) && StrAt(os, MODE) != ""
        ensures MaskedRestore(os, Partial(os, host, port, n), failed) == os
      {
        NoneMissedIsUndone(os, host, port, n, failed);
      }
    }
  }

  /** A failed Restore, then another: no copy is left, and the settings are what the first one left. */
  lemma SecondRestoreLeaves(d: Disk, m: S.Mem, f: S.Faults, g: S.Faults)
    requires m.snap.Some? && SomeFail(RestoreCmds(m.snap.value.entries), f.restoreFails)
    ensures var first := S.RestoreOutcome(GNOME, true, m, f);
            var d1 := DoAll(d, first.effects);
            !first.ok && d1 == DoAll(d, Surviving(RestoreCmds(m.snap.value.entries), f.restoreFails, 0))
            && DoAll(d1, S.RestoreOutcome(GNOME, true, first.mem, g).effects) == d1.(backup := None)
  {
    assert [Remove][..0] == [];
  }

  /** Every field holds its original value once the apply has stopped at n and the rollback has missed the failing ones. */
  predicate RollbackKeeps(now: OS, orig: OS, host: string, port: int, n: nat, failed: set<nat>)
    requires Schema(now) && Schema(orig) && n <= 5
  {
    forall j :: 0 <= j < 5 ==>
      (if j < n && j in failed then ValuesApplied(S.TargetOf(host, port))[j] else now[FIELDS[j]]) == orig[FIELDS[j]]
  }

  lemma RollbackKeepsExact(now: OS, orig: OS, host: string, port: int, n: nat, failed: set<nat>)
    requires Schema(now) && StrAt(now, MODE) != "" && Near(GNOME, orig, now) && Schema(orig) && n <= 5
    ensures MaskedRestore(now, Partial(now, host, port, n), failed) == orig
        <==> RollbackKeeps(now, orig, host, port, n, failed)
  {
    hide MaskedRestore, Partial, ValuesApplied, StrAt, Schema;
    var end := MaskedRestore(now, Partial(now, host, port, n), failed);
    OthersAfter(now, host, port, n, failed);
    forall j | 0 <= j < 5
      ensures FIELDS[j] in end && FIELDS[j] in orig && FIELDS[j] in now
           && end[FIELDS[j]] == if j < n && j in failed then ValuesApplied(S.TargetOf(host, port))[j] else now[FIELDS[j]]
    {
      FieldAfter(now, host, port, n, failed, j);
      FieldThere(now, j);
      FieldThere(orig, j);
    }
    if RollbackKeeps(now, orig, host, port, n, failed) {
      forall k | k in orig
        ensures end[k] == orig[k]
      {
        if k in FIELDS {
          var j :| 0 <= j < 5 && FIELDS[j] == k;
        }
      }
    }
  }

  lemma FieldThere(os: OS, j: nat)
    requires Schema(os) && j < 5
    ensures FIELDS[j] in os
  {
  }

  lemma SchemasNow(s: Runs.Sys)
    requires Runs.Inv(GNOME, Exactly, s)
    ensures Schema(s.disk.os) && Schema(s.orig) && Near(GNOME, s.orig, s.disk.os)
  {
    Runs.TypedNow(GNOME, Exactly, s);
    Runs.NearNow(GNOME, Exactly, s);
    SchemaIsTyped(s.disk.os);
    SchemaIsTyped(s.orig);
  }

  lemma GivenUpIsMasked(s: Runs.Sys, e: Runs.Event)
    requires Runs.Copies(GNOME, s, e) && Runs.GaveUp(GNOME, s, e)
    ensures e.f.applyStop.value < 5
    ensures Runs.GivenUp(GNOME, s, e)
         == MaskedRestore(s.disk.os, Partial(s.disk.os, e.c.host, e.c.port, e.f.applyStop.value), e.f.restoreFails)
  {
    ApplyIsFive(S.TargetOf(e.c.host, e.c.port));
  }

  /**
   An Enable that gives up keeps the original exactly when every field holds its original value again: those
   whose rollback command fails after the apply had written them, the value applied; the others, the one before
   the call. From the user's own settings that is when no field is missed that the apply had changed.
   */
  lemma GnomeRollbackExact(s: Runs.Sys, e: Runs.Event)
    requires Runs.Inv(GNOME, Exactly, s) && Runs.Allowed(GNOME, s, e)
    requires Runs.Copies(GNOME, s, e) && Runs.GaveUp(GNOME, s, e) && StrAt(s.disk.os, MODE) != ""
    ensures Schema(s.disk.os) && Schema(s.orig) && e.f.applyStop.value < 5
    ensures Runs.Recoverable(GNOME, Exactly, s.orig, Runs.After(GNOME, s, e).disk)
        <==> RollbackKeeps(s.disk.os, s.orig, e.c.host, e.c.port, e.f.applyStop.value, e.f.restoreFails)
    ensures s.disk.os == s.orig ==>
              (Runs.Recoverable(GNOME, Exactly, s.orig, Runs.After(GNOME, s, e).disk)
               <==> NoneMissed(s.orig, e.c.host, e.c.port, e.f.applyStop.value, e.f.restoreFails))
  {
    hide Runs.Recoverable, Runs.Inv, Runs.After, MaskedRestore, Partial, ValuesApplied, Schema, StrAt, Near, Runs.GivenUp,
         Runs.CallOutcome, Runs.Done;
    GnomeLawful();
    SchemasNow(s);
    Runs.GivenUpExact(GNOME, Exactly, s, e);
    GivenUpIsMasked(s, e);
    var n, failed := e.f.applyStop.value, e.f.restoreFails;
    RollbackKeepsExact(s.disk.os, s.orig, e.c.host, e.c.port, n, failed);
    if s.disk.os == s.orig {
      MaskedRestoreExact(s.orig, e.c.host, e.c.port, n, failed);
    }
  }

  /**
   A dangerous call on GNOME, whatever fails in it, keeps the original exactly when the settings it goes by are
   the original: those its rollback comes to where it gives up, otherwise those in force before the call.
   */
  lemma GnomeHazardExact(s: Runs.Sys, e: Runs.Event)
    requires Runs.Inv(GNOME, Exactly, s) && Runs.Allowed(GNOME, s, e) && Runs.Hazard(GNOME, s, e)
    requires StrAt(s.disk.os, MODE) != ""
    ensures Runs.Copies(GNOME, s, e) && Runs.GaveUp(GNOME, s, e) ==>
              Schema(s.disk.os) && Schema(s.orig) && e.f.applyStop.value < 5
    ensures Runs.Recoverable(GNOME, Exactly, s.orig, Runs.After(GNOME, s, e).disk)
        <==> if Runs.Copies(GNOME, s, e) && Runs.GaveUp(GNOME, s, e)
             then RollbackKeeps(s.disk.os, s.orig, e.c.host, e.c.port, e.f.applyStop.value, e.f.restoreFails)
             else s.disk.os == s.orig
  {
    hide Runs.Recoverable, Runs.Inv, Runs.After, SomeFail, RestoreCmds, SnapshotOf, Runs.CallOutcome, RollbackKeeps, Schema,
         Runs.GaveUp, Runs.Copies, Runs.Drops;
    GnomeLawful();
    if Runs.Drops(GNOME, s, e) {
      DropsIsRestore(s, e);
      Runs.RestoreDrops(GNOME, Exactly, s, e);
    } else if Runs.GaveUp(GNOME, s, e) {
      GnomeRollbackExact(s, e);
    } else {
      SchemasNow(s);
      ModeSuffices(s.disk.os);
      Runs.EnableOverwrites(GNOME, Exactly, s, e);
    }
  }

  lemma DropsIsRestore(s: Runs.Sys, e: Runs.Event)
    requires Runs.Drops(GNOME, s, e)
    ensures !Runs.Copies(GNOME, s, e)
  {
  }

  /** A mode that was never set comes back as none, and everything else as it was. */
  lemma UnsetModeIsNone(os: OS, now: OS)
    requires Schema(os) && StrAt(os, MODE) == "" && Near(GNOME, os, now)
    ensures RunAll(now, RestoreCmds(SnapshotOf(os))) == os[MODE := Str("none")]
  {
    hide RestoreCmds, SnapshotOf, RunAll;
    GnomeBack(os, now);
  }
}
