/**
 The crash-safe system proxy switch (internal/sysproxy/sysproxy.go): snapshot, park on disk,
 apply, re-point, restore, recover. Each operation is a list of effects; a crash keeps a prefix
 of them and loses the memory.
 */
module SysProxy {
  import opened Sequences
  import opened Wrappers
  import opened Settings
  import Text

  /** What goes wrong during one call. */
  datatype Faults = Faults(
    snapshotFails: bool,
    writeFails: bool,
    applyStop: Option<nat>,      // index of the apply command that fails
    restoreFails: set<nat>)      // indices of the restore commands that fail

  datatype Mem = Mem(snap: Option<Snapshot>, target: string)

  const OFF := Mem(None, "")

  datatype Outcome = Outcome(effects: seq<Effect>, mem: Mem, ok: bool)

  function TargetOf(host: string, port: int): string {
    (if host == "" then "127.0.0.1" else host) + ":" + Text.Itoa(port)
  }

  predicate Stops(cmds: seq<Cmd>, f: Faults) {
    f.applyStop.Some? && f.applyStop.value < |cmds|
  }

  /** The apply commands that take effect. */
  function Applied(cmds: seq<Cmd>, f: Faults): seq<Effect> {
    Sets(if Stops(cmds, f) then cmds[..f.applyStop.value] else cmds)
  }

  function Drop(parked: bool): seq<Effect> {
    if parked then [Remove] else []
  }

  /** The rollback of a failed apply: best effort, and the copy goes whatever became of it. */
  function Rolled(p: Platform, parked: bool, entries: seq<Entry>, f: Faults): seq<Effect> {
    Surviving(p.restore(entries), f.restoreFails, 0) + Drop(parked)
  }

  /** Enable when the proxy is off; `parked` says that there is a directory for the recovery copy. */
  function TurnOnOutcome(p: Platform, parked: bool, d: Disk, m: Mem, target: string, f: Faults): Outcome {
    var cmds := p.apply(target);
    var snap := Snapshot(p.name, target, p.snapshot(d.os));
    var save := if parked then [Write(snap)] else [];
    if f.snapshotFails || (parked && f.writeFails) then Outcome([], m, false)
    else if Stops(cmds, f) then
      Outcome(save + (Applied(cmds, f) + Rolled(p, parked, snap.entries, f)), m, false)
    else Outcome(save + Applied(cmds, f), Mem(Some(snap), target), true)
  }

  /** Enable when it is on: the original entries stay, only the target moves. */
  function RepointOutcome(p: Platform, parked: bool, m: Mem, target: string, f: Faults): Outcome
    requires m.snap.Some?
  {
    var cmds := p.apply(target);
    var snap := m.snap.value.(target := target);
    if m.target == target then Outcome([], m, true)
    else if Stops(cmds, f) then Outcome(Applied(cmds, f), m, false)
    else
      Outcome(Applied(cmds, f) + (if parked && !f.writeFails then [Write(snap)] else []),
              Mem(Some(snap), target), true)
  }

  function EnableOutcome(p: Platform, parked: bool, d: Disk, m: Mem, host: string, port: int, f: Faults): Outcome {
    var target := TargetOf(host, port);
    if m.snap.Some? then RepointOutcome(p, parked, m, target, f) else TurnOnOutcome(p, parked, d, m, target, f)
  }

  function RestoreOutcome(p: Platform, parked: bool, m: Mem, f: Faults): Outcome {
    if m.snap.None? then Outcome(Drop(parked), OFF, true)
    else
      var cmds := p.restore(m.snap.value.entries);
      if SomeFail(cmds, f.restoreFails) then Outcome(Surviving(cmds, f.restoreFails, 0), OFF, false)
      else Outcome(Surviving(cmds, f.restoreFails, 0) + Drop(parked), OFF, true)
  }

  function RecoverOutcome(p: Platform, parked: bool, d: Disk, m: Mem, f: Faults): Outcome {
    if !parked || d.backup.None? || d.backup.value.platform != p.name then Outcome([], m, false)
    else
      var cmds := p.restore(d.backup.value.entries);
      if SomeFail(cmds, f.restoreFails) then Outcome(Surviving(cmds, f.restoreFails, 0), m, false)
      else Outcome(Surviving(cmds, f.restoreFails, 0) + Drop(parked), m, true)
  }

  // ---- the controller -----------------------------------------------------

  class Controller {
    const p: Platform
    const dir: string
    const w: World
    var snap: Option<Snapshot>
    var target: string

    constructor (p: Platform, dir: string, w: World)
      ensures this.p == p && this.dir == dir && this.w == w && InMem() == OFF
    {
      this.p, this.dir, this.w := p, dir, w;
      snap, target := None, "";
    }

    ghost function InMem(): Mem
      reads this
    {
      Mem(snap, target)
    }

    /** The effects performed, the memory left and the result are those of `o`. */
    twostate predicate Did(o: Outcome, ok: bool)
      reads this, w
    {
      w.Valid() && w.log == old(w.log) + o.effects && InMem() == o.mem && ok == o.ok
    }

    method WriteBackup(s: Snapshot, fails: bool) returns (ok: bool)
      requires w.Valid()
      modifies w
      ensures w.Valid() && ok == (dir == "" || !fails)
      ensures w.log == old(w.log) + if dir != "" && !fails then [Write(s)] else []
    {
      if dir == "" {
        return true;
      }
      if fails {
        return false;
      }
      w.Perform(Write(s));
      ok := true;
    }

    method RemoveBackup()
      requires w.Valid()
      modifies w
      ensures w.Valid() && w.log == old(w.log) + Drop(dir != "")
    {
      if dir != "" {
        w.Perform(Remove);
      }
    }

    method Enable(host: string, port: int, f: Faults) returns (ok: bool)
      requires w.Valid()
      modifies this, w
      ensures Did(EnableOutcome(p, dir != "", old(w.Now()), old(InMem()), host, port, f), ok)
    {
      var h := if host == "" then "127.0.0.1" else host;
      var t := h + ":" + Text.Itoa(port);
      if snap.Some? {
        ok := Repoint(t, f);
      } else {
        ok := TurnOn(t, f);
      }
    }

    /** Enable while already enabled. */
    method Repoint(t: string, f: Faults) returns (ok: bool)
      requires w.Valid() && snap.Some?
      modifies this, w
      ensures Did(RepointOutcome(p, dir != "", old(InMem()), t, f), ok)
    {
      if target == t {
        return true;
      }
      ok := w.ApplyAll(p.apply(t), f.applyStop);
      if !ok {
        return;
      }
      target := t;
      snap := Some(snap.value.(target := t));
      var _ := WriteBackup(snap.value, f.writeFails);  // a failure is only logged
    }

    /** Puts back what a failed apply may have changed; a failure is only logged. */
    method RollBack(entries: seq<Entry>, f: Faults)
      requires w.Valid()
      modifies w
      ensures w.Valid() && w.log == old(w.log) + Rolled(p, dir != "", entries, f)
    {
      hide Surviving, SomeFail, Drop;
      var _ := w.RestoreAll(p.restore(entries), f.restoreFails);
      RemoveBackup();
      Assoc(old(w.log), Surviving(p.restore(entries), f.restoreFails, 0), Drop(dir != ""));
    }

    /** Applies the target once the copy is parked. */
    method Switch(s: Snapshot, t: string, f: Faults) returns (ok: bool)
      requires w.Valid()
      modifies this, w
      ensures w.Valid() && ok == !Stops(p.apply(t), f)
      ensures InMem() == if ok then Mem(Some(s), t) else old(InMem())
      ensures w.log == old(w.log) + if ok then Applied(p.apply(t), f)
                                    else Applied(p.apply(t), f) + Rolled(p, dir != "", s.entries, f)
    {
      hide Rolled, Sets;
      ok := w.ApplyAll(p.apply(t), f.applyStop);
      if !ok {
        RollBack(s.entries, f);
        Assoc(old(w.log), Applied(p.apply(t), f), Rolled(p, dir != "", s.entries, f));
        return;
      }
      snap := Some(s);
      target := t;
    }

    /** The rest of Enable when the proxy is off. */
    method TurnOn(t: string, f: Faults) returns (ok: bool)
      requires w.Valid() && snap.None?
      modifies this, w
      ensures Did(TurnOnOutcome(p, dir != "", old(w.Now()), old(InMem()), t, f), ok)
    {
      hide Rolled, Applied, Stops;
      if f.snapshotFails {
        return false;
      }
      var s := Snapshot(p.name, t, p.snapshot(w.os));
      ok := WriteBackup(s, f.writeFails);
      if !ok {
        return;
      }
      var save := if dir != "" then [Write(s)] else [];
      Assoc(old(w.log), save, Applied(p.apply(t), f));
      Assoc(old(w.log), save, Applied(p.apply(t), f) + Rolled(p, dir != "", s.entries, f));
      ok := Switch(s, t, f);
    }

    method Restore(f: Faults) returns (ok: bool)
      requires w.Valid()
      modifies this, w
      ensures Did(RestoreOutcome(p, dir != "", old(InMem()), f), ok)
    {
      hide Surviving, SomeFail;
      var s := snap;
      snap := None;
      target := "";
      if s.None? {
        RemoveBackup();
        return true;
      }
      ok := w.RestoreAll(p.restore(s.value.entries), f.restoreFails);
      if ok {
        RemoveBackup();
        Assoc(old(w.log), Surviving(p.restore(s.value.entries), f.restoreFails, 0), Drop(dir != ""));
      }
    }

    method RecoverStale(f: Faults) returns (ok: bool)
      requires w.Valid()
      modifies this, w
      ensures Did(RecoverOutcome(p, dir != "", old(w.Now()), old(InMem()), f), ok)
    {
      hide Surviving, SomeFail;
      if dir == "" || w.backup.None? || w.backup.value.platform != p.name {
        return false;
      }
      var entries := w.backup.value.entries;
      ok := w.RestoreAll(p.restore(entries), f.restoreFails);
      if ok {
        RemoveBackup();
        Assoc(old(w.log), Surviving(p.restore(entries), f.restoreFails, 0), Drop(dir != ""));
      }
    }
  }
}
