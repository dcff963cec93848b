/**
 The state the proxy switch works on: the operating system's settings, and the recovery copy on
 disk. Everything that survives a crash changes by single effects.
 */
module Settings {
  import opened Sequences
  import opened Wrappers

  datatype Value = Str(s: string) | Num(n: int) | Flag(b: bool)

  /** A field of the operating system's settings: which proxy of which scope, and which of its parts. */
  datatype Kind = General | Http | Https | Web | Secure

  datatype Part = Mode | Enabled | Server | Port

  datatype Key = Key(scope: string, kind: Kind, part: Part)

  type OS = map<Key, Value>

  /** One command of the platform's tool: the fields it sets, all at once. */
  type Cmd = map<Key, Value>

  datatype Entry = Entry(scope: string, key: string, enabled: bool, server: string, port: int, text: string)

  datatype Snapshot = Snapshot(platform: string, target: string, entries: seq<Entry>)

  datatype Disk = Disk(os: OS, backup: Option<Snapshot>)

  datatype Effect = Set(cmd: Cmd) | Write(snap: Snapshot) | Remove

  function Do(d: Disk, e: Effect): Disk {
    match e
    case Set(cmd) => d.(os := d.os + cmd)
    case Write(snap) => d.(backup := Some(snap))
    case Remove => d.(backup := None)
  }

  function DoAll(d: Disk, es: seq<Effect>): Disk {
    if es == [] then d else Do(DoAll(d, es[..|es| - 1]), es[|es| - 1])
  }

  function Sets(cmds: seq<Cmd>): (es: seq<Effect>)
    ensures |es| == |cmds| && forall i :: 0 <= i < |es| ==> es[i] == Set(cmds[i])
  {
    seq(|cmds|, i requires 0 <= i < |cmds| => Set(cmds[i]))
  }

  /** The commands from index i on that do not fail; the others are skipped. */
  function Surviving(cmds: seq<Cmd>, failed: set<nat>, i: nat): seq<Effect>
    decreases |cmds| - i
  {
    if |cmds| <= i then []
    else (if i in failed then [] else [Set(cmds[i])]) + Surviving(cmds, failed, i + 1)
  }

  lemma SurvivingUnfolds(cmds: seq<Cmd>, failed: set<nat>, i: nat)
    ensures Surviving(cmds, failed, i)
         == if |cmds| <= i then []
            else if i in failed then Surviving(cmds, failed, i + 1)
            else [Set(cmds[i])] + Surviving(cmds, failed, i + 1)
  {
  }

  predicate SomeFail(cmds: seq<Cmd>, failed: set<nat>) {
    exists i: nat :: i < |cmds| && i in failed
  }

  function RunAll(os: OS, cmds: seq<Cmd>): OS {
    if cmds == [] then os else RunAll(os, cmds[..|cmds| - 1]) + cmds[|cmds| - 1]
  }

  lemma {:induction false} DoAllConcat(d: Disk, a: seq<Effect>, b: seq<Effect>)
    ensures DoAll(d, a + b) == DoAll(DoAll(d, a), b)
  {
    if b == [] {
      assert a + b == a;
    } else {
      assert (a + b)[..|a + b| - 1] == a + b[..|b| - 1];
      DoAllConcat(d, a, b[..|b| - 1]);
    }
  }

  lemma {:induction false} DoAllSets(d: Disk, cmds: seq<Cmd>)
    ensures DoAll(d, Sets(cmds)) == d.(os := RunAll(d.os, cmds))
  {
    if cmds != [] {
      assert Sets(cmds)[..|cmds| - 1] == Sets(cmds[..|cmds| - 1]);
      DoAllSets(d, cmds[..|cmds| - 1]);
    }
  }

  lemma {:induction false} AllSurvive(cmds: seq<Cmd>, failed: set<nat>, i: nat)
    requires i <= |cmds| && !SomeFail(cmds, failed)
    ensures Surviving(cmds, failed, i) == Sets(cmds[i..])
    decreases |cmds| - i
  {
    if i < |cmds| {
      AllSurvive(cmds, failed, i + 1);
      assert Sets(cmds[i..]) == [Set(cmds[i])] + Sets(cmds[i + 1..]);
    }
  }

  /**
   What a platform file provides: the fields it owns, the snapshot it takes, the commands it
   issues to point every proxy at a target and to put a snapshot back.
   */
  datatype Platform = Platform(
    name: string,
    keys: set<Key>,
    snapshot: OS -> seq<Entry>,
    apply: string -> seq<Cmd>,
    restore: seq<Entry> -> seq<Cmd>)

  /** The type of a field follows from its part. */
  predicate Fits(k: Key, v: Value) {
    match k.part
    case Mode | Server => v.Str?
    case Enabled => v.Flag?
    case Port => v.Num?
  }

  ghost predicate Typed(keys: set<Key>, os: OS) {
    forall k :: k in keys ==> k in os && Fits(k, os[k])
  }

  ghost predicate InType(cmd: Cmd, keys: set<Key>) {
    cmd.Keys <= keys && forall k :: k in cmd ==> Fits(k, cmd[k])
  }

  ghost predicate Within(cmds: seq<Cmd>, keys: set<Key>) {
    forall i :: 0 <= i < |cmds| ==> InType(cmds[i], keys)
  }

  /** Settings that differ from `orig` at most in the fields the platform owns, which keep their types. */
  ghost predicate Near(p: Platform, orig: OS, os: OS) {
    os.Keys == orig.Keys && Typed(p.keys, os) && forall k :: k in orig && k !in p.keys ==> os[k] == orig[k]
  }

  /** What a platform promises: it issues commands on fields it owns, in their types. */
  ghost predicate Lawful(p: Platform) {
    && (forall target :: Within(p.apply(target), p.keys))
    && (forall os :: Typed(p.keys, os) ==> Within(p.restore(p.snapshot(os)), p.keys))
  }

  /** All that can be seen of settings is the settings. */
  function Exactly(os: OS): OS { os }

  /** As far as `see` shows, restoring the snapshot of `base` brings `base` back from everywhere near it. */
  ghost predicate Restores<V>(p: Platform, see: OS -> V, base: OS) {
    forall os :: Near(p, base, os) ==> see(RunAll(os, p.restore(p.snapshot(base)))) == see(base)
  }

  /** So do the snapshots of all settings that look like `base`. */
  ghost predicate Undoable<V>(p: Platform, see: OS -> V, base: OS) {
    && Typed(p.keys, base)
    && forall src :: Near(p, base, src) && see(src) == see(base) ==> Restores(p, see, src)
  }

  /** Command i writes value i to field i, and nothing else; the fields are distinct. */
  ghost predicate OneByOne(cmds: seq<Cmd>, ks: seq<Key>, vs: seq<Value>) {
    && |cmds| == |ks| == |vs|
    && (forall i :: 0 <= i < |cmds| ==> cmds[i] == map[ks[i] := vs[i]])
    && (forall i, j :: 0 <= i < j < |ks| ==> ks[i] != ks[j])
  }

  lemma SurvivingStep(d: Disk, cmds: seq<Cmd>, failed: set<nat>, i: nat)
    requires i < |cmds|
    ensures DoAll(d, Surviving(cmds, failed, i))
         == DoAll(if i in failed then d else Do(d, Set(cmds[i])), Surviving(cmds, failed, i + 1))
  {
    var head := if i in failed then [] else [Set(cmds[i])];
    if head != [] { assert head[..0] == []; }
    DoAllConcat(d, head, Surviving(cmds, failed, i + 1));
  }

  lemma SurvivingNone(d: Disk, cmds: seq<Cmd>, failed: set<nat>, i: nat)
    requires |cmds| <= i
    ensures DoAll(d, Surviving(cmds, failed, i)) == d
  {
  }

  /** Commands i.. leave field j its value, unless command j failed. */
  lemma {:induction false} SurvivingAt(d: Disk, cmds: seq<Cmd>, ks: seq<Key>, vs: seq<Value>, failed: set<nat>, i: nat, j: nat)
    requires OneByOne(cmds, ks, vs) && i <= |cmds| && j < |ks| && ks[j] in d.os
    ensures var e := DoAll(d, Surviving(cmds, failed, i));
            ks[j] in e.os && e.os[ks[j]] == if i <= j && j !in failed then vs[j] else d.os[ks[j]]
    decreases |cmds| - i
  {
    hide DoAll, Surviving;
    if i == |cmds| {
      SurvivingNone(d, cmds, failed, i);
    } else {
      SurvivingStep(d, cmds, failed, i);
      SurvivingAt(if i in failed then d else Do(d, Set(cmds[i])), cmds, ks, vs, failed, i + 1, j);
    }
  }

  /** Fields that no command writes stay, no field appears or goes, and the copy is not touched. */
  lemma {:induction false} SurvivingElsewhere(d: Disk, cmds: seq<Cmd>, ks: seq<Key>, vs: seq<Value>, failed: set<nat>, i: nat)
    requires OneByOne(cmds, ks, vs) && i <= |cmds| && forall j :: 0 <= j < |ks| ==> ks[j] in d.os
    ensures var e := DoAll(d, Surviving(cmds, failed, i));
            && e.backup == d.backup && e.os.Keys == d.os.Keys
            && forall k :: k in d.os && k !in ks ==> e.os[k] == d.os[k]
    decreases |cmds| - i
  {
    hide DoAll, Surviving;
    if i == |cmds| {
      SurvivingNone(d, cmds, failed, i);
    } else {
      SurvivingStep(d, cmds, failed, i);
      SurvivingElsewhere(if i in failed then d else Do(d, Set(cmds[i])), cmds, ks, vs, failed, i + 1);
    }
  }

  /** The first n commands alone. */
  lemma {:induction false} RunWrites(os: OS, cmds: seq<Cmd>, ks: seq<Key>, vs: seq<Value>, n: nat)
    requires OneByOne(cmds, ks, vs) && n <= |cmds| && forall j :: 0 <= j < |ks| ==> ks[j] in os
    ensures var e := RunAll(os, cmds[..n]);
            && e.Keys == os.Keys
            && (forall j :: 0 <= j < |ks| ==> e[ks[j]] == if j < n then vs[j] else os[ks[j]])
            && (forall k :: k in os && k !in ks ==> e[k] == os[k])
  {
    if 0 < n {
      RunWrites(os, cmds, ks, vs, n - 1);
      RunOne(os, cmds, n);
      hide RunAll;
    }
  }

  lemma RunOne(os: OS, cmds: seq<Cmd>, n: nat)
    requires 0 < n <= |cmds|
    ensures RunAll(os, cmds[..n]) == RunAll(os, cmds[..n - 1]) + cmds[n - 1]
  {
    assert cmds[..n][..n - 1] == cmds[..n - 1];
  }

  /** The commands of a list of entries, in order. */
  function CmdsOf(f: Entry -> seq<Cmd>, es: seq<Entry>): seq<Cmd> {
    if es == [] then [] else f(es[0]) + CmdsOf(f, es[1..])
  }

  lemma NextEntry(f: Entry -> seq<Cmd>, es: seq<Entry>, i: nat, cmds: seq<Cmd>, n: nat)
    requires i < |es| && n <= |cmds| && cmds[n..] == CmdsOf(f, es[i..])
    ensures var m := n + |f(es[i])|;
            m <= |cmds| && cmds[n..m] == f(es[i]) && cmds[m..] == CmdsOf(f, es[i + 1..])
  {
    var todo, rest := f(es[i]), CmdsOf(f, es[i + 1..]);
    assert es[i..][1..] == es[i + 1..];
    assert cmds[n..] == todo + rest;
    var m := n + |todo|;
    assert cmds[n..m] == (todo + rest)[..|todo|] == todo;
    assert cmds[m..] == (todo + rest)[|todo|..] == rest;
  }

  /** Whatever commands of the platform run, the settings stay near where they started. */
  lemma {:induction false} StaysNear(p: Platform, orig: OS, os: OS, cmds: seq<Cmd>)
    requires Near(p, orig, os) && Within(cmds, p.keys) && p.keys <= orig.Keys
    ensures Near(p, orig, RunAll(os, cmds))
  {
    if cmds != [] {
      var n := |cmds| - 1;
      StaysNear(p, orig, os, cmds[..n]);
      assert InType(cmds[n], p.keys);
    }
  }

  /** The commands of a list of applies, each cut off after some of its steps. */
  function ManyApplies(p: Platform, runs: seq<(string, nat)>): seq<Cmd> {
    if runs == [] then []
    else
      var cmds := p.apply(runs[0].0);
      (if runs[0].1 < |cmds| then cmds[..runs[0].1] else cmds) + ManyApplies(p, runs[1..])
  }

  lemma {:induction false} ManyAppliesWithin(p: Platform, runs: seq<(string, nat)>)
    requires Lawful(p)
    ensures Within(ManyApplies(p, runs), p.keys)
  {
    if runs != [] {
      ManyAppliesWithin(p, runs[1..]);
      assert Within(p.apply(runs[0].0), p.keys);
    }
  }

  /** After any number of applies, complete or cut off, one restore brings back what `see` shows. */
  lemma AppliesUndone<V>(p: Platform, see: OS -> V, os: OS, runs: seq<(string, nat)>)
    requires Lawful(p) && Undoable(p, see, os)
    ensures see(RunAll(RunAll(os, ManyApplies(p, runs)), p.restore(p.snapshot(os)))) == see(os)
  {
    ManyAppliesWithin(p, runs);
    StaysNear(p, os, os, ManyApplies(p, runs));
    assert Near(p, os, os) && Restores(p, see, os);
  }

  /** The live machine: settings and recovery copy, always what its log of effects has made of them. */
  class World {
    var os: OS
    var backup: Option<Snapshot>
    ghost const start: Disk
    ghost var log: seq<Effect>

    constructor (os: OS, backup: Option<Snapshot>)
      ensures Valid() && Now() == Disk(os, backup) && log == []
    {
      this.os, this.backup, log := os, backup, [];
      start := Disk(os, backup);
    }

    ghost function Now(): Disk
      reads this
    {
      Disk(os, backup)
    }

    ghost predicate Valid()
      reads this
    {
      Now() == DoAll(start, log)
    }

    method Perform(e: Effect)
      requires Valid()
      modifies this
      ensures Valid() && log == old(log) + [e]
    {
      match e {
        case Set(cmd) => os := os + cmd;
        case Write(snap) => backup := Some(snap);
        case Remove => backup := None;
      }
      log := log + [e];
      assert log[..|log| - 1] == old(log);
    }

    /** Runs commands in order and stops at the first that fails, the one at index `stop` if any. */
    method ApplyAll(cmds: seq<Cmd>, stop: Option<nat>) returns (ok: bool)
      requires Valid()
      modifies this
      ensures Valid() && ok == !(stop.Some? && stop.value < |cmds|)
      ensures log == old(log) + Sets(if ok then cmds else cmds[..stop.value])
    {
      var i := 0;
      while i < |cmds|
        invariant i <= |cmds| && (stop.Some? ==> i <= stop.value)
        invariant Valid() && log == old(log) + Sets(cmds[..i])
      {
        if stop == Some(i) {
          return false;
        }
        Perform(Set(cmds[i]));
        assert Sets(cmds[..i + 1]) == Sets(cmds[..i]) + [Set(cmds[i])];
        i := i + 1;
      }
      assert cmds[..i] == cmds;
      ok := true;
    }

    /** Runs every command, skipping the failing ones, and reports whether any failed. */
    method RestoreAll(cmds: seq<Cmd>, failed: set<nat>) returns (ok: bool)
      requires Valid()
      modifies this
      ensures Valid() && ok == !SomeFail(cmds, failed)
      ensures log == old(log) + Surviving(cmds, failed, 0)
    {
      hide Surviving;
      ok := true;
      ghost var done: seq<Effect> := [];
      for i := 0 to |cmds|
        invariant ok == forall k: nat :: k < i ==> k !in failed
        invariant done + Surviving(cmds, failed, i) == Surviving(cmds, failed, 0)
        invariant Valid() && log == old(log) + done
      {
        SurvivingUnfolds(cmds, failed, i);
        if i in failed {
          ok := false;
        } else {
          Perform(Set(cmds[i]));
          Assoc(done, [Set(cmds[i])], Surviving(cmds, failed, i + 1));
          done := done + [Set(cmds[i])];
        }
      }
      SurvivingUnfolds(cmds, failed, |cmds|);
      assert done + [] == done;
    }

    /** The commands of one entry, which are `all[n..n + |todo|]`; reports the first that fails. */
    method TryEach(todo: seq<Cmd>, n: nat, failed: set<nat>, ghost all: seq<Cmd>) returns (err: Option<nat>)
      requires Valid() && n + |todo| <= |all| && todo == all[n..n + |todo|]
      modifies this
      ensures err.None? <==> forall k :: n <= k < n + |todo| ==> k !in failed
      ensures Valid()
      ensures log + Surviving(all, failed, n + |todo|) == old(log) + Surviving(all, failed, n)
    {
      err := None;
      for j := 0 to |todo|
        invariant err.None? <==> forall k :: n <= k < n + j ==> k !in failed
        invariant Valid() && log + Surviving(all, failed, n + j) == old(log) + Surviving(all, failed, n)
      {
        assert todo[j] == all[n + j];
        if n + j in failed {
          err := if err.None? then Some(n + j) else err;
        } else {
          Perform(Set(todo[j]));
        }
      }
    }

    /** The restore loop over entries: every command is tried and the first error is remembered. */
    method RestoreEntries(f: Entry -> seq<Cmd>, entries: seq<Entry>, failed: set<nat>) returns (ok: bool)
      requires Valid()
      modifies this
      ensures Valid() && ok == !SomeFail(CmdsOf(f, entries), failed)
      ensures log == old(log) + Surviving(CmdsOf(f, entries), failed, 0)
    {
      var firstErr: Option<nat> := None;
      var n: nat := 0;
      ghost var cmds := CmdsOf(f, entries);
      for i := 0 to |entries|
        invariant n <= |cmds| && cmds[n..] == CmdsOf(f, entries[i..])
        invariant firstErr.None? <==> forall k: nat :: k < n ==> k !in failed
        invariant Valid() && log + Surviving(cmds, failed, n) == old(log) + Surviving(cmds, failed, 0)
      {
        NextEntry(f, entries, i, cmds, n);
        var todo := f(entries[i]);
        var err := TryEach(todo, n, failed, cmds);
        firstErr := if firstErr.None? then err else firstErr;
        n := n + |todo|;
      }
      assert n == |cmds|;
      ok := firstErr.None?;
    }
  }
}
