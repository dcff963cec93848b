/** Change notification of the flow store (internal/core/store.go), over every interleaving. */
module Wakeups {
  import opened Wrappers

  /** A subscriber: the change it subscribed at, the last change its snapshot shows, its queued token. */
  datatype Sub = Sub(since: nat, seen: nat, token: bool, woken: bool)

  /** A Notify at work: the change it is for, and the channels it has still to send to. */
  datatype Sending = Sending(c: nat, todo: set<int>)

  /** Changes are numbered; `due` holds those whose Notify has not begun; `lock` is the holder of the subscriber lock. */
  datatype World = World(version: nat, due: set<nat>, lock: Option<Sending>, subs: map<int, Sub>)

  datatype Step =
    | Change                  // Add, Update or Clear, under the store's lock
    | Begin(c: nat)           // the Notify of change c takes the subscriber lock
    | SendTo(id: int)         // it sends to one channel, or finds it full
    | Finish                  // it releases the lock
    | Subscribe(id: int)      // both under the subscriber lock
    | Unsubscribe(id: int)
    | Receive(id: int)        // the subscriber takes the token
    | Snapshot(id: int)       // and copies the store

  predicate Enabled(w: World, s: Step) {
    match s
    case Change => true
    case Begin(c) => w.lock.None? && c in w.due
    case SendTo(id) => w.lock.Some? && id in w.lock.value.todo && id in w.subs
    case Finish => w.lock.Some? && w.lock.value.todo == {}
    case Subscribe(id) => w.lock.None? && id !in w.subs
    case Unsubscribe(id) => w.lock.None? && id in w.subs
    case Receive(id) => id in w.subs && w.subs[id].token && !w.subs[id].woken
    case Snapshot(id) => id in w.subs
  }

  function Next(w: World, s: Step): World
    requires Enabled(w, s)
  {
    match s
    case Change => w.(version := w.version + 1, due := w.due + {w.version + 1})
    case Begin(c) => w.(due := w.due - {c}, lock := Some(Sending(c, w.subs.Keys)))
    case SendTo(id) =>
      w.(lock := Some(Sending(w.lock.value.c, w.lock.value.todo - {id})), subs := w.subs[id := w.subs[id].(token := true)])
    case Finish => w.(lock := None)
    case Subscribe(id) => w.(subs := w.subs[id := Sub(w.version, w.version, false, false)])
    case Unsubscribe(id) => w.(subs := w.subs - {id})
    case Receive(id) => w.(subs := w.subs[id := w.subs[id].(token := false, woken := true)])
    case Snapshot(id) => w.(subs := w.subs[id := w.subs[id].(seen := w.version, woken := false)])
  }

  const START := World(0, {}, None, map[])

  ghost predicate IsRun(ws: seq<World>, ss: seq<Step>) {
    && |ws| == |ss| + 1 && ws[0] == START
    && forall i :: 0 <= i < |ss| ==> Enabled(ws[i], ss[i]) && ws[i + 1] == Next(ws[i], ss[i])
  }

  /** The Notify at work is for change c and has still to send to this subscriber. */
  predicate OnItsWay(w: World, id: int, c: nat) {
    w.lock.Some? && w.lock.value.c == c && id in w.lock.value.todo
  }

  /** Change c has reached the subscriber, or something is still under way that will bring it. */
  predicate Accounted(w: World, id: int, c: nat)
    requires id in w.subs
  {
    c <= w.subs[id].seen || w.subs[id].token || c in w.due || OnItsWay(w, id, c) || w.subs[id].woken
  }

  ghost predicate Inv(w: World) {
    forall id, c :: id in w.subs && w.subs[id].since < c <= w.version ==> Accounted(w, id, c)
  }

  lemma StepKeepsInv(w: World, s: Step)
    requires Inv(w) && Enabled(w, s)
    ensures Inv(Next(w, s))
  {
    var n := Next(w, s);
    forall id, c | id in n.subs && n.subs[id].since < c <= n.version
      ensures Accounted(n, id, c)
    {
      if id in w.subs && c <= w.version && w.subs[id].since < c {
        assert Accounted(w, id, c);
      }
    }
  }

  /** No wake-up is lost, in any run: every change made after a Subscribe is accounted for. */
  lemma {:induction false} NoLostWakeup(ws: seq<World>, ss: seq<Step>, i: nat)
    requires IsRun(ws, ss) && i < |ws|
    ensures forall id, c :: id in ws[i].subs && ws[i].subs[id].since < c <= ws[i].version ==> Accounted(ws[i], id, c)
  {
    if 0 < i {
      NoLostWakeup(ws, ss, i - 1);
      StepKeepsInv(ws[i - 1], ss[i - 1]);
      assert ws[i - 1 + 1] == Next(ws[i - 1], ss[i - 1]);
    }
  }

  /** Once nothing is under way, every subscriber that saw a change after subscribing shows the latest store. */
  lemma QuietMeansCurrent(ws: seq<World>, ss: seq<Step>, i: nat, id: int)
    requires IsRun(ws, ss) && i < |ws| && ws[i].due == {} && ws[i].lock.None?
    requires id in ws[i].subs && !ws[i].subs[id].token && !ws[i].subs[id].woken
    requires ws[i].subs[id].since < ws[i].version
    ensures ws[i].version <= ws[i].subs[id].seen
  {
    NoLostWakeup(ws, ss, i);
    assert Accounted(ws[i], id, ws[i].version);
  }

  /** A Notify never waits for a subscriber: each send it has still to make can be made at once. */
  lemma {:induction false} NotifyNeverWaits(ws: seq<World>, ss: seq<Step>, i: nat)
    requires IsRun(ws, ss) && i < |ws|
    ensures ws[i].lock.Some? ==> forall id :: id in ws[i].lock.value.todo ==> Enabled(ws[i], SendTo(id))
  {
    if 0 < i {
      NotifyNeverWaits(ws, ss, i - 1);
      assert ws[i - 1 + 1] == Next(ws[i - 1], ss[i - 1]);
      if ws[i - 1].lock.Some? {
        assert forall id :: id in ws[i - 1].lock.value.todo ==> Enabled(ws[i - 1], SendTo(id));
      }
    }
  }

  // ---- the notifier object ------------------------------------------------

  /** A subscriber's channel of capacity one. */
  datatype Chan = Chan(id: int, full: bool)

  function Filled(subs: seq<Chan>): (r: seq<Chan>)
    ensures |r| == |subs| && forall i :: 0 <= i < |r| ==> r[i] == Chan(subs[i].id, true)
  {
    seq(|subs|, i requires 0 <= i < |subs| => Chan(subs[i].id, true))
  }

  /** The store's subscriber table, in whatever order it is walked. */
  class Notifier {
    var subs: seq<Chan>

    constructor ()
      ensures subs == []
    {
      subs := [];
    }

    /** `ch` is a channel just made. */
    method Subscribe(ch: int)
      requires forall i :: 0 <= i < |subs| ==> subs[i].id != ch
      modifies this
      ensures subs == old(subs) + [Chan(ch, false)]
    {
      subs := subs + [Chan(ch, false)];
    }

    /** A send to every channel that blocks on none: a full channel keeps its one token. */
    method Notify()
      modifies this
      ensures subs == Filled(old(subs))
    {
      for i := 0 to |subs|
        invariant |subs| == |old(subs)|
        invariant forall k :: 0 <= k < |subs| ==> subs[k] == if k < i then Chan(old(subs)[k].id, true) else old(subs)[k]
      {
        if !subs[i].full {
          subs := subs[i := Chan(subs[i].id, true)];
        }
      }
    }
  }
}
