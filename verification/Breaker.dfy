/** The breakpoint queue (internal/core/breakpoint.go), alone and over every interleaving of its callers. */
module Breaker {
  import opened Unicode

  datatype Verdict = Verdict(drop: bool, raw: Bytes, reason: string)

  const PASS := Verdict(false, [], "")

  // ---- the queue under its lock -------------------------------------------

  function Find(pending: seq<nat>, id: nat): (i: nat)
    ensures i <= |pending| && (i < |pending| ==> pending[i] == id)
    ensures forall k :: 0 <= k < i ==> pending[k] != id
  {
    if pending == [] || pending[0] == id then 0 else 1 + Find(pending[1..], id)
  }

  function Without(pending: seq<nat>, i: nat): seq<nat>
    requires i < |pending|
  {
    pending[..i] + pending[i + 1..]
  }

  class Queue {
    var pending: seq<nat>
    var nextID: nat

    constructor ()
      ensures pending == [] && nextID == 0
    {
      pending, nextID := [], 0;
    }

    /** The locked part of Hold. */
    method Enqueue() returns (id: nat)
      modifies this
      ensures id == old(nextID) + 1 && nextID == id && pending == old(pending) + [id]
    {
      nextID := nextID + 1;
      id := nextID;
      pending := pending + [id];
    }

    /** The locked part of Submit. */
    method Take(id: nat) returns (found: bool)
      modifies this
      ensures nextID == old(nextID) && found == (id in old(pending))
      ensures pending == if found then Without(old(pending), Find(old(pending), id)) else old(pending)
    {
      hide Find;
      for i := 0 to |pending|
        invariant pending == old(pending) && nextID == old(nextID)
        invariant forall k :: 0 <= k < i ==> pending[k] != id
      {
        if pending[i] == id {
          pending := pending[..i] + pending[i + 1..];
          return true;
        }
      }
      found := false;
    }

    /** The locked part of ReleaseAll. */
    method TakeAll() returns (taken: seq<nat>)
      modifies this
      ensures taken == old(pending) && pending == [] && nextID == old(nextID)
    {
      taken := pending;
      pending := [];
    }
  }

  // ---- the machine --------------------------------------------------------

  /** A send a releasing call still has to make. */
  datatype Send = Send(id: nat, v: Verdict)

  /** Who took a breakpoint out of the queue, and with which verdict. */
  datatype Removal = Removal(call: nat, v: Verdict)

  datatype State = State(
    pending: seq<nat>,
    nextID: nat,
    chan: map<nat, seq<Verdict>>,      // the channel of each breakpoint held so far
    due: map<nat, seq<Send>>,          // what each releasing call has still to send
    removed: map<nat, Removal>,        // history: the removal of each breakpoint
    got: map<nat, Verdict>)            // what each finished Hold returned

  datatype Step =
    | Hold
    | Submit(call: nat, id: nat, v: Verdict)
    | ReleaseAll(call: nat)
    | SendOne(call: nat)
    | Receive(id: nat)

  const START := State([], 0, map[], map[], map[], map[])

  predicate Enabled(s: State, e: Step) {
    match e
    case Hold => true
    case Submit(call, id, v) => call !in s.due
    case ReleaseAll(call) => call !in s.due
    case SendOne(call) => call in s.due && s.due[call] != [] && s.due[call][0].id in s.chan
    case Receive(id) => id in s.chan && s.chan[id] != [] && id !in s.got
  }

  function SendsTo(pending: seq<nat>): (ds: seq<Send>)
    ensures |ds| == |pending| && forall i :: 0 <= i < |ds| ==> ds[i] == Send(pending[i], PASS)
  {
    seq(|pending|, i requires 0 <= i < |pending| => Send(pending[i], PASS))
  }

  function Next(s: State, e: Step): State
    requires Enabled(s, e)
  {
    match e
    case Hold =>
      var id := s.nextID + 1;
      s.(pending := s.pending + [id], nextID := id, chan := s.chan[id := []])
    case Submit(call, id, v) =>
      if id in s.pending then
        s.(pending := Without(s.pending, Find(s.pending, id)),
           due := s.due[call := [Send(id, v)]],
           removed := s.removed[id := Removal(call, v)])
      else s.(due := s.due[call := []])
    case ReleaseAll(call) =>
      s.(pending := [],
         due := s.due[call := SendsTo(s.pending)],
         removed := map id | id in s.removed.Keys + (set i | i in s.pending)
                      :: if id in s.pending then Removal(call, PASS) else s.removed[id])
    case SendOne(call) =>
      var d := s.due[call][0];
      s.(chan := s.chan[d.id := s.chan[d.id] + [d.v]], due := s.due[call := s.due[call][1..]])
    case Receive(id) =>
      s.(chan := s.chan[id := s.chan[id][1..]], got := s.got[id := s.chan[id][0]])
  }

  ghost predicate IsRun(ss: seq<State>, es: seq<Step>) {
    && |ss| == |es| + 1 && ss[0] == START
    && forall i :: 0 <= i < |es| ==> Enabled(ss[i], es[i]) && ss[i + 1] == Next(ss[i], es[i])
  }

  // ---- the invariant ------------------------------------------------------

  predicate IsPending(s: State, id: nat) { id in s.pending }

  ghost predicate InFlight(s: State, id: nat) {
    id in s.removed && s.removed[id].call in s.due
    && exists k :: 0 <= k < |s.due[s.removed[id].call]| && s.due[s.removed[id].call][k].id == id
  }

  predicate IsSent(s: State, id: nat) { id in s.chan && s.chan[id] != [] }

  predicate IsReceived(s: State, id: nat) { id in s.got }

  ghost predicate Ascending(pending: seq<nat>) {
    forall i, j :: 0 <= i < j < |pending| ==> pending[i] < pending[j]
  }

  /** One breakpoint is in exactly one place, and past the queue its verdict is that of its removal. */
  ghost predicate Placed(s: State, id: nat) {
    && id in s.chan
    && (IsPending(s, id) <==> id !in s.removed)
    && (IsPending(s, id) ==> !IsSent(s, id) && !IsReceived(s, id))
    && (IsSent(s, id) ==> id in s.removed && s.chan[id] == [s.removed[id].v] && !IsReceived(s, id))
    && (IsReceived(s, id) ==> id in s.removed && s.got[id] == s.removed[id].v)
    && (id in s.removed ==> (InFlight(s, id) <==> !IsSent(s, id) && !IsReceived(s, id)))
  }

  /** What a call still has to send it removed itself, each breakpoint once. */
  ghost predicate Owed(s: State, call: nat)
    requires call in s.due
  {
    && (forall k :: 0 <= k < |s.due[call]| ==>
          var d := s.due[call][k];
          1 <= d.id <= s.nextID && d.id in s.removed && s.removed[d.id] == Removal(call, d.v) && InFlight(s, d.id))
    && (forall j, k :: 0 <= j < k < |s.due[call]| ==> s.due[call][j].id != s.due[call][k].id)
  }

  ghost predicate Known(s: State) {
    && (forall i :: 0 <= i < |s.pending| ==> 1 <= s.pending[i] <= s.nextID)
    && (forall id :: id in s.chan ==> 1 <= id <= s.nextID)
    && (forall id :: id in s.removed ==> 1 <= id <= s.nextID && s.removed[id].call in s.due)
    && (forall id :: id in s.got ==> 1 <= id <= s.nextID)
  }

  ghost predicate Inv(s: State) {
    && Ascending(s.pending) && Known(s)
    && (forall id: nat :: 1 <= id <= s.nextID ==> Placed(s, id))
    && (forall call :: call in s.due ==> Owed(s, call))
  }

  lemma HoldKeepsInv(s: State)
    requires Inv(s)
    ensures Inv(Next(s, Hold))
  {
    var n := Next(s, Hold);
    forall id: nat | 1 <= id <= n.nextID
      ensures Placed(n, id)
    {
      if id <= s.nextID {
        assert Placed(s, id);
        assert InFlight(n, id) == InFlight(s, id);
      } else {
        assert id !in s.removed && id !in s.chan;
        assert id !in s.got;
      }
    }
    forall call | call in n.due
      ensures Owed(n, call)
    {
      assert Owed(s, call);
    }
  }

  /** Taking a breakpoint out leaves the others, in order. */
  lemma WithoutKeeps(pending: seq<nat>, i: nat)
    requires Ascending(pending) && i < |pending|
    ensures var rest := Without(pending, i);
            Ascending(rest) && forall x :: x in rest <==> x in pending && x != pending[i]
  {
    var rest := Without(pending, i);
    assert forall k :: 0 <= k < |rest| ==> rest[k] == pending[if k < i then k else k + 1];
    forall x | x in pending && x != pending[i]
      ensures x in rest
    {
      var k :| 0 <= k < |pending| && pending[k] == x;
      assert rest[if k < i then k else k - 1] == x;
    }
    forall x | x in rest
      ensures x in pending && x != pending[i]
    {
      var k :| 0 <= k < |rest| && rest[k] == x;
      assert pending[if k < i then k else k + 1] == x;
    }
  }

  ghost predicate OwesOne(n: State, call: nat, id: nat)
    requires call in n.due
  {
    exists k :: 0 <= k < |n.due[call]| && n.due[call][k].id == id
  }

  /** A call takes breakpoints out of the queue, and owes each of them one send. */
  ghost predicate Removes(s: State, n: State, call: nat) {
    && call !in s.due && n.nextID == s.nextID && n.chan == s.chan && n.got == s.got
    && call in n.due && n.due == s.due[call := n.due[call]]
    && Ascending(n.pending) && (forall x :: x in n.pending ==> x in s.pending)
    && (forall k :: 0 <= k < |n.due[call]| ==>
          var d := n.due[call][k];
          d.id in s.pending && d.id !in n.pending && d.id in n.removed && n.removed[d.id] == Removal(call, d.v))
    && (forall j, k :: 0 <= j < k < |n.due[call]| ==> n.due[call][j].id != n.due[call][k].id)
    && (forall x :: x in s.pending && x !in n.pending ==>
          x in n.removed && n.removed[x].call == call && OwesOne(n, call, x))
    && (forall x :: x in s.removed ==> x in n.removed && n.removed[x] == s.removed[x])
    && (forall x :: x in n.removed && x !in s.removed ==> x in s.pending && x !in n.pending)
  }

  lemma InvAscends(s: State)
    requires Inv(s)
    ensures Ascending(s.pending)
  {
  }

  lemma PendingIsPlaced(s: State, x: nat)
    requires Inv(s) && x in s.pending
    ensures 1 <= x <= s.nextID && Placed(s, x)
  {
    var i :| 0 <= i < |s.pending| && s.pending[i] == x;
  }

  /** A breakpoint removed earlier is on its way after a removal exactly when it was before. */
  lemma FlightKept(s: State, n: State, call: nat, id: nat)
    requires Inv(s) && Removes(s, n, call) && 1 <= id <= s.nextID && id in s.removed
    ensures InFlight(n, id) == InFlight(s, id)
  {
    var c := s.removed[id].call;
    assert Placed(s, id) && n.removed[id] == s.removed[id];
    assert c in s.due && n.due[c] == s.due[c];
  }

  lemma RemovalPlaces(s: State, n: State, call: nat, id: nat)
    requires Inv(s) && Removes(s, n, call) && 1 <= id <= s.nextID
    ensures Placed(n, id)
  {
    assert Placed(s, id);
    if id in s.removed {
      FlightKept(s, n, call, id);
    } else if id !in n.pending {
      assert OwesOne(n, call, id);
    }
  }

  lemma RemovalOwes(s: State, n: State, call: nat, c: nat)
    requires Inv(s) && Removes(s, n, call) && c in n.due
    ensures Owed(n, c)
  {
    forall k | 0 <= k < |n.due[c]|
      ensures var d := n.due[c][k];
              1 <= d.id <= n.nextID && d.id in n.removed && n.removed[d.id] == Removal(c, d.v) && InFlight(n, d.id)
    {
      var d := n.due[c][k];
      if c == call {
        PendingIsPlaced(s, d.id);
      } else {
        assert Owed(s, c) && n.removed[d.id] == s.removed[d.id];
      }
    }
    if c != call {
      assert Owed(s, c);
    }
  }

  lemma RemovalKeepsInv(s: State, n: State, call: nat)
    requires Inv(s) && Removes(s, n, call)
    ensures Inv(n)
  {
    forall x | x in s.pending
      ensures 1 <= x <= s.nextID
    {
      PendingIsPlaced(s, x);
    }
    assert Known(n) by {
      assert forall i :: 0 <= i < |n.pending| ==> n.pending[i] in s.pending;
    }
    forall id: nat | 1 <= id <= n.nextID
      ensures Placed(n, id)
    {
      RemovalPlaces(s, n, call, id);
    }
    forall c | c in n.due
      ensures Owed(n, c)
    {
      RemovalOwes(s, n, call, c);
    }
  }

  lemma SubmitKeepsInv(s: State, call: nat, id: nat, v: Verdict)
    requires Inv(s) && Enabled(s, Submit(call, id, v))
    ensures Inv(Next(s, Submit(call, id, v)))
  {
    hide Find, Inv, Ascending;
    var n := Next(s, Submit(call, id, v));
    InvAscends(s);
    if id in s.pending {
      WithoutKeeps(s.pending, Find(s.pending, id));
      PendingIsPlaced(s, id);
      assert n.due[call][0].id == id;
      assert OwesOne(n, call, id);
    }
    assert Removes(s, n, call);
    RemovalKeepsInv(s, n, call);
  }

  lemma ReleaseKeepsInv(s: State, call: nat)
    requires Inv(s) && Enabled(s, ReleaseAll(call))
    ensures Inv(Next(s, ReleaseAll(call)))
  {
    var n := Next(s, ReleaseAll(call));
    forall x | x in s.pending
      ensures x !in s.removed && n.removed[x] == Removal(call, PASS) && OwesOne(n, call, x)
    {
      PendingIsPlaced(s, x);
      var i :| 0 <= i < |s.pending| && s.pending[i] == x;
      assert n.due[call][i].id == x;
    }
    assert Removes(s, n, call);
    RemovalKeepsInv(s, n, call);
  }

  lemma SendPlaces(s: State, call: nat, id: nat)
    requires Inv(s) && Enabled(s, SendOne(call)) && 1 <= id <= s.nextID
    ensures Placed(Next(s, SendOne(call)), id)
  {
    hide Inv;
    var n := Next(s, SendOne(call));
    var d := s.due[call][0];
    InvAt(s, call, d.id);
    InvAt(s, call, id);
    if id == d.id {
      assert forall k :: 0 <= k < |n.due[call]| ==> n.due[call][k] == s.due[call][k + 1];
      assert !InFlight(n, id);
    } else {
      FlightMoves(s, n, call, id);
    }
  }

  lemma InvAt(s: State, call: nat, id: nat)
    requires Inv(s)
    ensures call in s.due ==> Owed(s, call)
    ensures 1 <= id <= s.nextID ==> Placed(s, id)
    ensures call in s.due && s.due[call] != [] ==> 1 <= s.due[call][0].id <= s.nextID
  {
  }

  lemma SendOwes(s: State, call: nat, c: nat)
    requires Inv(s) && Enabled(s, SendOne(call)) && c in Next(s, SendOne(call)).due
    ensures Owed(Next(s, SendOne(call)), c)
  {
    hide Inv;
    var n := Next(s, SendOne(call));
    InvAt(s, c, 0);
    assert forall k :: 0 <= k < |n.due[c]| ==> n.due[c][k] == s.due[c][if c == call then k + 1 else k];
    assert n.removed == s.removed && n.nextID == s.nextID;
    forall k | 0 <= k < |n.due[c]|
      ensures InFlight(n, n.due[c][k].id)
    {
      assert n.removed[n.due[c][k].id].call == c;
    }
  }

  lemma SendKeepsInv(s: State, call: nat)
    requires Inv(s) && Enabled(s, SendOne(call))
    ensures Inv(Next(s, SendOne(call)))
  {
    hide Placed, Owed;
    var n := Next(s, SendOne(call));
    forall id: nat | 1 <= id <= n.nextID
      ensures Placed(n, id)
    {
      SendPlaces(s, call, id);
    }
    forall c | c in n.due
      ensures Owed(n, c)
    {
      SendOwes(s, call, c);
    }
  }

  /** Sending to one breakpoint leaves the sends owed to the others. */
  lemma FlightMoves(s: State, n: State, call: nat, id: nat)
    requires call in s.due && s.due[call] != [] && s.due[call][0].id != id
    requires n.removed == s.removed && n.due == s.due[call := s.due[call][1..]]
    ensures InFlight(n, id) == InFlight(s, id)
  {
    if InFlight(s, id) {
      var c := s.removed[id].call;
      var k :| 0 <= k < |s.due[c]| && s.due[c][k].id == id;
      assert if c == call then n.due[c][k - 1].id == id else n.due[c][k].id == id;
    }
    if InFlight(n, id) {
      var c := n.removed[id].call;
      var k :| 0 <= k < |n.due[c]| && n.due[c][k].id == id;
      assert if c == call then s.due[c][k + 1].id == id else s.due[c][k].id == id;
    }
  }

  lemma ReceiveKeepsInv(s: State, id: nat)
    requires Inv(s) && Enabled(s, Receive(id))
    ensures Inv(Next(s, Receive(id)))
  {
    var n := Next(s, Receive(id));
    assert Placed(s, id);
    forall x: nat | 1 <= x <= n.nextID
      ensures Placed(n, x)
    {
      assert Placed(s, x);
      assert InFlight(n, x) == InFlight(s, x);
    }
    forall c | c in n.due
      ensures Owed(n, c)
    {
      assert Owed(s, c);
      forall k | 0 <= k < |n.due[c]|
        ensures InFlight(n, n.due[c][k].id)
      {
        assert InFlight(s, n.due[c][k].id);
      }
    }
  }

  lemma StepKeepsInv(s: State, e: Step)
    requires Inv(s) && Enabled(s, e)
    ensures Inv(Next(s, e))
  {
    match e
    case Hold => HoldKeepsInv(s);
    case Submit(call, id, v) => SubmitKeepsInv(s, call, id, v);
    case ReleaseAll(call) => ReleaseKeepsInv(s, call);
    case SendOne(call) => SendKeepsInv(s, call);
    case Receive(id) => ReceiveKeepsInv(s, id);
  }

  // ---- what every run keeps -----------------------------------------------

  lemma {:induction false} RunKeepsInv(ss: seq<State>, es: seq<Step>, i: nat)
    requires IsRun(ss, es) && i < |ss|
    ensures Inv(ss[i])
  {
    if 0 < i {
      RunKeepsInv(ss, es, i - 1);
      StepKeepsInv(ss[i - 1], es[i - 1]);
      assert ss[i - 1 + 1] == Next(ss[i - 1], es[i - 1]);
    }
  }

  function Count(b: bool): nat { if b then 1 else 0 }

  /**
   In every run each breakpoint is in exactly one of pending, removed but not sent, sent and
   received; its channel never holds more than one verdict; pending ids are distinct and ascending.
   */
  lemma ExactlyOnePlace(ss: seq<State>, es: seq<Step>, i: nat, id: nat)
    requires IsRun(ss, es) && i < |ss| && 1 <= id <= ss[i].nextID
    ensures var s := ss[i];
            && Count(IsPending(s, id)) + Count(id in s.removed && InFlight(s, id))
               + Count(IsSent(s, id)) + Count(IsReceived(s, id)) == 1
            && id in s.chan && |s.chan[id]| <= 1
            && Ascending(s.pending)
  {
    RunKeepsInv(ss, es, i);
    assert Placed(ss[i], id);
  }

  /** No send ever blocks: the channel it is for is empty. */
  lemma NoSendBlocks(ss: seq<State>, es: seq<Step>, i: nat, call: nat)
    requires IsRun(ss, es) && i < |ss| && call in ss[i].due && ss[i].due[call] != []
    ensures Enabled(ss[i], SendOne(call)) && ss[i].chan[ss[i].due[call][0].id] == []
  {
    RunKeepsInv(ss, es, i);
    assert Owed(ss[i], call);
    assert Placed(ss[i], ss[i].due[call][0].id);
  }

  lemma StepKeepsRemoval(s: State, e: Step, id: nat)
    requires Inv(s) && Enabled(s, e) && id in s.removed
    ensures id in Next(s, e).removed && Next(s, e).removed[id] == s.removed[id]
  {
    assert Placed(s, id);
  }

  /** A removal is never overwritten: one call removes a breakpoint, once. */
  lemma {:induction false} RemovedOnce(ss: seq<State>, es: seq<Step>, i: nat, j: nat, id: nat)
    requires IsRun(ss, es) && i <= j < |ss| && id in ss[i].removed
    ensures id in ss[j].removed && ss[j].removed[id] == ss[i].removed[id]
    decreases j
  {
    hide Next, Inv, Enabled;
    if i < j {
      RemovedOnce(ss, es, i, j - 1, id);
      RunKeepsInv(ss, es, j - 1);
      assert Enabled(ss[j - 1], es[j - 1]) && ss[j - 1 + 1] == Next(ss[j - 1], es[j - 1]);
      StepKeepsRemoval(ss[j - 1], es[j - 1], id);
    }
  }

  /** A Hold returns exactly the verdict of the one call that removed its breakpoint. */
  lemma HoldReturnsItsVerdict(ss: seq<State>, es: seq<Step>, i: nat, id: nat)
    requires IsRun(ss, es) && i < |es| && es[i] == Receive(id)
    ensures id in ss[i].removed && ss[i + 1].got[id] == ss[i].removed[id].v
  {
    RunKeepsInv(ss, es, i);
    assert Enabled(ss[i], es[i]) && ss[i + 1] == Next(ss[i], es[i]);
    assert Placed(ss[i], id);
  }

  // ---- which verdict a Hold returns ---------------------------------------

  /** The calls that let a pending breakpoint go, and what they are to answer it with: Submit its verdict, ReleaseAll none. */
  predicate LetsGo(s: State, e: Step, id: nat, v: Verdict) {
    && id in s.pending
    && match e
       case Submit(_, x, w) => x == id && w == v
       case ReleaseAll(_) => v == Verdict(false, [], "")
       case _ => false
  }

  lemma LettingGoRemoves(s: State, e: Step, id: nat)
    requires Inv(s) && Enabled(s, e)
    ensures id !in s.removed && id in Next(s, e).removed ==> LetsGo(s, e, id, Next(s, e).removed[id].v)
    ensures forall v :: LetsGo(s, e, id, v) ==>
              id !in s.removed && id in Next(s, e).removed && Next(s, e).removed[id].v == v
  {
    hide Find, Inv;
    if id in s.pending {
      PendingIsPlaced(s, id);
    }
  }

  /** Once a call has let a breakpoint go, its Hold has returned that call's verdict or not returned yet, for good. */
  lemma GotWhatWasSent(ss: seq<State>, es: seq<Step>, i: nat, k: nat, id: nat, v: Verdict)
    requires IsRun(ss, es) && i < k < |ss| && LetsGo(ss[i], es[i], id, v)
    ensures id in ss[k].got ==> ss[k].got[id] == v
  {
    hide Inv, Next;
    RunKeepsInv(ss, es, i);
    assert Enabled(ss[i], es[i]) && ss[i + 1] == Next(ss[i], es[i]);
    LettingGoRemoves(ss[i], es[i], id);
    RemovedOnce(ss, es, i + 1, k, id);
    RunKeepsInv(ss, es, k);
    if id in ss[k].got {
      GotIsRemoved(ss[k], id);
    }
  }

  lemma GotIsRemoved(s: State, id: nat)
    requires Inv(s) && id in s.got
    ensures id in s.removed && s.got[id] == s.removed[id].v
  {
    assert Placed(s, id);
  }

  /** The step of a run at which a breakpoint left the queue. */
  lemma {:induction false} FindRemoval(ss: seq<State>, es: seq<Step>, k: nat, id: nat) returns (i: nat)
    requires IsRun(ss, es) && k < |ss| && id in ss[k].removed
    ensures i < k && id !in ss[i].removed && id in ss[i + 1].removed
  {
    hide Inv, Next;
    i := k - 1;
    if id in ss[i].removed {
      i := FindRemoval(ss, es, i, id);
    }
  }

  /**
   Every Hold that returns was let go by exactly one call before, and returns what that call is to answer with:
   the verdict submitted, or an empty one where everything was released.
   */
  lemma ReturnsWhatWasSent(ss: seq<State>, es: seq<Step>, j: nat, id: nat) returns (i: nat)
    requires IsRun(ss, es) && j < |es| && es[j] == Receive(id)
    ensures id in ss[j + 1].got && i < j && LetsGo(ss[i], es[i], id, ss[j + 1].got[id])
    ensures forall x, v :: 0 <= x < |es| && LetsGo(ss[x], es[x], id, v) ==> x == i && v == ss[j + 1].got[id]
  {
    hide Inv;
    RunKeepsInv(ss, es, j);
    HoldReturnsItsVerdict(ss, es, j, id);
    assert Enabled(ss[j], es[j]) && ss[j + 1] == Next(ss[j], es[j]);
    i := FindRemoval(ss, es, j, id);
    hide Next;
    RunKeepsInv(ss, es, i);
    assert Enabled(ss[i], es[i]) && ss[i + 1] == Next(ss[i], es[i]);
    LettingGoRemoves(ss[i], es[i], id);
    RemovedOnce(ss, es, i + 1, j, id);
    forall x, v | 0 <= x < |es| && LetsGo(ss[x], es[x], id, v)
      ensures x == i && v == ss[j + 1].got[id]
    {
      LetGoOnce(ss, es, x, i, id, v, ss[j + 1].got[id]);
    }
  }

  /** No two calls let the same breakpoint go. */
  lemma LetGoOnce(ss: seq<State>, es: seq<Step>, x: nat, y: nat, id: nat, v: Verdict, w: Verdict)
    requires IsRun(ss, es) && x < |es| && y < |es| && LetsGo(ss[x], es[x], id, v) && LetsGo(ss[y], es[y], id, w)
    ensures x == y && v == w
  {
    hide Inv, Next;
    RunKeepsInv(ss, es, x);
    RunKeepsInv(ss, es, y);
    assert Enabled(ss[x], es[x]) && ss[x + 1] == Next(ss[x], es[x]);
    assert Enabled(ss[y], es[y]) && ss[y + 1] == Next(ss[y], es[y]);
    LettingGoRemoves(ss[x], es[x], id);
    LettingGoRemoves(ss[y], es[y], id);
    if x < y {
      RemovedOnce(ss, es, x + 1, y, id);
      assert false;
    }
    if y < x {
      RemovedOnce(ss, es, y + 1, x, id);
      assert false;
    }
  }
}
