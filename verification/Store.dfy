/** The bounded flow store (internal/core/store.go) and the unbounded history it shows the end of. */
module Store {
  import opened Wrappers

  /** A stored flow: the id the store gave it, and everything else. */
  datatype Entry<T> = Entry(id: nat, data: T)

  datatype Op<!T> = Add(data: T) | Update(id: nat, f: T -> T) | Clear

  /** The store's fields, or those of an unbounded store. */
  datatype State<T> = State(flows: seq<Entry<T>>, nextID: nat)

  const EMPTY_ID := 0

  /** Where the first flow with this id is; the length where there is none. */
  function Find<T>(fs: seq<Entry<T>>, id: nat): (i: nat)
    ensures i <= |fs| && (i < |fs| ==> fs[i].id == id)
    ensures forall k :: 0 <= k < i ==> fs[k].id != id
  {
    if fs == [] || fs[0].id == id then 0 else 1 + Find(fs[1..], id)
  }

  function Updated<T>(fs: seq<Entry<T>>, id: nat, f: T -> T): (r: seq<Entry<T>>)
    ensures |r| == |fs|
  {
    var i := Find(fs, id);
    if i < |fs| then fs[i := Entry(id, f(fs[i].data))] else fs
  }

  /** One call without any bound: nothing is ever dropped but by Clear. */
  function Unbounded<T>(s: State<T>, op: Op<T>): State<T> {
    match op
    case Add(data) => State(s.flows + [Entry(s.nextID + 1, data)], s.nextID + 1)
    case Update(id, f) => s.(flows := Updated(s.flows, id, f))
    case Clear => s.(flows := [])
  }

  function Last<T>(fs: seq<Entry<T>>, limit: nat): seq<Entry<T>> {
    if |fs| <= limit then fs else fs[|fs| - limit..]
  }

  function UnboundedRun<T>(ops: seq<Op<T>>): State<T> {
    if ops == [] then State([], EMPTY_ID) else Unbounded(UnboundedRun(ops[..|ops| - 1]), ops[|ops| - 1])
  }

  // ---- ids ----------------------------------------------------------------

  ghost predicate Ascending<T>(fs: seq<Entry<T>>) {
    forall i, j :: 0 <= i < j < |fs| ==> fs[i].id < fs[j].id
  }

  ghost predicate IdsOk<T>(s: State<T>) {
    Ascending(s.flows) && forall i :: 0 <= i < |s.flows| ==> 1 <= s.flows[i].id <= s.nextID
  }

  /** An update touches the one flow that carries the id, wherever it is. */
  lemma UpdatedAt<T>(fs: seq<Entry<T>>, id: nat, f: T -> T, i: nat)
    requires Ascending(fs) && i < |fs|
    ensures Updated(fs, id, f)[i] == if fs[i].id == id then Entry(id, f(fs[i].data)) else fs[i]
  {
    hide Find;
    var k := Find(fs, id);
    assert k < i ==> fs[k].id < fs[i].id;
  }

  lemma UpdatedKeepsIds<T>(fs: seq<Entry<T>>, id: nat, f: T -> T)
    requires Ascending(fs)
    ensures Ascending(Updated(fs, id, f)) && forall i :: 0 <= i < |fs| ==> Updated(fs, id, f)[i].id == fs[i].id
  {
    forall i | 0 <= i < |fs|
      ensures Updated(fs, id, f)[i].id == fs[i].id
    {
      UpdatedAt(fs, id, f, i);
    }
  }

  lemma StepKeepsIds<T>(s: State<T>, op: Op<T>)
    requires IdsOk(s)
    ensures IdsOk(Unbounded(s, op))
  {
    if op.Update? {
      UpdatedKeepsIds(s.flows, op.id, op.f);
    }
  }

  lemma {:induction false} RunKeepsIds<T>(ops: seq<Op<T>>)
    ensures IdsOk(UnboundedRun(ops))
  {
    if ops != [] {
      RunKeepsIds(ops[..|ops| - 1]);
      StepKeepsIds(UnboundedRun(ops[..|ops| - 1]), ops[|ops| - 1]);
    }
  }

  /** The retained end of the history takes each call as the whole history does. */
  lemma LastCommutes<T>(s: State<T>, op: Op<T>, limit: nat)
    requires IdsOk(s) && 1 <= limit
    ensures Last(Unbounded(s, op).flows, limit) == Last(Unbounded(s.(flows := Last(s.flows, limit)), op).flows, limit)
  {
    hide IdsOk, Last, Updated;
    IdsAscend(s);
    match op
    case Add(data) => AddCommutes(s.flows, Entry(s.nextID + 1, data), limit);
    case Update(id, f) =>
      UpdateCommutes(s.flows, id, f, limit);
      LastIsShort(s.flows, limit);
      LastOfShort(Updated(Last(s.flows, limit), id, f), limit);
    case Clear =>
  }

  lemma LastIsShort<T>(fs: seq<Entry<T>>, limit: nat)
    ensures |Last(fs, limit)| <= limit
  {
  }

  lemma LastOfShort<T>(fs: seq<Entry<T>>, limit: nat)
    requires |fs| <= limit
    ensures Last(fs, limit) == fs
  {
  }

  lemma IdsAscend<T>(s: State<T>)
    requires IdsOk(s)
    ensures Ascending(s.flows)
  {
  }

  lemma AddCommutes<T>(fs: seq<Entry<T>>, e: Entry<T>, limit: nat)
    requires 1 <= limit
    ensures Last(fs + [e], limit) == Last(Last(fs, limit) + [e], limit)
  {
    if limit < |fs| {
      var kept := fs[|fs| - limit..] + [e];
      assert kept == (fs + [e])[|fs| - limit..];
      assert kept[1..] == (fs + [e])[|fs| - limit + 1..];
    }
  }

  lemma UpdateCommutes<T>(fs: seq<Entry<T>>, id: nat, f: T -> T, limit: nat)
    requires Ascending(fs)
    ensures Last(Updated(fs, id, f), limit) == Updated(Last(fs, limit), id, f)
  {
    hide Updated;
    if limit < |fs| {
      var k := |fs| - limit;
      var a, b := Updated(fs, id, f)[k..], Updated(fs[k..], id, f);
      forall i | 0 <= i < limit
        ensures a[i] == b[i]
      {
        UpdatedAt(fs, id, f, k + i);
        UpdatedAt(fs[k..], id, f, i);
      }
      assert a == b;
    }
  }

  // ---- the store ----------------------------------------------------------

  class FlowStore<T> {
    var flows: seq<Entry<T>>
    var nextID: nat
    const limit: nat
    /** Every call so far, in order. */
    ghost var calls: seq<Op<T>>

    /** The store holds the last `limit` flows of its unbounded history. */
    ghost predicate Valid()
      reads this
    {
      var h := UnboundedRun(calls);
      1 <= limit && nextID == h.nextID && flows == Last(h.flows, limit)
    }

    constructor (limit: int)
      ensures Valid() && calls == [] && this.limit == if limit <= 0 then 2000 else limit
    {
      flows, nextID, calls := [], 0, [];
      this.limit := if limit <= 0 then 2000 else limit;
    }

    ghost method Record(op: Op<T>)
      requires var h := Unbounded(UnboundedRun(calls), op);
               1 <= limit && nextID == h.nextID && flows == Last(h.flows, limit)
      modifies this`calls
      ensures Valid() && calls == old(calls) + [op]
    {
      calls := calls + [op];
      assert calls[..|calls| - 1] == old(calls);
    }

    /** Registers a flow under a fresh id and drops the oldest beyond the limit. */
    method Add(data: T) returns (e: Entry<T>)
      requires Valid()
      modifies this
      ensures Valid() && calls == old(calls) + [Op.Add(data)]
      ensures e == Entry(old(nextID) + 1, data) && nextID == e.id && flows != [] && flows[|flows| - 1] == e
    {
      ghost var h := UnboundedRun(calls);
      RunKeepsIds(calls);
      LastCommutes(h, Op.Add(data), limit);
      nextID := nextID + 1;
      e := Entry(nextID, data);
      flows := flows + [e];
      if limit < |flows| {
        var drop := |flows| - limit;
        flows := flows[drop..];
      }
      Record(Op.Add(data));
    }

    /** Applies `fn` to the flow that carries the id, if it is still retained. */
    method Update(id: nat, fn: T -> T)
      requires Valid()
      modifies this
      ensures Valid() && calls == old(calls) + [Op.Update(id, fn)] && nextID == old(nextID)
      ensures flows == Updated(old(flows), id, fn)
    {
      RunKeepsIds(calls);
      LastCommutes(UnboundedRun(calls), Op.Update(id, fn), limit);
      Apply(id, fn);
      Record(Op.Update(id, fn));
    }

    /** The loop of Update: the first flow with the id, if any. */
    method Apply(id: nat, fn: T -> T)
      modifies this`flows
      ensures flows == Updated(old(flows), id, fn)
    {
      hide Find;
      for i := 0 to |flows|
        invariant flows == old(flows) && forall k :: 0 <= k < i ==> flows[k].id != id
      {
        if flows[i].id == id {
          flows := flows[i := Entry(id, fn(flows[i].data))];
          return;
        }
      }
    }

    method Get(id: nat) returns (r: Option<Entry<T>>)
      requires Valid()
      ensures r.Some? ==> r.value in flows && r.value.id == id
      ensures r.None? ==> forall i :: 0 <= i < |flows| ==> flows[i].id != id
    {
      for i := 0 to |flows|
        invariant forall k :: 0 <= k < i ==> flows[k].id != id
      {
        if flows[i].id == id {
          return Some(flows[i]);
        }
      }
      r := None;
    }

    /** Copies of the retained flows in arrival order. */
    method Snapshot() returns (out: seq<Entry<T>>)
      requires Valid()
      ensures out == Last(UnboundedRun(calls).flows, limit)
    {
      out := [];
      for i := 0 to |flows|
        invariant out == flows[..i]
      {
        out := out + [flows[i]];
      }
    }

    method Clear()
      requires Valid()
      modifies this
      ensures Valid() && calls == old(calls) + [Op.Clear] && flows == [] && nextID == old(nextID)
    {
      flows := [];
      Record(Op.Clear);
    }
  }

  // ---- what the history is ------------------------------------------------

  function Adds<T>(ops: seq<Op<T>>): nat {
    if ops == [] then 0 else Adds(ops[..|ops| - 1]) + if ops[|ops| - 1].Add? then 1 else 0
  }

  /** The calls after the last Clear. */
  function SinceClear<T>(ops: seq<Op<T>>): seq<Op<T>> {
    if ops == [] || ops[|ops| - 1].Clear? then [] else SinceClear(ops[..|ops| - 1]) + [ops[|ops| - 1]]
  }

  /** Ids count the flows ever added, and the history holds one flow for each add since the last Clear. */
  lemma {:induction false} HistoryCounts<T>(ops: seq<Op<T>>)
    ensures UnboundedRun(ops).nextID == Adds(ops)
    ensures |UnboundedRun(ops).flows| == Adds(SinceClear(ops))
  {
    if ops != [] {
      var n := |ops| - 1;
      HistoryCounts(ops[..n]);
      var since := SinceClear(ops[..n]) + [ops[n]];
      assert since[..|since| - 1] == SinceClear(ops[..n]);
    }
  }

  /** The data of flow `id` in the history: what was added under it, with every later update in order. */
  function DataOf<T>(ops: seq<Op<T>>, id: nat): Option<T> {
    if ops == [] then None
    else
      var op := ops[|ops| - 1];
      var before := DataOf(ops[..|ops| - 1], id);
      match op
      case Add(data) => if Adds(ops) == id then Some(data) else before
      case Update(i, f) => if i == id && before.Some? then Some(f(before.value)) else before
      case Clear => None
  }

  /** Flow k of the history carries the id of its add and the data that id has come to. */
  lemma {:induction false} HistoryData<T>(ops: seq<Op<T>>, k: nat)
    requires k < |UnboundedRun(ops).flows|
    ensures var e := UnboundedRun(ops).flows[k];
            DataOf(ops, e.id) == Some(e.data) && e.id == Adds(ops) - Adds(SinceClear(ops)) + k + 1
  {
    HistoryCounts(ops);
    RunKeepsIds(ops);
    var n := |ops| - 1;
    var prior, op := ops[..n], ops[n];
    var h := UnboundedRun(prior);
    HistoryCounts(prior);
    RunKeepsIds(prior);
    var since := SinceClear(prior) + [op];
    assert since[..|since| - 1] == SinceClear(prior);
    match op
    case Add(data) =>
      if k < |h.flows| { HistoryData(prior, k); }
    case Update(id, f) =>
      HistoryData(prior, k);
      UpdatedAt(h.flows, id, f, k);
    case Clear =>
  }
}
