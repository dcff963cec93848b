/** Saved filters and their compiled cache, used one call at a time (internal/core/filter.go). */
module Filters {
  import opened Wrappers
  import opened QueryMatch
  import opened QueryParser
  import C = QueryCompose
  import Text
  import QueryTokens

  datatype Filter = Filter(id: int, enabled: bool, expr: string, note: string)

  /** Whether a filter takes part in matching. */
  predicate Counts(f: Filter) {
    f.enabled && Text.TrimSpace(f.expr) != ""
  }

  function Exprs(fs: seq<Filter>): seq<string> {
    if fs == [] then []
    else (if Counts(fs[0]) then [fs[0].expr] else []) + Exprs(fs[1..])
  }

  lemma {:induction false} ExprsSnoc(fs: seq<Filter>, f: Filter)
    ensures Exprs(fs + [f]) == Exprs(fs) + if Counts(f) then [f.expr] else []
  {
    hide Counts;
    if fs == [] {
      assert fs + [f] == [f] && [f][1..] == [];
    } else {
      assert (fs + [f])[1..] == fs[1..] + [f];
      ExprsSnoc(fs[1..], f);
    }
  }

  function CompileAll(env: Env, exprs: seq<string>): (qs: seq<Query>)
    ensures |qs| == |exprs| && forall i :: 0 <= i < |qs| ==> qs[i] == CompileQuery(env, exprs[i])
  {
    seq(|exprs|, i requires 0 <= i < |exprs| => CompileQuery(env, exprs[i]))
  }

  /** A flow passes when every enabled, non-blank filter matches it. */
  ghost predicate Passes(env: Env, fs: seq<Filter>, flow: Flow) {
    forall i :: 0 <= i < |fs| && fs[i].enabled && Text.TrimSpace(fs[i].expr) != "" ==>
      CompileQuery(env, fs[i].expr).Match(env, flow)
  }

  ghost predicate EachMatches(env: Env, exprs: seq<string>, flow: Flow) {
    forall i :: 0 <= i < |exprs| ==> CompileQuery(env, exprs[i]).Match(env, flow)
  }

  lemma EachMatchesConcat(env: Env, a: seq<string>, b: seq<string>, flow: Flow)
    ensures EachMatches(env, a + b, flow) <==> EachMatches(env, a, flow) && EachMatches(env, b, flow)
  {
    hide CompileQuery;
    assert forall i :: 0 <= i < |a| ==> a[i] == (a + b)[i];
    assert forall i :: 0 <= i < |b| ==> b[i] == (a + b)[i + |a|];
  }

  lemma PassesCons(env: Env, fs: seq<Filter>, flow: Flow)
    requires fs != []
    ensures Passes(env, fs, flow) <==>
              (Counts(fs[0]) ==> CompileQuery(env, fs[0].expr).Match(env, flow)) && Passes(env, fs[1..], flow)
  {
    hide CompileQuery, Text.TrimSpace;
    assert forall i :: 0 <= i < |fs| - 1 ==> fs[1..][i] == fs[i + 1];
    assert forall i :: 1 <= i < |fs| ==> fs[i] == fs[1..][i - 1];
  }

  lemma {:induction false} PassesIsEach(env: Env, fs: seq<Filter>, flow: Flow)
    ensures Passes(env, fs, flow) <==> EachMatches(env, Exprs(fs), flow)
  {
    hide CompileQuery, Counts, Passes;
    if fs == [] {
      assert Passes(env, [], flow) by { NonePasses(env, flow); }
    } else {
      PassesIsEach(env, fs[1..], flow);
      PassesCons(env, fs, flow);
      var first := if Counts(fs[0]) then [fs[0].expr] else [];
      EachMatchesConcat(env, first, Exprs(fs[1..]), flow);
      assert Counts(fs[0]) ==> first[0] == fs[0].expr;
    }
  }

  lemma NonePasses(env: Env, flow: Flow)
    ensures Passes(env, [], flow)
  {
  }

  // ---- edits by id --------------------------------------------------------

  /** Where the first filter with this id is; the length where there is none. */
  function Find(fs: seq<Filter>, id: int): (i: nat)
    ensures i <= |fs| && (i < |fs| ==> fs[i].id == id)
    ensures forall k :: 0 <= k < i ==> fs[k].id != id
  {
    if fs == [] || fs[0].id == id then 0 else 1 + Find(fs[1..], id)
  }

  predicate IdsBelow(fs: seq<Filter>, n: int) {
    forall i :: 0 <= i < |fs| ==> fs[i].id <= n
  }

  datatype File = NoPath | Missing | Unreadable | Holds(filters: seq<Filter>)

  class FilterSet {
    const env: Env
    var filters: seq<Filter>
    var nextID: int
    var compiled: Option<seq<Query>>

    /** The cache, when there is one, is what compiling the filters now would give; no id is above nextID. */
    ghost predicate Valid()
      reads this
    {
      && (compiled.Some? ==> compiled.value == CompileAll(env, Exprs(filters)))
      && IdsBelow(filters, nextID)
    }

    constructor (env: Env)
      ensures Valid() && this.env == env && filters == [] && nextID == 0 && compiled.None?
    {
      this.env, filters, nextID, compiled := env, [], 0, None;
    }

    /** Save, as far as the set in memory goes: the cache is dropped. */
    method Save()
      modifies this`compiled
      ensures compiled.None?
    {
      compiled := None;
    }

    method Add(expr: string, note: string) returns (f: Filter)
      requires Valid()
      modifies this
      ensures Valid() && f == Filter(nextID, true, expr, note) && nextID == old(nextID) + 1
      ensures filters == old(filters) + [f]
      ensures forall i :: 0 <= i < |old(filters)| ==> old(filters)[i].id != f.id
    {
      nextID := nextID + 1;
      f := Filter(nextID, true, expr, note);
      filters := filters + [f];
      Save();
    }

    method Locate(id: int) returns (i: nat)
      ensures i == Find(filters, id)
    {
      i := 0;
      while i < |filters|
        invariant i <= |filters| && i + Find(filters[i..], id) == Find(filters, id)
      {
        assert filters[i..][1..] == filters[i + 1..];
        if filters[i].id == id {
          break;
        }
        i := i + 1;
      }
    }

    /** Swaps the first filter with the same id; without one nothing changes. */
    method Replace(f: Filter)
      requires Valid()
      modifies this
      ensures Valid() && nextID == old(nextID)
      ensures var i := Find(old(filters), f.id);
              filters == if i < |old(filters)| then old(filters)[i := f] else old(filters)
    {
      var i := Locate(f.id);
      if i < |filters| {
        filters := filters[i := f];
      }
      Save();
    }

    method Remove(id: int)
      requires Valid()
      modifies this
      ensures Valid() && nextID == old(nextID)
      ensures var i := Find(old(filters), id);
              filters == if i < |old(filters)| then old(filters)[..i] + old(filters)[i + 1..] else old(filters)
    {
      var i := Locate(id);
      if i < |filters| {
        filters := filters[..i] + filters[i + 1..];
      }
      Save();
    }

    method Toggle(id: int) returns (enabled: bool)
      requires Valid()
      modifies this
      ensures Valid() && nextID == old(nextID)
      ensures var i := Find(old(filters), id);
              if i < |old(filters)| then
                var f := old(filters)[i];
                enabled == !f.enabled && filters == old(filters)[i := f.(enabled := enabled)]
              else !enabled && filters == old(filters)
    {
      enabled := false;
      var i := Locate(id);
      if i < |filters| {
        enabled := !filters[i].enabled;
        filters := filters[i := filters[i].(enabled := enabled)];
      }
      Save();
    }

    /** Removes every filter; ids are not reused. */
    method Clear()
      requires Valid()
      modifies this
      ensures Valid() && filters == [] && nextID == old(nextID)
    {
      filters := [];
      Save();
    }

    method EnabledExprs() returns (out: seq<string>)
      ensures out == Exprs(filters)
    {
      out := [];
      assert filters[..0] == [];
      for i := 0 to |filters|
        invariant out == Exprs(filters[..i])
      {
        ExprsSnoc(filters[..i], filters[i]);
        assert filters[..i] + [filters[i]] == filters[..i + 1];
        if filters[i].enabled && Text.TrimSpace(filters[i].expr) != "" {
          out := out + [filters[i].expr];
        }
      }
      assert filters[..|filters|] == filters;
    }

    /** The compiled filters, from the cache or compiled now and kept. */
    method Queries() returns (qs: seq<Query>)
      requires Valid()
      modifies this`compiled
      ensures Valid() && compiled == Some(qs) && qs == CompileAll(env, Exprs(filters))
    {
      hide CompileQuery, Exprs;
      if compiled.Some? {
        return compiled.value;
      }
      var exprs := EnabledExprs();
      qs := [];
      for i := 0 to |exprs|
        invariant qs == CompileAll(env, exprs[..i])
      {
        var q := Compiled(env, exprs[i]);
        assert exprs[..i + 1][..i] == exprs[..i];
        qs := qs + [q];
      }
      assert exprs[..|exprs|] == exprs;
      compiled := Some(qs);
    }

    /** Whatever calls came before, this is the conjunction of the filters as they are now. */
    method Match(flow: Flow) returns (ok: bool)
      requires Valid()
      modifies this`compiled
      ensures Valid() && ok == Passes(env, filters, flow)
    {
      hide CompileQuery, Eval, Exprs, Passes;
      var qs := Queries();
      PassesIsEach(env, filters, flow);
      ghost var exprs := Exprs(filters);
      assert forall i :: 0 <= i < |exprs| ==> qs[i] == CompileQuery(env, exprs[i]);
      ok := true;
      for i := 0 to |qs|
        invariant ok && forall k :: 0 <= k < i ==> qs[k].Match(env, flow)
      {
        if !qs[i].Match(env, flow) {
          return false;
        }
      }
    }

    /** Reads the backing file; what cannot be read changes nothing. */
    method Load(file: File) returns (ok: bool)
      requires Valid()
      modifies this
      ensures Valid() && ok == !file.Unreadable? && old(nextID) <= nextID
      ensures filters == if file.Holds? then file.filters else old(filters)
    {
      if file.NoPath? || file.Missing? {
        return true;
      }
      if file.Unreadable? {
        return false;
      }
      filters := file.filters;
      compiled := None;
      for i := 0 to |filters|
        invariant filters == file.filters && compiled.None? && old(nextID) <= nextID
        invariant forall k :: 0 <= k < i ==> filters[k].id <= nextID
      {
        if nextID < filters[i].id {
          nextID := filters[i].id;
        }
      }
      ok := true;
    }
  }

  // ---- saved filters as one query -----------------------------------------

  function TokenLists(exprs: seq<string>): (ls: seq<seq<string>>)
    ensures |ls| == |exprs| && forall i :: 0 <= i < |ls| ==> ls[i] == QueryTokens.Tokens(exprs[i])
  {
    seq(|exprs|, i requires 0 <= i < |exprs| => QueryTokens.Tokens(exprs[i]))
  }

  /**
   The one query whose tokens are those of the filters, each list in parentheses: for error-free filters it is
   an error exactly when some filter ends in `!`, and otherwise it matches as the set does.
   */
  lemma SavedFiltersAreOneQuery(env: Env, fs: seq<Filter>, flow: Flow)
    requires forall i :: 0 <= i < |Exprs(fs)| ==> CompileQuery(env, Exprs(fs)[i]).err.None?
    ensures var lists := TokenLists(Exprs(fs));
            var q := CompileTokens(env, C.Groups(lists));
            && (q.err.None? <==> forall i :: 0 <= i < |lists| ==> C.LastNotBang(lists[i]))
            && (q.err.None? ==> q.Match(env, flow) == Passes(env, fs, flow))
  {
    var exprs := Exprs(fs);
    var lists := TokenLists(exprs);
    PassesIsEach(env, fs, flow);
    hide CompileTokens, QueryTokens.Tokens, Exprs, Eval, C.LastNotBang, C.Groups;
    assert forall i :: 0 <= i < |lists| ==> CompileTokens(env, lists[i]) == CompileQuery(env, exprs[i]);
    C.GroupsAreAnd(env, lists, flow);
  }
}
