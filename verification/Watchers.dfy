/** Watchers and the dependencies they subscribe to: two lists that point at each other. */
module Watchers {
  import opened Sequences

  /** The helper of the same name: takes out the first occurrence. */
  function Remove<T(==)>(s: seq<T>, x: T): seq<T> {
    if s == [] then []
    else if s[0] == x then s[1..]
    else [s[0]] + Remove(s[1..], x)
  }

  lemma {:induction false} RemoveKeeps<T>(s: seq<T>, x: T)
    requires NoDup(s)
    ensures NoDup(Remove(s, x)) && x !in Remove(s, x)
    ensures forall y :: y in Remove(s, x) <==> y in s && y != x
  {
    if s != [] {
      assert NoDup(s[1..]) by {
        assert forall i :: 0 <= i < |s[1..]| ==> s[1..][i] == s[i + 1];
      }
      assert s == [s[0]] + s[1..];
      assert s[0] !in s[1..];
      RemoveKeeps(s[1..], x);
    }
  }

  class Dep {
    const id: nat
    var subs: seq<Watcher>

    constructor (id: nat)
      ensures this.id == id && subs == []
    {
      this.id := id;
      subs := [];
    }

    method AddSub(sub: Watcher)
      modifies this
      ensures subs == old(subs) + [sub]
    {
      subs := subs + [sub];
    }

    method RemoveSub(sub: Watcher)
      modifies this
      ensures subs == Remove(old(subs), sub)
    {
      subs := Remove(subs, sub);
    }
  }

  class Watcher {
    var deps: seq<Dep>
    var newDeps: seq<Dep>
    var depIds: set<nat>
    var newDepIds: set<nat>
    var active: bool

    constructor ()
      ensures deps == newDeps == [] && depIds == newDepIds == {} && active
    {
      deps, newDeps := [], [];
      depIds, newDepIds := {}, {};
      active := true;
    }

    /** Each list holds known dependencies, once, and the id set beside it says which. */
    ghost predicate Lists(ds: set<Dep>)
      reads this
    {
      && NoDup(deps) && NoDup(newDeps)
      && (forall d :: d in deps ==> d in ds) && (forall d :: d in newDeps ==> d in ds)
      && (forall d :: d in ds ==> (d.id in depIds <==> d in deps))
      && (forall d :: d in ds ==> (d.id in newDepIds <==> d in newDeps))
    }

    /** The buffer swap: the dependencies just collected become the current ones. */
    method SwapDeps()
      modifies this
      ensures deps == old(newDeps) && depIds == old(newDepIds)
      ensures newDeps == [] && newDepIds == {} && active == old(active)
    {
      var ids := depIds;
      depIds := newDepIds;
      newDepIds := ids;
      newDepIds := {};
      var list := deps;
      deps := newDeps;
      newDeps := list;
      newDeps := [];
    }

    /** The watcher needs the dependency, from its last evaluation or from the one under way. */
    ghost predicate Needs(d: Dep)
      reads this
    {
      d in deps || d in newDeps
    }
  }

  ghost predicate UniqueIds(ds: set<Dep>) {
    forall d, e :: d in ds && e in ds && d.id == e.id ==> d == e
  }

  /** One watcher and one dependency agree: a subscriber needs it; an active watcher that needs it
      subscribes. */
  ghost predicate Agree(w: Watcher, d: Dep)
    reads w, d
  {
    && (w in d.subs ==> w.Needs(d))
    && (w.active && w.Needs(d) ==> w in d.subs)
  }

  /** The whole graph, at any moment, with any number of evaluations under way. */
  ghost predicate Graph(ds: set<Dep>, ws: set<Watcher>)
    reads ds, ws
  {
    && UniqueIds(ds)
    && (forall w :: w in ws ==> w.Lists(ds))
    && (forall d :: d in ds ==> NoDup(d.subs))
    && (forall w, d :: w in ws && d in ds ==> Agree(w, d))
  }

  /** Outside an evaluation an active watcher is in subs, once, just when the dependency is in its
      deps, just when the id is in its depIds. */
  lemma {:induction false} Symmetric(ds: set<Dep>, ws: set<Watcher>, w: Watcher, d: Dep)
    requires Graph(ds, ws) && w in ws && d in ds && w.active && w.newDeps == []
    ensures (w in d.subs <==> d in w.deps) && (d in w.deps <==> d.id in w.depIds)
    ensures w in d.subs ==>
      exists i :: 0 <= i < |d.subs| && d.subs[i] == w && forall j :: 0 <= j < |d.subs| && d.subs[j] == w ==> j == i
  {
    assert Agree(w, d);
    if w in d.subs {
      var i :| 0 <= i < |d.subs| && d.subs[i] == w;
      assert forall j :: 0 <= j < |d.subs| && d.subs[j] == w ==> j == i;
    }
  }

  /** Dep.depend with w as the target: the watcher takes note of the dependency. */
  method AddDep(w: Watcher, dep: Dep, ghost ds: set<Dep>, ghost ws: set<Watcher>)
    requires Graph(ds, ws) && w in ws && dep in ds
    modifies w, dep
    ensures Graph(ds, ws)
    ensures w.deps == old(w.deps) && w.active == old(w.active)
    ensures w.newDeps == if dep in old(w.newDeps) then old(w.newDeps) else old(w.newDeps) + [dep]
    ensures dep.subs == if old(w.Needs(dep)) then old(dep.subs) else old(dep.subs) + [w]
  {
    assert Agree(w, dep);
    Note(w, dep, ds);
    forall v, e | v in ws && e in ds
      ensures Agree(v, e)
    {
      assert old(Agree(v, e));
    }
  }

  /** Watcher.addDep, as far as the lists of the two are concerned. */
  method Note(w: Watcher, dep: Dep, ghost ds: set<Dep>)
    requires UniqueIds(ds) && w.Lists(ds) && dep in ds && NoDup(dep.subs) && Agree(w, dep)
    modifies w, dep
    ensures w.Lists(ds) && NoDup(dep.subs)
    ensures w.deps == old(w.deps) && w.active == old(w.active)
    ensures w.newDeps == if dep in old(w.newDeps) then old(w.newDeps) else old(w.newDeps) + [dep]
    ensures dep.subs == if old(w.Needs(dep)) then old(dep.subs) else old(dep.subs) + [w]
  {
    var id := dep.id;
    if id !in w.newDepIds {
      w.newDepIds := w.newDepIds + {id};
      w.newDeps := w.newDeps + [dep];
      if id !in w.depIds {
        dep.AddSub(w);
      }
    }
  }

  /** The loop of cleanupDeps and of teardown: w leaves those of its dependencies that are not kept. */
  method Leave(w: Watcher, deps: seq<Dep>, keep: set<nat>)
    requires NoDup(deps)
    modifies deps
    ensures forall d :: d in deps ==> d.subs == if d.id in keep then old(d.subs) else Remove(old(d.subs), w)
  {
    var i := |deps|;
    while i > 0
      invariant 0 <= i <= |deps|
      invariant forall k :: 0 <= k < i ==> deps[k].subs == old(deps[k].subs)
      invariant forall k :: i <= k < |deps| ==>
        deps[k].subs == if deps[k].id in keep then old(deps[k].subs) else Remove(old(deps[k].subs), w)
    {
      i := i - 1;
      var dep := deps[i];
      if dep.id !in keep {
        dep.RemoveSub(w);
      }
    }
  }

  /** What Leave does to one list of subscribers. */
  lemma {:induction false} Left(was: seq<Watcher>, now: seq<Watcher>, w: Watcher, gone: bool)
    requires NoDup(was) && now == if gone then Remove(was, w) else was
    ensures NoDup(now)
    ensures forall v :: v in now <==> v in was && !(v == w && gone)
  {
    RemoveKeeps(was, w);
  }

  /** Watcher.cleanupDeps, at the end of an evaluation. */
  method CleanupDeps(w: Watcher, ghost ds: set<Dep>, ghost ws: set<Watcher>)
    requires Graph(ds, ws) && w in ws
    modifies w, w.deps
    ensures Graph(ds, ws)
    ensures w.deps == old(w.newDeps) && w.newDeps == [] && w.active == old(w.active)
    ensures forall d, v :: d in ds && v in ws ==>
      (v in d.subs <==> v in old(d.subs) && !(v == w && d in old(w.deps) && d !in old(w.newDeps)))
  {
    ghost var before := w.deps;
    ghost var kept := w.newDepIds;
    Leave(w, w.deps, w.newDepIds);
    w.SwapDeps();
    forall d | d in ds
      ensures NoDup(d.subs)
      ensures forall v :: v in d.subs <==> v in old(d.subs) && !(v == w && d in before && d.id !in kept)
    {
      Left(old(d.subs), d.subs, w, d in before && d.id !in kept);
    }
    forall v, d | v in ws && d in ds
      ensures Agree(v, d)
    {
      assert old(Agree(v, d));
    }
  }

  /** Watcher.teardown */
  method Teardown(w: Watcher, ghost ds: set<Dep>, ghost ws: set<Watcher>)
    requires Graph(ds, ws) && w in ws
    modifies w, w.deps
    ensures Graph(ds, ws) && !w.active
    ensures w.deps == old(w.deps) && w.newDeps == old(w.newDeps)
    ensures forall d, v :: d in ds && v in ws ==>
      (v in d.subs <==> v in old(d.subs) && !(v == w && old(w.active) && d in old(w.deps)))
    // it is in no list any more, unless it was torn down in the middle of an evaluation that had
    // already brought it a new dependency
    ensures old(w.active) ==>
      ((forall d :: d in ds ==> w !in d.subs) <==> (forall d :: d in old(w.newDeps) ==> d in old(w.deps)))
  {
    if w.active {
      Leave(w, w.deps, {});
      w.active := false;
      forall d | d in ds
        ensures NoDup(d.subs)
        ensures forall v :: v in d.subs <==> v in old(d.subs) && !(v == w && d in w.deps)
      {
        Left(old(d.subs), d.subs, w, d in w.deps);
      }
    }
    forall v, d | v in ws && d in ds
      ensures Agree(v, d)
    {
      assert old(Agree(v, d));
    }
  }

  // ---- Evaluations ---------------------------------------------------------------------------

  /** What a getter does: it touches these dependencies, as often and in the order it likes. */
  method Touch(w: Watcher, touched: seq<Dep>, ghost ds: set<Dep>, ghost ws: set<Watcher>)
    requires Graph(ds, ws) && w in ws
    requires forall d :: d in touched ==> d in ds
    modifies w, ds
    ensures Graph(ds, ws) && w.deps == old(w.deps) && w.active == old(w.active)
    ensures forall d :: d in w.newDeps <==> d in old(w.newDeps) || d in touched
    ensures forall d :: d in ds ==> (w in d.subs <==> w in old(d.subs) || (d in touched && !old(w.Needs(d))))
    ensures forall v, d :: v in ws && d in ds && v != w ==> (v in d.subs <==> v in old(d.subs))
  {
    for k := 0 to |touched|
      invariant Graph(ds, ws) && w.deps == old(w.deps) && w.active == old(w.active)
      invariant forall d :: d in w.newDeps <==> d in old(w.newDeps) || d in touched[..k]
      invariant forall d :: d in ds ==> (w in d.subs <==> w in old(d.subs) || (d in touched[..k] && !old(w.Needs(d))))
      invariant forall v, d :: v in ws && d in ds && v != w ==> (v in d.subs <==> v in old(d.subs))
    {
      assert touched[..k + 1] == touched[..k] + [touched[k]];
      AddDep(w, touched[k], ds, ws);
    }
    assert touched[..|touched|] == touched;
  }

  /** Watcher.get. An active watcher subscribes to just what it has touched; any watcher to what it has
      touched and did not have before, or was subscribed to. */
  method Get(w: Watcher, touched: seq<Dep>, ghost ds: set<Dep>, ghost ws: set<Watcher>)
    requires Graph(ds, ws) && w in ws && w.newDeps == []
    requires forall d :: d in touched ==> d in ds
    modifies w, ds
    ensures Graph(ds, ws) && w.newDeps == [] && w.active == old(w.active)
    ensures forall d :: d in w.deps <==> d in touched
    ensures forall d :: d in ds ==> (w in d.subs <==> d in touched && (d !in old(w.deps) || w in old(d.subs)))
    ensures w.active ==> forall d :: d in ds ==> (w in d.subs <==> d in touched)
    ensures forall v, d :: v in ws && d in ds && v != w ==> (v in d.subs <==> v in old(d.subs))
  {
    forall d | d in ds
      ensures w in d.subs ==> d in w.deps
      ensures w.active && d in w.deps ==> w in d.subs
    {
      assert Agree(w, d);
    }
    Touch(w, touched, ds, ws);
    assert w.Lists(ds);
    CleanupDeps(w, ds, ws);
  }

  // ---- After a teardown ----------------------------------------------------------------------

  ghost predicate Unlisted(w: Watcher, ds: set<Dep>)
    reads ds
  {
    forall d :: d in ds ==> w !in d.subs
  }

  function Members(s: seq<Dep>): set<Dep> {
    set d | d in s
  }

  /** From the k-th on, each evaluation touches only what the one before it has touched. */
  ghost predicate Shrinks(deps: set<Dep>, evaluations: seq<seq<Dep>>, k: nat)
    decreases |evaluations| - k
  {
    k < |evaluations| ==>
      Members(evaluations[k]) <= deps && Shrinks(Members(evaluations[k]), evaluations, k + 1)
  }

  /** A watcher that has been torn down may still be evaluated, as a computed property that somebody
      reads. It stays out of all lists, at all times, if and only if no evaluation touches a dependency
      that the one before it has not touched. */
  method EvaluateTornDown(w: Watcher, evaluations: seq<seq<Dep>>, ghost ds: set<Dep>, ghost ws: set<Watcher>)
    returns (ghost stayedOut: bool)
    requires Graph(ds, ws) && w in ws && !w.active && w.newDeps == [] && Unlisted(w, ds)
    requires forall k, d :: 0 <= k < |evaluations| && d in evaluations[k] ==> d in ds
    modifies w, ds
    ensures Graph(ds, ws) && !w.active && (stayedOut ==> Unlisted(w, ds))
    ensures stayedOut <==> Shrinks(Members(old(w.deps)), evaluations, 0)
  {
    stayedOut := true;
    for k := 0 to |evaluations|
      invariant Graph(ds, ws) && !w.active && w.newDeps == [] && (stayedOut ==> Unlisted(w, ds))
      invariant Shrinks(Members(old(w.deps)), evaluations, 0) <==> stayedOut && Shrinks(Members(w.deps), evaluations, k)
    {
      GetInactive(w, evaluations[k], ds, ws);
      assert Members(w.deps) == Members(evaluations[k]);
      stayedOut := stayedOut && Unlisted(w, ds);
    }
  }

  /** One such evaluation. */
  method GetInactive(w: Watcher, touched: seq<Dep>, ghost ds: set<Dep>, ghost ws: set<Watcher>)
    requires Graph(ds, ws) && w in ws && !w.active && w.newDeps == []
    requires forall d :: d in touched ==> d in ds
    modifies w, ds
    ensures Graph(ds, ws) && !w.active && w.newDeps == []
    ensures forall d :: d in w.deps <==> d in touched
    ensures old(Unlisted(w, ds)) ==> (Unlisted(w, ds) <==> Members(touched) <= Members(old(w.deps)))
  {
    ghost var had, out := w.deps, Unlisted(w, ds);
    Get(w, touched, ds, ws);
    if out {
      forall d | d in touched
        ensures d in had <==> w !in d.subs
      {
        assert d in ds && w !in old(d.subs);
      }
      assert Unlisted(w, ds) ==> forall d :: d in Members(touched) ==> d in Members(had);
      assert forall d :: d in ds && w in d.subs ==> d in Members(touched) && d !in Members(had);
    }
  }

  /** An evaluation in the middle of which the watcher is torn down: afterwards it is in no list if and
      only if the whole evaluation has touched nothing new. */
  method GetTornDown(w: Watcher, before: seq<Dep>, after: seq<Dep>, ghost ds: set<Dep>, ghost ws: set<Watcher>)
    requires Graph(ds, ws) && w in ws && w.active && w.newDeps == []
    requires forall d :: d in before || d in after ==> d in ds
    modifies w, ds
    ensures Graph(ds, ws) && !w.active && w.newDeps == []
    ensures forall d :: d in ds ==> (w in d.subs <==> (d in before || d in after) && d !in old(w.deps))
    ensures Unlisted(w, ds) <==> forall d :: d in before || d in after ==> d in old(w.deps)
  {
    forall d | d in ds
      ensures w in d.subs <==> d in w.deps
    {
      assert Agree(w, d);
    }
    Touch(w, before, ds, ws);
    assert w.Lists(ds);
    Teardown(w, ds, ws);
    Touch(w, after, ds, ws);
    assert w.Lists(ds);
    CleanupDeps(w, ds, ws);
  }

  /** For example: a dependency touched right after the teardown ... */
  method TouchedAfterTeardown() returns (w: Watcher, d: Dep)
    ensures !w.active && w in d.subs
  {
    w := new Watcher();
    d := new Dep(1);
    Teardown(w, {d}, {w});
    AddDep(w, d, {d}, {w});
  }

  /** ... or in an evaluation that comes later. */
  method EvaluatedAfterTeardown() returns (w: Watcher, d: Dep)
    ensures !w.active && w.newDeps == [] && w in d.subs
  {
    w := new Watcher();
    d := new Dep(1);
    Teardown(w, {d}, {w});
    Get(w, [d], {d}, {w});
  }
}
