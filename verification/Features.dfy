/** Resolving the features of an instance: callbacks that wait for others to be registered. */
module Features {
  import opened Sequences

  /** Types are compared only for identity. */
  type FeatureType = nat

  /** A callback and the types of its parameters. */
  datatype Resolution = Resolution(callback: nat, deps: seq<FeatureType>, optional: bool)

  predicate Ready(features: seq<FeatureType>, r: Resolution) {
    forall d :: d in r.deps ==> d in features
  }

  /** The resolutions that can be called, in order ... */
  function Available(features: seq<FeatureType>, rs: seq<Resolution>): seq<Resolution> {
    if rs == [] then []
    else (if Ready(features, rs[0]) then [rs[0]] else []) + Available(features, rs[1..])
  }

  /** ... and those that cannot. */
  function Missing(features: seq<FeatureType>, rs: seq<Resolution>): seq<Resolution> {
    if rs == [] then []
    else (if Ready(features, rs[0]) then [] else [rs[0]]) + Missing(features, rs[1..])
  }

  lemma {:induction false} SplitSnoc(features: seq<FeatureType>, rs: seq<Resolution>, r: Resolution)
    ensures Available(features, rs + [r]) == Available(features, rs) + (if Ready(features, r) then [r] else [])
    ensures Missing(features, rs + [r]) == Missing(features, rs) + (if Ready(features, r) then [] else [r])
  {
    if rs == [] {
      assert rs + [r] == [r] && [r][1..] == [];
    } else {
      assert (rs + [r])[1..] == rs[1..] + [r];
      SplitSnoc(features, rs[1..], r);
      var first := rs[0];
      Associate(if Ready(features, first) then [first] else [], Available(features, rs[1..]),
                if Ready(features, r) then [r] else []);
      Associate(if Ready(features, first) then [] else [first], Missing(features, rs[1..]),
                if Ready(features, r) then [] else [r]);
    }
  }

  lemma {:induction false} SplitKeeps(features: seq<FeatureType>, rs: seq<Resolution>)
    ensures multiset(Available(features, rs)) + multiset(Missing(features, rs)) == multiset(rs)
    ensures forall r :: r in Available(features, rs) ==> Ready(features, r) && r in rs
    ensures forall r :: r in Missing(features, rs) ==> !Ready(features, r) && r in rs
  {
    if rs != [] {
      SplitKeeps(features, rs[1..]);
      assert rs == [rs[0]] + rs[1..];
    }
  }

  /** Those that waited are split into those that have all they need and those that lack something. */
  ghost predicate SplitUp(features: seq<FeatureType>, waited: seq<Resolution>, available: seq<Resolution>,
                          pending: seq<Resolution>)
  {
    && multiset(available) + multiset(pending) == multiset(waited)
    && (forall r, d :: r in available && d in r.deps ==> d in features)
    && (forall r :: r in pending ==> exists d :: d in r.deps && d !in features)
  }

  lemma {:induction false} BothSplit(features: seq<FeatureType>, p: seq<Resolution>, q: seq<Resolution>)
    ensures SplitUp(features, p + q, Available(features, p) + Available(features, q),
                    Missing(features, p) + Missing(features, q))
  {
    SplitKeeps(features, p);
    SplitKeeps(features, q);
  }

  // ---- The steps -----------------------------------------------------------------------------

  /** The instance, and the callbacks that have left the lock: called is the history, inFlight those
      that some caller has yet to call. registered is everything RequireFeatures has been given. */
  datatype System = System(
    features: seq<FeatureType>,
    pending: seq<Resolution>,
    pendingOptional: seq<Resolution>,
    running: bool,
    inFlight: multiset<Resolution>,
    called: multiset<Resolution>,
    registered: multiset<Resolution>)

  const EMPTY := System([], [], [], false, multiset{}, multiset{}, multiset{})

  datatype Step = Require(r: Resolution) | Add(f: FeatureType) | Call(callee: Resolution) | Start

  /** The steps are atomic: what happens under the lock, and single calls of callbacks. A callback that
      registers more is followed by the steps that it makes. */
  predicate Enabled(s: System, step: Step) {
    step.Call? ==> step.callee in s.inFlight
  }

  function Next(s: System, step: Step): System
    requires Enabled(s, step)
  {
    match step
    case Require(r) =>
      var t := s.(registered := s.registered + multiset{r});
      if Ready(s.features, r) then t.(inFlight := t.inFlight + multiset{r})
      else if r.optional then t.(pendingOptional := t.pendingOptional + [r])
      else t.(pending := t.pending + [r])
    case Add(f) =>
      if s.running then s
      else
        var fs := s.features + [f];
        s.(features := fs,
           pending := Missing(fs, s.pending),
           pendingOptional := Missing(fs, s.pendingOptional),
           inFlight := s.inFlight + multiset(Available(fs, s.pending)) + multiset(Available(fs, s.pendingOptional)))
    case Call(r) => s.(inFlight := s.inFlight - multiset{r}, called := s.called + multiset{r})
    case Start => s.(running := true)
  }

  // ---- The instance --------------------------------------------------------------------------

  class Instance {
    var features: seq<FeatureType>
    var pendingResolutions: seq<Resolution>
    var pendingOptionalResolutions: seq<Resolution>
    var running: bool

    constructor ()
      ensures features == [] && pendingResolutions == pendingOptionalResolutions == [] && !running
    {
      features, pendingResolutions, pendingOptionalResolutions, running := [], [], [], false;
    }

    /** getFeature */
    method HasFeature(t: FeatureType) returns (found: bool)
      ensures found <==> t in features
    {
      for i := 0 to |features|
        invariant t !in features[..i]
      {
        if features[i] == t {
          return true;
        }
      }
      return false;
    }

    /** The search over the parameters of one callback. */
    method FoundAll(r: Resolution) returns (foundAll: bool)
      ensures foundAll <==> Ready(features, r)
    {
      for i := 0 to |r.deps|
        invariant forall k :: 0 <= k < i ==> r.deps[k] in features
      {
        var found := HasFeature(r.deps[i]);
        if !found {
          return false;
        }
      }
      return true;
    }

    /** The fields show this state of the system. */
    ghost predicate Shows(s: System)
      reads this
    {
      && s.features == features && s.running == running
      && s.pending == pendingResolutions && s.pendingOptional == pendingOptionalResolutions
    }

    /** RequireFeatures up to the release of the lock: true if the callback is to be called at once. */
    method RequireFeatures(r: Resolution, ghost s: System) returns (now: bool)
      requires Shows(s)
      modifies this
      ensures now <==> forall d :: d in r.deps ==> d in features
      ensures Shows(Next(s, Require(r)))
      ensures Next(s, Require(r)).inFlight == s.inFlight + (if now then multiset{r} else multiset{})
    {
      now := FoundAll(r);
      if !now {
        if r.optional {
          pendingOptionalResolutions := pendingOptionalResolutions + [r];
        } else {
          pendingResolutions := pendingResolutions + [r];
        }
      }
    }

    /** One of the two scans of AddFeature. */
    method Scan(rs: seq<Resolution>) returns (available: seq<Resolution>, pending: seq<Resolution>)
      ensures available == Available(features, rs) && pending == Missing(features, rs)
    {
      available, pending := [], [];
      for i := 0 to |rs|
        invariant available == Available(features, rs[..i]) && pending == Missing(features, rs[..i])
      {
        assert rs[..i + 1] == rs[..i] + [rs[i]];
        SplitSnoc(features, rs[..i], rs[i]);
        var foundAll := FoundAll(rs[i]);
        if foundAll {
          available := available + [rs[i]];
        } else {
          pending := pending + [rs[i]];
        }
      }
      assert rs[..|rs|] == rs;
    }

    /** AddFeature up to the release of the lock; the result is what is to be called then. */
    method AddFeature(f: FeatureType, ghost s: System) returns (available: seq<Resolution>)
      requires Shows(s)
      modifies this
      ensures Shows(Next(s, Add(f)))
      ensures old(running) ==> available == [] && features == old(features)
      ensures !old(running) ==> features == old(features) + [f]
      ensures old(running) || SplitUp(features, old(pendingResolutions + pendingOptionalResolutions), available,
                                      pendingResolutions + pendingOptionalResolutions)
      ensures Next(s, Add(f)).inFlight == s.inFlight + multiset(available)
    {
      if running {
        return [];  // the feature is started and not recorded
      }
      ghost var waited := pendingResolutions + pendingOptionalResolutions;
      available := AddAndScan(f, s);
      assert SplitUp(features, waited, available, pendingResolutions + pendingOptionalResolutions) by {
        BothSplit(features, s.pending, s.pendingOptional);
      }
    }

    /** The part under the lock. */
    method AddAndScan(f: FeatureType, ghost s: System) returns (available: seq<Resolution>)
      requires Shows(s) && !running
      modifies this
      ensures Shows(Next(s, Add(f))) && features == old(features) + [f]
      ensures available == Available(features, s.pending) + Available(features, s.pendingOptional)
      ensures pendingResolutions == Missing(features, s.pending)
      ensures pendingOptionalResolutions == Missing(features, s.pendingOptional)
      ensures Next(s, Add(f)).inFlight == s.inFlight + multiset(available)
    {
      features := features + [f];
      var a, p := Scan(pendingResolutions);
      pendingResolutions := p;
      var b, q := Scan(pendingOptionalResolutions);
      pendingOptionalResolutions := q;
      available := a + b;
    }
  }

  // ---- Every interleaving --------------------------------------------------------------------

  /** Nothing is lost or doubled; nobody waits in vain; nobody is called too early. */
  ghost predicate Inv(s: System) {
    && s.registered == multiset(s.pending) + multiset(s.pendingOptional) + s.inFlight + s.called
    && (forall r :: r in s.pending ==> !r.optional && !Ready(s.features, r))
    && (forall r :: r in s.pendingOptional ==> r.optional && !Ready(s.features, r))
    && (forall r :: r in s.inFlight ==> Ready(s.features, r))
    && (forall r :: r in s.called ==> Ready(s.features, r))
  }

  lemma {:induction false} RequireKeeps(s: System, r: Resolution)
    requires Inv(s)
    ensures Inv(Next(s, Require(r)))
  {
    var t := Next(s, Require(r));
    if !Ready(s.features, r) {
      AddedLast(if r.optional then s.pendingOptional else s.pending, r);
    }
    assert t.registered == multiset(t.pending) + multiset(t.pendingOptional) + t.inFlight + t.called;
  }

  lemma {:induction false} AddedLast(rs: seq<Resolution>, r: Resolution)
    ensures multiset(rs + [r]) == multiset(rs) + multiset{r}
    ensures forall q :: q in rs + [r] <==> q in rs || q == r
  {
  }

  lemma {:induction false} CallKeeps(s: System, r: Resolution)
    requires Inv(s) && r in s.inFlight
    ensures Inv(Next(s, Call(r)))
  {
  }

  lemma {:induction false} AddKeeps(s: System, f: FeatureType)
    requires Inv(s) && !s.running
    ensures Inv(Next(s, Add(f)))
  {
    var fs := s.features + [f];
    SplitKeeps(fs, s.pending);
    SplitKeeps(fs, s.pendingOptional);
    forall r | Ready(s.features, r)
      ensures Ready(fs, r)
    {
    }
  }

  lemma {:induction false} StepKeeps(s: System, step: Step)
    requires Inv(s) && Enabled(s, step)
    ensures Inv(Next(s, step))
  {
    match step
    case Require(r) => RequireKeeps(s, r);
    case Add(f) => if !s.running { AddKeeps(s, f); }
    case Call(r) => CallKeeps(s, r);
    case Start =>
  }

  ghost predicate Run(s: System, steps: seq<Step>, t: System)
    decreases |steps|
  {
    if steps == [] then s == t
    else Enabled(s, steps[0]) && Run(Next(s, steps[0]), steps[1..], t)
  }

  /** In every reachable state each registered callback is in exactly one place, none of those that
      still wait could be called, and those that are called have all their parameters, so the search
      for them in callbackResolution cannot come up short. */
  lemma {:induction false} EveryRun(s: System, steps: seq<Step>, t: System)
    requires Inv(s) && Run(s, steps, t)
    ensures Inv(t)
    ensures forall r :: r in t.called ==> forall d :: d in r.deps ==> d in t.features
    ensures forall r :: r in t.pending || r in t.pendingOptional ==> exists d :: d in r.deps && d !in t.features
    decreases |steps|
  {
    if steps != [] {
      StepKeeps(s, steps[0]);
      EveryRun(Next(s, steps[0]), steps[1..], t);
    }
  }

  /** When all calls have been made, the callbacks called are just those that are ready, each as often
      as it was registered. */
  lemma {:induction false} Quiescent(steps: seq<Step>, t: System)
    requires Run(EMPTY, steps, t) && t.inFlight == multiset{}
    ensures forall r :: t.called[r] == if forall d :: d in r.deps ==> d in t.features then t.registered[r] else 0
  {
    EveryRun(EMPTY, steps, t);
    forall r
      ensures t.called[r] == if Ready(t.features, r) then t.registered[r] else 0
    {
      assert r in t.pending <==> multiset(t.pending)[r] > 0;
      assert r in t.pendingOptional <==> multiset(t.pendingOptional)[r] > 0;
      if !Ready(t.features, r) {
        assert r !in t.called;
      }
    }
  }

  /** The order does not matter: the same registrations and the same features lead to the same calls. */
  lemma {:induction false} OrderIndependent(xs: seq<Step>, s: System, ys: seq<Step>, t: System)
    requires Run(EMPTY, xs, s) && Run(EMPTY, ys, t)
    requires s.inFlight == t.inFlight == multiset{} && s.registered == t.registered
    requires forall f :: f in s.features <==> f in t.features
    ensures s.called == t.called
  {
    Quiescent(xs, s);
    Quiescent(ys, t);
    forall r
      ensures s.called[r] == t.called[r]
    {
      assert Ready(s.features, r) <==> Ready(t.features, r);
    }
  }

  /** The check at the end of the initialisation: it passes if and only if every callback that is not
      optional has found its features. */
  lemma {:induction false} AllResolved(steps: seq<Step>, t: System)
    requires Run(EMPTY, steps, t)
    ensures t.pending == [] <==>
      forall r, d :: r in t.registered && !r.optional && d in r.deps ==> d in t.features
  {
    EveryRun(EMPTY, steps, t);
    if t.pending != [] {
      assert t.pending[0] in t.pending && t.pending[0] in t.registered;
    }
    forall r | t.pending == [] && r in t.registered && !r.optional
      ensures Ready(t.features, r)
    {
      assert r !in t.pending;
      assert r in t.pendingOptional || r in t.inFlight || r in t.called;
    }
  }
}
