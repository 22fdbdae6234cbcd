/** updateChildren as a state: what every turn of its loop keeps. */
module ReconcileState {
  import opened Elements
  import opened Sequences

  datatype Factory = Factory(id: int, error: bool)

  /** The fields of a virtual node that matter here; elm is the element it is rendered to. */
  datatype VNode = VNode(
    key: Option<int>,
    tag: Option<string>,
    isComment: bool,
    hasData: bool,
    inputType: Option<string>,
    isAsyncPlaceholder: bool,
    asyncFactory: Option<Factory>,
    elm: Option<Elm>)

  predicate IsTextInputType(t: Option<string>) {
    t.Some? && t.value in {"text", "number", "password", "search", "email", "tel", "url"}
  }

  predicate SameInputType(a: VNode, b: VNode) {
    || a.tag != Some("input")
    || a.inputType == b.inputType
    || (IsTextInputType(a.inputType) && IsTextInputType(b.inputType))
  }

  predicate SameVnode(a: VNode, b: VNode) {
    && a.key == b.key
    && (|| (a.tag == b.tag && a.isComment == b.isComment && a.hasData == b.hasData && SameInputType(a, b))
        || (a.isAsyncPlaceholder && a.asyncFactory == b.asyncFactory
            && b.asyncFactory.Some? && !b.asyncFactory.value.error))
  }

  /** Of nodes that are no placeholders: the same key and kind of node, and inputs of the same or of two text
      types. */
  lemma {:induction false} SameMeans(a: VNode, b: VNode)
    requires !a.isAsyncPlaceholder
    ensures SameVnode(a, b) <==>
      && a.key == b.key && a.tag == b.tag && a.isComment == b.isComment && a.hasData == b.hasData
      && (a.tag == Some("input") && a.inputType != b.inputType ==>
            var text := {"text", "number", "password", "search", "email", "tel", "url"};
            a.inputType.Some? && a.inputType.value in text && b.inputType.Some? && b.inputType.value in text)
  {
  }

  /** What checkDuplicateKeys warns about does not occur. */
  ghost predicate UniqueKeys(vs: seq<VNode>) {
    forall i, j :: 0 <= i < j < |vs| && vs[i].key.Some? ==> vs[i].key != vs[j].key
  }

  function E(v: VNode): Elm {
    if v.elm.Some? then v.elm.value else 0
  }

  function Elms(vs: seq<VNode>): seq<Elm> {
    if vs == [] then [] else [E(vs[0])] + Elms(vs[1..])
  }

  /** The elements of the slots that are not blank. */
  function Live(vs: seq<Option<VNode>>): seq<Elm> {
    if vs == [] then [] else (if vs[0].Some? then [E(vs[0].value)] else []) + Live(vs[1..])
  }

  lemma {:induction false} ElmsAppend(a: seq<VNode>, b: seq<VNode>)
    ensures Elms(a + b) == Elms(a) + Elms(b)
  {
    if a == [] {
      assert a + b == b;
    } else {
      assert (a + b)[1..] == a[1..] + b;
      ElmsAppend(a[1..], b);
      Associate([E(a[0])], Elms(a[1..]), Elms(b));
    }
  }

  lemma {:induction false} LiveAppend(a: seq<Option<VNode>>, b: seq<Option<VNode>>)
    ensures Live(a + b) == Live(a) + Live(b)
  {
    if a == [] {
      assert a + b == b;
    } else {
      assert (a + b)[1..] == a[1..] + b;
      LiveAppend(a[1..], b);
      Associate(if a[0].Some? then [E(a[0].value)] else [], Live(a[1..]), Live(b));
    }
  }

  /** Where the element of a new node has come from. */
  datatype Origin = Pending | Created | From(slot: nat)

  /** The arrays, the four cursors, the child list, the next fresh element; and for the record which
      old node each new one has been patched from, and which new node (or -1) has taken each old one. */
  datatype State = State(
    oldCh: seq<Option<VNode>>, newCh: seq<VNode>,
    os: int, oe: int, ns: int, ne: int,
    dom: seq<Elm>, next: Elm,
    source: seq<Origin>, owner: seq<int>)

  predicate InWindow(st: State, i: int) {
    st.os <= i <= st.oe && 0 <= i < |st.oldCh| && st.oldCh[i].Some?
  }

  predicate PendingAt(st: State, j: int) {
    st.ns <= j <= st.ne
  }

  predicate Shape(O: seq<VNode>, N: seq<VNode>, st: State) {
    && |st.oldCh| == |O| == |st.owner| && |st.newCh| == |N| == |st.source|
    && 0 <= st.os <= st.oe + 1 <= |O| && 0 <= st.ns <= st.ne + 1 <= |N|
  }

  /** An old slot is in the window and not blank exactly as long as nobody has taken it. */
  ghost predicate OldSlot(O: seq<VNode>, N: seq<VNode>, st: State, i: int)
    requires Shape(O, N, st) && 0 <= i < |O|
  {
    && (st.oldCh[i] == None || st.oldCh[i] == Some(O[i]))
    && (InWindow(st, i) <==> st.owner[i] < 0)
    && (st.owner[i] >= 0 ==> st.owner[i] < |N| && st.source[st.owner[i]] == From(i))
  }

  ghost predicate NewSlot(O: seq<VNode>, N: seq<VNode>, first: Elm, st: State, j: int)
    requires Shape(O, N, st) && 0 <= j < |N|
  {
    match st.source[j]
    case Pending => PendingAt(st, j) && st.newCh[j] == N[j]
    case Created =>
      && !PendingAt(st, j) && st.newCh[j] == N[j].(elm := st.newCh[j].elm)
      && st.newCh[j].elm.Some? && first <= st.newCh[j].elm.value < st.next
    case From(i) =>
      && !PendingAt(st, j) && i < |O| && st.owner[i] == j
      && SameVnode(O[i], N[j]) && st.newCh[j] == N[j].(elm := O[i].elm)
  }

  ghost predicate Slots(O: seq<VNode>, N: seq<VNode>, first: Elm, st: State) {
    && Shape(O, N, st)
    && (forall i :: 0 <= i < |O| ==> OldSlot(O, N, st, i))
    && (forall j :: 0 <= j < |N| ==> NewSlot(O, N, first, st, j))
  }

  /** Finished new prefix, surviving old window, finished new suffix. */
  function Expected(st: State): seq<Elm>
    requires 0 <= st.os <= st.oe + 1 <= |st.oldCh| && 0 <= st.ns <= st.ne + 1 <= |st.newCh|
  {
    Elms(st.newCh[..st.ns]) + Live(st.oldCh[st.os..st.oe + 1]) + Elms(st.newCh[st.ne + 1..])
  }

  /** The child list holds just the expected elements; in just that order if moves are allowed. */
  ghost predicate Ordered(expected: seq<Elm>, dom: seq<Elm>, next: Elm, canMove: bool) {
    && AtMostOnce(expected)
    && multiset(dom) == multiset(expected)
    && (canMove ==> dom == expected)
    && (forall e :: e in expected ==> e < next)
  }

  ghost predicate Inv(O: seq<VNode>, N: seq<VNode>, first: Elm, canMove: bool, st: State) {
    Slots(O, N, first, st) && Ordered(Expected(st), st.dom, st.next, canMove)
  }

  // ---- The turns of the loop -----------------------------------------------------------------

  /** patchVnode: old node i keeps its element and lends it to new node j. */
  function Patch(O: seq<VNode>, st: State, i: nat, j: nat): State
    requires i < |O| == |st.owner| && j < |st.newCh| == |st.source|
  {
    st.(newCh := st.newCh[j := st.newCh[j].(elm := O[i].elm)],
        source := st.source[j := From(i)],
        owner := st.owner[i := j])
  }

  /** createElm for new node j, in front of ref. */
  function Create(st: State, j: nat, ref: Option<Elm>): State
    requires j < |st.newCh| == |st.source|
  {
    st.(newCh := st.newCh[j := st.newCh[j].(elm := Some(st.next))],
        source := st.source[j := Created],
        dom := Inserted(st.dom, st.next, ref),
        next := st.next + 1)
  }

  function Moved(st: State, canMove: bool, x: Elm, ref: Option<Elm>): State {
    if canMove then st.(dom := Inserted(st.dom, x, ref)) else st
  }

  lemma {:induction false} WindowFirst(st: State)
    requires 0 <= st.os <= st.oe < |st.oldCh|
    ensures Live(st.oldCh[st.os..st.oe + 1]) ==
            (if st.oldCh[st.os].Some? then [E(st.oldCh[st.os].value)] else []) + Live(st.oldCh[st.os + 1..st.oe + 1])
  {
    assert st.oldCh[st.os..st.oe + 1][1..] == st.oldCh[st.os + 1..st.oe + 1];
  }

  lemma {:induction false} WindowLast(st: State)
    requires 0 <= st.os <= st.oe < |st.oldCh|
    ensures Live(st.oldCh[st.os..st.oe + 1]) ==
            Live(st.oldCh[st.os..st.oe]) + (if st.oldCh[st.oe].Some? then [E(st.oldCh[st.oe].value)] else [])
  {
    var last := [st.oldCh[st.oe]];
    assert st.oldCh[st.os..st.oe + 1] == st.oldCh[st.os..st.oe] + last;
    LiveAppend(st.oldCh[st.os..st.oe], last);
    assert last[1..] == [];
  }

  lemma {:induction false} PrefixGrows(vs: seq<VNode>, j: nat, v: VNode)
    requires j < |vs|
    ensures Elms(vs[j := v][..j + 1]) == Elms(vs[..j]) + [E(v)]
  {
    assert vs[j := v][..j + 1] == vs[..j] + [v];
    ElmsAppend(vs[..j], [v]);
    assert [v][1..] == [];
  }

  lemma {:induction false} SuffixGrows(vs: seq<VNode>, j: nat, v: VNode)
    requires j < |vs|
    ensures Elms(vs[j := v][j..]) == [E(v)] + Elms(vs[j + 1..])
  {
    assert vs[j := v][j..][1..] == vs[j + 1..];
  }

  /** Patching new node j from old node i, which leaves the window while j leaves the pending ones. */
  lemma {:induction false} PatchSlots(O: seq<VNode>, N: seq<VNode>, first: Elm, st: State, i: nat, j: nat, t: State)
    requires Slots(O, N, first, st)
    requires i < |O| && InWindow(st, i) && PendingAt(st, j) && SameVnode(O[i], N[j])
    requires Shape(O, N, t) && t.next == st.next
    requires var u := Patch(O, st, i, j); t.newCh == u.newCh && t.source == u.source && t.owner == u.owner
    requires forall k :: 0 <= k < |O| ==>
      (t.oldCh[k] == None || t.oldCh[k] == st.oldCh[k]) && (InWindow(t, k) <==> InWindow(st, k) && k != i)
    requires forall k :: 0 <= k < |N| ==> (PendingAt(t, k) <==> PendingAt(st, k) && k != j)
    ensures Slots(O, N, first, t)
  {
    assert NewSlot(O, N, first, st, j) && st.source[j] == Pending;
    forall k | 0 <= k < |O|
      ensures OldSlot(O, N, t, k)
    {
      assert OldSlot(O, N, st, k);
    }
    forall k | 0 <= k < |N|
      ensures NewSlot(O, N, first, t, k)
    {
      assert NewSlot(O, N, first, st, k);
      assert OldSlot(O, N, st, i);
    }
  }

  /** Creating an element for new node j. */
  lemma {:induction false} CreateSlots(O: seq<VNode>, N: seq<VNode>, first: Elm, st: State, j: nat, ref: Option<Elm>,
                                       t: State)
    requires Slots(O, N, first, st) && PendingAt(st, j) && first <= st.next
    requires Shape(O, N, t) && t.oldCh == st.oldCh && t.os == st.os && t.oe == st.oe
    requires var u := Create(st, j, ref);
      t.newCh == u.newCh && t.source == u.source && t.owner == u.owner && t.next == u.next
    requires forall k :: 0 <= k < |N| ==> (PendingAt(t, k) <==> PendingAt(st, k) && k != j)
    ensures Slots(O, N, first, t)
  {
    assert NewSlot(O, N, first, st, j) && st.source[j] == Pending;
    forall k | 0 <= k < |O|
      ensures OldSlot(O, N, t, k)
    {
      assert OldSlot(O, N, st, k);
    }
    forall k | 0 <= k < |N|
      ensures NewSlot(O, N, first, t, k)
    {
      assert NewSlot(O, N, first, st, k);
    }
  }

  /** Dropping blank slots from either end of the window. */
  lemma {:induction false} SameSlots(O: seq<VNode>, N: seq<VNode>, first: Elm, st: State, t: State)
    requires Slots(O, N, first, st) && st.os <= st.oe
    requires || (st.oldCh[st.os] == None && t == st.(os := st.os + 1))
             || (st.oldCh[st.oe] == None && t == st.(oe := st.oe - 1))
    ensures Slots(O, N, first, t)
  {
    forall k | 0 <= k < |O|
      ensures OldSlot(O, N, t, k)
    {
      assert OldSlot(O, N, st, k);
      assert InWindow(t, k) <==> InWindow(st, k);
    }
    forall k | 0 <= k < |N|
      ensures NewSlot(O, N, first, t, k)
    {
      assert NewSlot(O, N, first, st, k);
    }
  }

  lemma {:induction false} ExpectedSkipStart(st: State)
    requires 0 <= st.os <= st.oe < |st.oldCh| && 0 <= st.ns <= st.ne + 1 <= |st.newCh| && st.oldCh[st.os] == None
    ensures Expected(st.(os := st.os + 1)) == Expected(st)
  {
    WindowFirst(st);
    NothingAdded(Live(st.oldCh[st.os + 1..st.oe + 1]));
  }

  lemma {:induction false} ExpectedSkipEnd(st: State)
    requires 0 <= st.os <= st.oe < |st.oldCh| && 0 <= st.ns <= st.ne + 1 <= |st.newCh| && st.oldCh[st.oe] == None
    ensures Expected(st.(oe := st.oe - 1)) == Expected(st)
  {
    WindowLast(st);
    NothingAdded(Live(st.oldCh[st.os..st.oe]));
  }

  lemma {:induction false} KeepSkipStart(O: seq<VNode>, N: seq<VNode>, first: Elm, canMove: bool, st: State)
    requires Inv(O, N, first, canMove, st) && st.os <= st.oe && st.oldCh[st.os] == None
    ensures Inv(O, N, first, canMove, st.(os := st.os + 1))
  {
    ExpectedSkipStart(st);
    SameSlots(O, N, first, st, st.(os := st.os + 1));
  }

  lemma {:induction false} KeepSkipEnd(O: seq<VNode>, N: seq<VNode>, first: Elm, canMove: bool, st: State)
    requires Inv(O, N, first, canMove, st) && st.os <= st.oe && st.oldCh[st.oe] == None
    ensures Inv(O, N, first, canMove, st.(oe := st.oe - 1))
  {
    ExpectedSkipEnd(st);
    SameSlots(O, N, first, st, st.(oe := st.oe - 1));
  }

  // ---- The child list in each kind of turn ---------------------------------------------------

  lemma {:induction false} Rearranged(x: seq<Elm>, y: seq<Elm>, dom: seq<Elm>, dom': seq<Elm>, next: Elm, canMove: bool)
    requires Ordered(x, dom, next, canMove) && multiset(x) == multiset(y)
    requires if canMove then dom' == y else dom' == dom
    ensures Ordered(y, dom', next, canMove)
  {
    forall e ensures multiset(y)[e] <= 1 {
      assert multiset(x)[e] <= 1;
    }
    forall e | e in y ensures e < next {
      CountIn(y, e);
      CountIn(x, e);
    }
  }

  lemma {:induction false} OrderBehind(p: seq<Elm>, x: Elm, m: seq<Elm>, y: Elm, q: seq<Elm>, dom: seq<Elm>,
                                       next: Elm, canMove: bool)
    requires Ordered(p + ([x] + (m + [y])) + q, dom, next, canMove)
    ensures Ordered(p + (m + [y]) + ([x] + q),
                    if canMove then Inserted(dom, x, NextSibling(dom, y)) else dom, next, canMove)
  {
    if canMove {
      MoveBehind(p, x, m, y, q);
    }
    Rearranged(p + ([x] + (m + [y])) + q, p + (m + [y]) + ([x] + q), dom,
               if canMove then Inserted(dom, x, NextSibling(dom, y)) else dom, next, canMove);
  }

  lemma {:induction false} OrderFront(p: seq<Elm>, x: Elm, m: seq<Elm>, y: Elm, q: seq<Elm>, dom: seq<Elm>,
                                      next: Elm, canMove: bool)
    requires Ordered((p + [x] + m) + [y] + q, dom, next, canMove)
    ensures Ordered(p + [y] + ([x] + (m + q)), if canMove then Inserted(dom, y, Some(x)) else dom, next, canMove)
  {
    if canMove {
      Apart(p + [x] + m, y, q);
      WithoutMiddle(p + [x] + m, y, q);
      assert (p + [x] + m) + q == p + ([x] + (m + q));
      assert x in p + [x] + m;
      MoveBefore(dom, p, x, m + q, y);
    }
    Rearranged((p + [x] + m) + [y] + q, p + [y] + ([x] + (m + q)), dom,
               if canMove then Inserted(dom, y, Some(x)) else dom, next, canMove);
  }

  lemma {:induction false} FreshCounts(before: seq<Elm>, after: seq<Elm>, f: Elm)
    requires AtMostOnce(before) && multiset(after) == multiset(before) + multiset{f}
    requires forall e :: e in before ==> e < f
    ensures f !in before && AtMostOnce(after) && multiset(after) == multiset(before)[f := 1]
    ensures forall e :: e in after ==> e < f + 1
  {
    CountIn(before, f);
    forall e ensures multiset(after)[e] <= 1 {
      assert multiset(before)[e] <= 1;
    }
    forall e | e in after ensures e < f + 1 {
      CountIn(after, e);
      CountIn(before, e);
    }
  }

  lemma {:induction false} OrderFresh(p: seq<Elm>, x: Elm, m: seq<Elm>, dom: seq<Elm>, f: Elm, canMove: bool)
    requires Ordered(p + ([x] + m), dom, f, canMove)
    ensures Ordered(p + [f] + ([x] + m), Inserted(dom, f, Some(x)), f + 1, canMove)
  {
    FreshCounts(p + ([x] + m), p + [f] + ([x] + m), f);
    InsertedCount(dom, f, Some(x));
    if canMove {
      WithoutAbsent(dom, f);
      assert x in p + ([x] + m);
      MoveBefore(dom, p, x, m, f);
    }
  }

  lemma {:induction false} OrderFreshBehind(p: seq<Elm>, q: seq<Elm>, ref: Option<Elm>, dom: seq<Elm>, f: Elm,
                                            canMove: bool)
    requires Ordered(p + q, dom, f, canMove)
    requires ref == if q == [] then None else Some(q[0])
    ensures Ordered(p + ([f] + q), Inserted(dom, f, ref), f + 1, canMove)
  {
    FreshCounts(p + q, p + ([f] + q), f);
    InsertedCount(dom, f, ref);
    if canMove {
      WithoutAbsent(dom, f);
      InsertBehind(dom, f, p, q, ref);
    }
  }

  // ---- Parts of the expected list ------------------------------------------------------------

  lemma {:induction false} ExpectedParts(st: State, p: seq<Elm>, l: seq<Elm>, q: seq<Elm>)
    requires 0 <= st.os <= st.oe + 1 <= |st.oldCh| && 0 <= st.ns <= st.ne + 1 <= |st.newCh|
    requires Elms(st.newCh[..st.ns]) == p && Live(st.oldCh[st.os..st.oe + 1]) == l && Elms(st.newCh[st.ne + 1..]) == q
    ensures Expected(st) == p + l + q
  {
  }

  lemma {:induction false} PrefixPart(st: State, t: State, v: VNode)
    requires 0 <= st.ns <= st.ne < |st.newCh| && t.newCh == st.newCh[st.ns := v] && t.ns == st.ns + 1 && t.ne == st.ne
    ensures Elms(t.newCh[..t.ns]) == Elms(st.newCh[..st.ns]) + [E(v)]
    ensures Elms(t.newCh[t.ne + 1..]) == Elms(st.newCh[st.ne + 1..])
  {
    PrefixGrows(st.newCh, st.ns, v);
    assert t.newCh[t.ne + 1..] == st.newCh[st.ne + 1..];
  }

  lemma {:induction false} SuffixPart(st: State, t: State, v: VNode)
    requires 0 <= st.ns <= st.ne < |st.newCh| && t.newCh == st.newCh[st.ne := v] && t.ns == st.ns && t.ne == st.ne - 1
    ensures Elms(t.newCh[..t.ns]) == Elms(st.newCh[..st.ns])
    ensures Elms(t.newCh[t.ne + 1..]) == [E(v)] + Elms(st.newCh[st.ne + 1..])
  {
    SuffixGrows(st.newCh, st.ne, v);
    assert t.newCh[..t.ns] == st.newCh[..st.ns];
  }

  lemma {:induction false} WindowEnds(st: State)
    requires 0 <= st.os < st.oe < |st.oldCh| && st.oldCh[st.os].Some? && st.oldCh[st.oe].Some?
    ensures var x, y := E(st.oldCh[st.os].value), E(st.oldCh[st.oe].value);
      var m := Live(st.oldCh[st.os + 1..st.oe]);
      && Live(st.oldCh[st.os..st.oe + 1]) == [x] + (m + [y])
      && Live(st.oldCh[st.os + 1..st.oe + 1]) == m + [y] && Live(st.oldCh[st.os..st.oe]) == [x] + m
  {
    WindowFirst(st);
    WindowLast(st.(os := st.os + 1));
    WindowFirst(st.(oe := st.oe - 1));
  }

  lemma {:induction false} Regroup(p: seq<Elm>, x: Elm, m: seq<Elm>, y: Elm, n: seq<Elm>, q: seq<Elm>)
    ensures p + ([x] + m + [y] + n) + q == (p + [x] + m) + [y] + (n + q)
    ensures (p + [y]) + ([x] + m + [] + n) + q == p + [y] + ([x] + (m + (n + q)))
  {
  }

  lemma {:induction false} RegroupFront(p: seq<Elm>, x: Elm, m: seq<Elm>, y: Elm, q: seq<Elm>)
    ensures p + ([x] + (m + [y])) + q == (p + [x] + m) + [y] + q
    ensures (p + [y]) + ([x] + m) + q == p + [y] + ([x] + (m + q))
  {
  }

  lemma {:induction false} RegroupBack(p: seq<Elm>, m: seq<Elm>, y: Elm, q: seq<Elm>)
    ensures p + (m + [y]) + q == p + m + ([y] + q)
  {
  }

  lemma {:induction false} RegroupNew(p: seq<Elm>, x: Elm, m: seq<Elm>, q: seq<Elm>)
    ensures p + ([x] + m) + q == p + ([x] + (m + q))
  {
  }

  // ---- Both ends in place --------------------------------------------------------------------

  function StartStart(O: seq<VNode>, st: State): State
    requires 0 <= st.os < |O| == |st.owner| && 0 <= st.ns < |st.newCh| == |st.source|
  {
    Patch(O, st, st.os, st.ns).(os := st.os + 1, ns := st.ns + 1)
  }

  lemma {:induction false} KeepStartStart(O: seq<VNode>, N: seq<VNode>, first: Elm, canMove: bool, st: State)
    requires Inv(O, N, first, canMove, st) && st.os <= st.oe && st.ns <= st.ne
    requires st.oldCh[st.os].Some? && SameVnode(O[st.os], N[st.ns])
    ensures Inv(O, N, first, canMove, StartStart(O, st))
  {
    var t := StartStart(O, st);
    assert OldSlot(O, N, st, st.os);
    PatchSlots(O, N, first, st, st.os, st.ns, t);
    ExpectedStartStart(O, st);
  }

  lemma {:induction false} ExpectedStartStart(O: seq<VNode>, st: State)
    requires 0 <= st.os <= st.oe < |O| == |st.owner| == |st.oldCh| && 0 <= st.ns <= st.ne < |st.newCh| == |st.source|
    requires st.oldCh[st.os] == Some(O[st.os])
    ensures Expected(StartStart(O, st)) == Expected(st)
  {
    var t := StartStart(O, st);
    var p, q := Elms(st.newCh[..st.ns]), Elms(st.newCh[st.ne + 1..]);
    var x, m := E(O[st.os]), Live(st.oldCh[st.os + 1..st.oe + 1]);
    WindowFirst(st);
    PrefixPart(st, t, t.newCh[st.ns]);
    ExpectedParts(st, p, [x] + m, q);
    ExpectedParts(t, p + [x], m, q);
    assert p + ([x] + m) == p + [x] + m;
  }

  function EndEnd(O: seq<VNode>, st: State): State
    requires 0 <= st.oe < |O| == |st.owner| && 0 <= st.ne < |st.newCh| == |st.source|
  {
    Patch(O, st, st.oe, st.ne).(oe := st.oe - 1, ne := st.ne - 1)
  }

  lemma {:induction false} KeepEndEnd(O: seq<VNode>, N: seq<VNode>, first: Elm, canMove: bool, st: State)
    requires Inv(O, N, first, canMove, st) && st.os <= st.oe && st.ns <= st.ne
    requires st.oldCh[st.oe].Some? && SameVnode(O[st.oe], N[st.ne])
    ensures Inv(O, N, first, canMove, EndEnd(O, st))
  {
    var t := EndEnd(O, st);
    assert OldSlot(O, N, st, st.oe);
    PatchSlots(O, N, first, st, st.oe, st.ne, t);
    ExpectedEndEnd(O, st);
  }

  lemma {:induction false} ExpectedEndEnd(O: seq<VNode>, st: State)
    requires 0 <= st.os <= st.oe < |O| == |st.owner| == |st.oldCh| && 0 <= st.ns <= st.ne < |st.newCh| == |st.source|
    requires st.oldCh[st.oe] == Some(O[st.oe])
    ensures Expected(EndEnd(O, st)) == Expected(st)
  {
    var t := EndEnd(O, st);
    var p, q := Elms(st.newCh[..st.ns]), Elms(st.newCh[st.ne + 1..]);
    var y, m := E(O[st.oe]), Live(st.oldCh[st.os..st.oe]);
    WindowLast(st);
    SuffixPart(st, t, t.newCh[st.ne]);
    ExpectedParts(st, p, m + [y], q);
    ExpectedParts(t, p, m, [y] + q);
    RegroupBack(p, m, y, q);
  }

  // ---- Across the ends -----------------------------------------------------------------------

  /** The old start has become the new end: it moves behind the old end. */
  function StartEnd(O: seq<VNode>, canMove: bool, st: State): State
    requires 0 <= st.os <= st.oe < |O| == |st.owner| && 0 <= st.ne < |st.newCh| == |st.source|
  {
    var patched := Patch(O, st, st.os, st.ne);
    Moved(patched, canMove, E(O[st.os]), NextSibling(st.dom, E(O[st.oe]))).(os := st.os + 1, ne := st.ne - 1)
  }

  lemma {:induction false} KeepStartEnd(O: seq<VNode>, N: seq<VNode>, first: Elm, canMove: bool, st: State)
    requires Inv(O, N, first, canMove, st) && st.os < st.oe && st.ns <= st.ne
    requires st.oldCh[st.os].Some? && st.oldCh[st.oe].Some? && SameVnode(O[st.os], N[st.ne])
    ensures Inv(O, N, first, canMove, StartEnd(O, canMove, st))
  {
    var t := StartEnd(O, canMove, st);
    assert OldSlot(O, N, st, st.os) && OldSlot(O, N, st, st.oe);
    PatchSlots(O, N, first, st, st.os, st.ne, t);
    ExpectedStartEnd(O, canMove, st);
    OrderBehind(Elms(st.newCh[..st.ns]), E(O[st.os]), Live(st.oldCh[st.os + 1..st.oe]), E(O[st.oe]),
                Elms(st.newCh[st.ne + 1..]), st.dom, st.next, canMove);
  }

  lemma {:induction false} ExpectedStartEnd(O: seq<VNode>, canMove: bool, st: State)
    requires 0 <= st.os < st.oe < |O| == |st.owner| == |st.oldCh| && 0 <= st.ns <= st.ne < |st.newCh| == |st.source|
    requires st.oldCh[st.os] == Some(O[st.os]) && st.oldCh[st.oe] == Some(O[st.oe])
    ensures var p, q := Elms(st.newCh[..st.ns]), Elms(st.newCh[st.ne + 1..]);
      var x, y := E(O[st.os]), E(O[st.oe]);
      var m := Live(st.oldCh[st.os + 1..st.oe]);
      && Expected(st) == p + ([x] + (m + [y])) + q
      && Expected(StartEnd(O, canMove, st)) == p + (m + [y]) + ([x] + q)
  {
    var t := StartEnd(O, canMove, st);
    var p, q := Elms(st.newCh[..st.ns]), Elms(st.newCh[st.ne + 1..]);
    var x, y := E(O[st.os]), E(O[st.oe]);
    var m := Live(st.oldCh[st.os + 1..st.oe]);
    WindowEnds(st);
    SuffixPart(st, t, t.newCh[st.ne]);
    ExpectedParts(st, p, [x] + (m + [y]), q);
    ExpectedParts(t, p, m + [y], [x] + q);
  }

  /** The old end has become the new start: it moves in front of the old start. */
  function EndStart(O: seq<VNode>, canMove: bool, st: State): State
    requires 0 <= st.os <= st.oe < |O| == |st.owner| && 0 <= st.ns < |st.newCh| == |st.source|
  {
    Moved(Patch(O, st, st.oe, st.ns), canMove, E(O[st.oe]), Some(E(O[st.os]))).(oe := st.oe - 1, ns := st.ns + 1)
  }

  lemma {:induction false} KeepEndStart(O: seq<VNode>, N: seq<VNode>, first: Elm, canMove: bool, st: State)
    requires Inv(O, N, first, canMove, st) && st.os < st.oe && st.ns <= st.ne
    requires st.oldCh[st.os].Some? && st.oldCh[st.oe].Some? && SameVnode(O[st.oe], N[st.ns])
    ensures Inv(O, N, first, canMove, EndStart(O, canMove, st))
  {
    var t := EndStart(O, canMove, st);
    assert OldSlot(O, N, st, st.os) && OldSlot(O, N, st, st.oe);
    PatchSlots(O, N, first, st, st.oe, st.ns, t);
    ExpectedEndStart(O, canMove, st);
    OrderFront(Elms(st.newCh[..st.ns]), E(O[st.os]), Live(st.oldCh[st.os + 1..st.oe]), E(O[st.oe]),
               Elms(st.newCh[st.ne + 1..]), st.dom, st.next, canMove);
  }

  lemma {:induction false} ExpectedEndStart(O: seq<VNode>, canMove: bool, st: State)
    requires 0 <= st.os < st.oe < |O| == |st.owner| == |st.oldCh| && 0 <= st.ns <= st.ne < |st.newCh| == |st.source|
    requires st.oldCh[st.os] == Some(O[st.os]) && st.oldCh[st.oe] == Some(O[st.oe])
    ensures var p, q := Elms(st.newCh[..st.ns]), Elms(st.newCh[st.ne + 1..]);
      var x, y := E(O[st.os]), E(O[st.oe]);
      var m := Live(st.oldCh[st.os + 1..st.oe]);
      && Expected(st) == (p + [x] + m) + [y] + q
      && Expected(EndStart(O, canMove, st)) == p + [y] + ([x] + (m + q))
  {
    var t := EndStart(O, canMove, st);
    var p, q := Elms(st.newCh[..st.ns]), Elms(st.newCh[st.ne + 1..]);
    var x, y := E(O[st.os]), E(O[st.oe]);
    var m := Live(st.oldCh[st.os + 1..st.oe]);
    WindowEnds(st);
    PrefixPart(st, t, t.newCh[st.ns]);
    ExpectedParts(st, p, [x] + (m + [y]), q);
    ExpectedParts(t, p + [y], [x] + m, q);
    RegroupFront(p, x, m, y, q);
  }

  // ---- By key, or new ------------------------------------------------------------------------

  /** A node strictly inside the window is taken for the new start; its slot goes blank. */
  function InsideStart(O: seq<VNode>, canMove: bool, st: State, i: nat): State
    requires 0 <= st.os < i < |O| == |st.owner| == |st.oldCh| && 0 <= st.ns < |st.newCh| == |st.source|
  {
    Moved(Patch(O, st, i, st.ns), canMove, E(O[i]), Some(E(O[st.os]))).(oldCh := st.oldCh[i := None], ns := st.ns + 1)
  }

  lemma {:induction false} KeepInsideStart(O: seq<VNode>, N: seq<VNode>, first: Elm, canMove: bool, st: State, i: nat)
    requires Inv(O, N, first, canMove, st) && st.os < i <= st.oe && st.ns <= st.ne
    requires st.oldCh[st.os].Some? && st.oldCh[i].Some? && SameVnode(O[i], N[st.ns])
    ensures Inv(O, N, first, canMove, InsideStart(O, canMove, st, i))
  {
    var t := InsideStart(O, canMove, st, i);
    assert OldSlot(O, N, st, st.os) && OldSlot(O, N, st, i);
    PatchSlots(O, N, first, st, i, st.ns, t);
    ExpectedInsideStart(O, canMove, st, i);
    OrderFront(Elms(st.newCh[..st.ns]), E(O[st.os]), Live(st.oldCh[st.os + 1..i]), E(O[i]),
               Live(st.oldCh[i + 1..st.oe + 1]) + Elms(st.newCh[st.ne + 1..]), st.dom, st.next, canMove);
  }

  lemma {:induction false} ExpectedInsideStart(O: seq<VNode>, canMove: bool, st: State, i: nat)
    requires 0 <= st.os < i <= st.oe < |O| == |st.owner| == |st.oldCh|
    requires 0 <= st.ns <= st.ne < |st.newCh| == |st.source|
    requires st.oldCh[st.os] == Some(O[st.os]) && st.oldCh[i] == Some(O[i])
    ensures var p, q := Elms(st.newCh[..st.ns]), Elms(st.newCh[st.ne + 1..]);
      var x, y := E(O[st.os]), E(O[i]);
      var m, n := Live(st.oldCh[st.os + 1..i]), Live(st.oldCh[i + 1..st.oe + 1]);
      && Expected(st) == (p + [x] + m) + [y] + (n + q)
      && Expected(InsideStart(O, canMove, st, i)) == p + [y] + ([x] + (m + (n + q)))
  {
    var t := InsideStart(O, canMove, st, i);
    var p, q := Elms(st.newCh[..st.ns]), Elms(st.newCh[st.ne + 1..]);
    var x, y := E(O[st.os]), E(O[i]);
    var m, n := Live(st.oldCh[st.os + 1..i]), Live(st.oldCh[i + 1..st.oe + 1]);
    WindowInside(st, i);
    WindowInside(t, i);
    assert t.oldCh[t.os + 1..i] == st.oldCh[st.os + 1..i] && t.oldCh[i + 1..t.oe + 1] == st.oldCh[i + 1..st.oe + 1];
    PrefixPart(st, t, t.newCh[st.ns]);
    ExpectedParts(st, p, [x] + m + [y] + n, q);
    ExpectedParts(t, p + [y], [x] + m + [] + n, q);
    Regroup(p, x, m, y, n, q);
  }

  lemma {:induction false} WindowInside(st: State, i: nat)
    requires 0 <= st.os < i <= st.oe < |st.oldCh| && st.oldCh[st.os].Some?
    ensures Live(st.oldCh[st.os..st.oe + 1]) ==
      [E(st.oldCh[st.os].value)] + Live(st.oldCh[st.os + 1..i]) +
      (if st.oldCh[i].Some? then [E(st.oldCh[i].value)] else []) + Live(st.oldCh[i + 1..st.oe + 1])
  {
    WindowFirst(st);
    LiveSplit(st.oldCh, st.os + 1, i, st.oe + 1);
    var x, y := [E(st.oldCh[st.os].value)], if st.oldCh[i].Some? then [E(st.oldCh[i].value)] else [];
    Associate(x, Live(st.oldCh[st.os + 1..i]), y + Live(st.oldCh[i + 1..st.oe + 1]));
    Associate(x + Live(st.oldCh[st.os + 1..i]), y, Live(st.oldCh[i + 1..st.oe + 1]));
  }

  lemma {:induction false} LiveSplit(vs: seq<Option<VNode>>, lo: int, i: int, hi: int)
    requires 0 <= lo <= i < hi <= |vs|
    ensures Live(vs[lo..hi]) ==
      Live(vs[lo..i]) + ((if vs[i].Some? then [E(vs[i].value)] else []) + Live(vs[i + 1..hi]))
  {
    assert vs[lo..hi] == vs[lo..i] + vs[i..hi];
    LiveAppend(vs[lo..i], vs[i..hi]);
    assert vs[i..hi][1..] == vs[i + 1..hi];
  }

  /** A new element in front of the old start. */
  function NewStart(st: State, x: Elm): State
    requires 0 <= st.ns < |st.newCh| == |st.source|
  {
    Create(st, st.ns, Some(x)).(ns := st.ns + 1)
  }

  lemma {:induction false} KeepNewStart(O: seq<VNode>, N: seq<VNode>, first: Elm, canMove: bool, st: State)
    requires Inv(O, N, first, canMove, st) && st.os <= st.oe && st.ns <= st.ne && first <= st.next
    requires st.oldCh[st.os].Some?
    ensures Inv(O, N, first, canMove, NewStart(st, E(O[st.os])))
  {
    NewStartSlots(O, N, first, st, E(O[st.os]));
    NewStartOrder(O, N, first, canMove, st);
  }

  lemma {:induction false} NewStartSlots(O: seq<VNode>, N: seq<VNode>, first: Elm, st: State, x: Elm)
    requires Slots(O, N, first, st) && st.os <= st.oe && st.ns <= st.ne && first <= st.next
    ensures Slots(O, N, first, NewStart(st, x))
  {
    CreateSlots(O, N, first, st, st.ns, Some(x), NewStart(st, x));
  }

  lemma {:induction false} NewStartOrder(O: seq<VNode>, N: seq<VNode>, first: Elm, canMove: bool, st: State)
    requires Inv(O, N, first, canMove, st) && st.os <= st.oe && st.ns <= st.ne && st.oldCh[st.os].Some?
    ensures var t := NewStart(st, E(O[st.os])); Cursors(t) && Ordered(Expected(t), t.dom, t.next, canMove)
  {
    assert OldSlot(O, N, st, st.os);
    ExpectedNewStart(st);
    OrderFresh(Elms(st.newCh[..st.ns]), E(O[st.os]), Live(st.oldCh[st.os + 1..st.oe + 1]) + Elms(st.newCh[st.ne + 1..]),
               st.dom, st.next, canMove);
  }

  lemma {:induction false} ExpectedNewStart(st: State)
    requires 0 <= st.os <= st.oe < |st.oldCh| && 0 <= st.ns <= st.ne < |st.newCh| == |st.source|
    requires st.oldCh[st.os].Some?
    ensures var p, q := Elms(st.newCh[..st.ns]), Elms(st.newCh[st.ne + 1..]);
      var x := E(st.oldCh[st.os].value);
      var m := Live(st.oldCh[st.os + 1..st.oe + 1]);
      && Expected(st) == p + ([x] + (m + q))
      && Expected(NewStart(st, x)) == p + [st.next] + ([x] + (m + q))
  {
    var x := E(st.oldCh[st.os].value);
    var t := NewStart(st, x);
    var p, q := Elms(st.newCh[..st.ns]), Elms(st.newCh[st.ne + 1..]);
    var m := Live(st.oldCh[st.os + 1..st.oe + 1]);
    WindowFirst(st);
    PrefixPart(st, t, t.newCh[st.ns]);
    ExpectedParts(st, p, [x] + m, q);
    ExpectedParts(t, p + [st.next], [x] + m, q);
    RegroupNew(p, x, m, q);
    RegroupNew(p + [st.next], x, m, q);
  }

  // ---- What is left over ---------------------------------------------------------------------

  /** A new element when the old nodes are used up. */
  function NewBehind(st: State, ref: Option<Elm>): State
    requires 0 <= st.ns < |st.newCh| == |st.source|
  {
    Create(st, st.ns, ref).(ns := st.ns + 1)
  }

  lemma {:induction false} KeepNewBehind(O: seq<VNode>, N: seq<VNode>, first: Elm, canMove: bool, st: State,
                                         ref: Option<Elm>)
    requires Inv(O, N, first, canMove, st) && st.os == st.oe + 1 && st.ns <= st.ne && first <= st.next
    requires var q := Elms(st.newCh[st.ne + 1..]); ref == if q == [] then None else Some(q[0])
    ensures Inv(O, N, first, canMove, NewBehind(st, ref))
  {
    var t := NewBehind(st, ref);
    CreateSlots(O, N, first, st, st.ns, ref, t);
    ExpectedNewBehind(st, ref);
    OrderFreshBehind(Elms(st.newCh[..st.ns]), Elms(st.newCh[st.ne + 1..]), ref, st.dom, st.next, canMove);
  }

  lemma {:induction false} ExpectedNewBehind(st: State, ref: Option<Elm>)
    requires 0 <= st.os == st.oe + 1 <= |st.oldCh| && 0 <= st.ns <= st.ne < |st.newCh| == |st.source|
    ensures var p, q := Elms(st.newCh[..st.ns]), Elms(st.newCh[st.ne + 1..]);
      && Expected(st) == p + q
      && Expected(NewBehind(st, ref)) == p + ([st.next] + q)
  {
    var t := NewBehind(st, ref);
    var p, q := Elms(st.newCh[..st.ns]), Elms(st.newCh[st.ne + 1..]);
    PrefixPart(st, t, t.newCh[st.ns]);
    assert Live(st.oldCh[st.os..st.oe + 1]) == [];
    ExpectedParts(st, p, [], q);
    ExpectedParts(t, p + [st.next], [], q);
    NothingAdded(p);
    NothingAdded(p + [st.next]);
    assert p + [st.next] + q == p + ([st.next] + q);
  }

  // ---- References for the insertions ---------------------------------------------------------

  /** The next sibling of the old end is not the node that is about to move. */
  lemma {:induction false} SiblingRef(O: seq<VNode>, N: seq<VNode>, first: Elm, st: State)
    requires Inv(O, N, first, true, st) && st.os < st.oe && st.ns <= st.ne
    requires st.oldCh[st.os].Some? && st.oldCh[st.oe].Some?
    ensures var ref := NextSibling(st.dom, E(O[st.oe])); ref.Some? ==> ref.value in st.dom && ref.value != E(O[st.os])
  {
    assert OldSlot(O, N, st, st.os) && OldSlot(O, N, st, st.oe);
    ExpectedStartEnd(O, true, st);
    var p, q := Elms(st.newCh[..st.ns]), Elms(st.newCh[st.ne + 1..]);
    OtherBehind(p, E(O[st.os]), Live(st.oldCh[st.os + 1..st.oe]), E(O[st.oe]), q);
  }

  lemma {:induction false} OtherBehind(p: seq<Elm>, x: Elm, m: seq<Elm>, y: Elm, q: seq<Elm>)
    requires AtMostOnce(p + ([x] + (m + [y])) + q)
    ensures var s := p + ([x] + (m + [y])) + q;
      var ref := NextSibling(s, y); ref.Some? ==> ref.value in s && ref.value != x
  {
    var s := p + ([x] + (m + [y])) + q;
    RegroupStretch(p, x, m, y, q);
    Apart(p + [x] + m, y, q);
    NextOf(p + [x] + m, y, q);
    Apart(p, x, m + [y] + q);
  }

  /** The old start is in the list. */
  lemma {:induction false} StartRef(O: seq<VNode>, N: seq<VNode>, first: Elm, canMove: bool, st: State)
    requires Inv(O, N, first, canMove, st) && st.os <= st.oe && st.ns <= st.ne && st.oldCh[st.os].Some?
    ensures E(O[st.os]) in st.dom && forall e :: e in st.dom ==> e < st.next
  {
    assert OldSlot(O, N, st, st.os);
    var x := E(O[st.os]);
    ExpectedNewStart(st);
    assert x in Expected(st);
    CountIn(st.dom, x);
    CountIn(Expected(st), x);
    forall e | e in st.dom ensures e < st.next {
      CountIn(st.dom, e);
      CountIn(Expected(st), e);
    }
  }

  lemma {:induction false} OtherThanStart(st: State, i: int)
    requires Cursors(st) && AtMostOnce(Expected(st)) && st.os < i <= st.oe && st.ns <= st.ne
    requires st.oldCh[st.os].Some? && st.oldCh[i].Some?
    ensures E(st.oldCh[st.os].value) != E(st.oldCh[i].value)
  {
    ExpectedNewStart(st);
    LiveWithin(st.oldCh, st.os + 1, i, st.oe + 1);
    FirstAlone(Elms(st.newCh[..st.ns]), E(st.oldCh[st.os].value), Live(st.oldCh[st.os + 1..st.oe + 1]),
               Elms(st.newCh[st.ne + 1..]), E(st.oldCh[i].value));
  }

  predicate Cursors(st: State) {
    0 <= st.os <= st.oe + 1 <= |st.oldCh| && 0 <= st.ns <= st.ne + 1 <= |st.newCh| == |st.source|
  }

  lemma {:induction false} FirstAlone(p: seq<Elm>, x: Elm, m: seq<Elm>, q: seq<Elm>, y: Elm)
    requires AtMostOnce(p + ([x] + (m + q))) && y in m
    ensures x != y
  {
    assert p + ([x] + (m + q)) == p + [x] + (m + q);
    Apart(p, x, m + q);
  }

  lemma {:induction false} LiveWithin(vs: seq<Option<VNode>>, lo: int, i: int, hi: int)
    requires 0 <= lo <= i < hi <= |vs| && vs[i].Some?
    ensures E(vs[i].value) in Live(vs[lo..hi])
  {
    LiveHas(vs[lo..hi], i - lo);
  }

  lemma {:induction false} LiveHas(vs: seq<Option<VNode>>, k: nat)
    requires k < |vs| && vs[k].Some?
    ensures E(vs[k].value) in Live(vs)
  {
    if k > 0 {
      LiveHas(vs[1..], k - 1);
    }
  }

  /** What the last loop inserts in front of is in the list. */
  lemma {:induction false} BehindRef(O: seq<VNode>, N: seq<VNode>, first: Elm, canMove: bool, st: State)
    requires Inv(O, N, first, canMove, st)
    ensures st.ne + 1 < |N| ==> st.newCh[st.ne + 1].elm.Some? ==> E(st.newCh[st.ne + 1]) in st.dom
    ensures var q := Elms(st.newCh[st.ne + 1..]);
      st.ne + 1 < |N| ==> q != [] && q[0] == E(st.newCh[st.ne + 1])
    ensures st.ne + 1 == |N| ==> Elms(st.newCh[st.ne + 1..]) == []
    ensures forall e :: e in st.dom ==> e < st.next
  {
    if st.ne + 1 < |N| {
      assert Elms(st.newCh[st.ne + 1..])[0] in Expected(st);
      CountIn(st.dom, E(st.newCh[st.ne + 1]));
      CountIn(Expected(st), E(st.newCh[st.ne + 1]));
    }
    forall e | e in st.dom ensures e < st.next {
      CountIn(st.dom, e);
      CountIn(Expected(st), e);
    }
  }

  // ---- What is left over of the old nodes ----------------------------------------------------

  /** The elements of the old nodes that no new node has taken. */
  function Unclaimed(O: seq<VNode>, owner: seq<int>): seq<Elm>
    requires |O| == |owner|
  {
    if O == [] then [] else (if owner[0] < 0 then [E(O[0])] else []) + Unclaimed(O[1..], owner[1..])
  }

  lemma {:induction false} UnclaimedAppend(a: seq<VNode>, b: seq<VNode>, x: seq<int>, y: seq<int>)
    requires |a| == |x| && |b| == |y|
    ensures Unclaimed(a + b, x + y) == Unclaimed(a, x) + Unclaimed(b, y)
  {
    if a == [] {
      assert a + b == b && x + y == y;
    } else {
      assert (a + b)[1..] == a[1..] + b && (x + y)[1..] == x[1..] + y;
      UnclaimedAppend(a[1..], b, x[1..], y);
    }
  }

  lemma {:induction false} AllClaimed(O: seq<VNode>, owner: seq<int>)
    requires |O| == |owner| && forall i :: 0 <= i < |O| ==> owner[i] >= 0
    ensures Unclaimed(O, owner) == []
  {
    if O != [] {
      AllClaimed(O[1..], owner[1..]);
    }
  }

  lemma {:induction false} LiveUnclaimed(vs: seq<Option<VNode>>, O: seq<VNode>, owner: seq<int>)
    requires |vs| == |O| == |owner|
    requires forall i :: 0 <= i < |O| ==> (vs[i] == None || vs[i] == Some(O[i])) && (vs[i].Some? <==> owner[i] < 0)
    ensures Live(vs) == Unclaimed(O, owner)
  {
    if O != [] {
      LiveUnclaimed(vs[1..], O[1..], owner[1..]);
    }
  }

  lemma {:induction false} UnclaimedWithin(O: seq<VNode>, owner: seq<int>, lo: int, hi: int)
    requires |O| == |owner| && 0 <= lo <= hi <= |O|
    requires forall i :: 0 <= i < |O| && !(lo <= i < hi) ==> owner[i] >= 0
    ensures Unclaimed(O, owner) == Unclaimed(O[lo..hi], owner[lo..hi])
  {
    UnclaimedBefore(O, owner, hi);
    assert O[..hi][..lo] == O[..lo] && O[..hi][lo..] == O[lo..hi] && owner[..hi][lo..] == owner[lo..hi];
    UnclaimedFrom(O[..hi], owner[..hi], lo);
  }

  lemma {:induction false} UnclaimedBefore(O: seq<VNode>, owner: seq<int>, hi: int)
    requires |O| == |owner| && 0 <= hi <= |O| && forall i :: hi <= i < |O| ==> owner[i] >= 0
    ensures Unclaimed(O, owner) == Unclaimed(O[..hi], owner[..hi])
  {
    assert O[..hi] + O[hi..] == O && owner[..hi] + owner[hi..] == owner;
    UnclaimedAppend(O[..hi], O[hi..], owner[..hi], owner[hi..]);
    AllClaimed(O[hi..], owner[hi..]);
  }

  lemma {:induction false} UnclaimedFrom(O: seq<VNode>, owner: seq<int>, lo: int)
    requires |O| == |owner| && 0 <= lo <= |O| && forall i :: 0 <= i < lo ==> owner[i] >= 0
    ensures Unclaimed(O, owner) == Unclaimed(O[lo..], owner[lo..])
  {
    assert O[..lo] + O[lo..] == O && owner[..lo] + owner[lo..] == owner;
    UnclaimedAppend(O[..lo], O[lo..], owner[..lo], owner[lo..]);
    AllClaimed(O[..lo], owner[..lo]);
    NothingAdded(Unclaimed(O[lo..], owner[lo..]));
  }

  /** What is still in the window is what has not been claimed. */
  lemma {:induction false} WindowUnclaimed(O: seq<VNode>, N: seq<VNode>, first: Elm, st: State)
    requires Slots(O, N, first, st)
    ensures Live(st.oldCh[st.os..st.oe + 1]) == Unclaimed(O, st.owner)
  {
    var lo, hi := st.os, st.oe + 1;
    forall i | 0 <= i < |O|
      ensures (st.oldCh[i] == None || st.oldCh[i] == Some(O[i])) && (InWindow(st, i) <==> st.owner[i] < 0)
    {
      assert OldSlot(O, N, st, i);
    }
    var vs, os, ws := st.oldCh[lo..hi], O[lo..hi], st.owner[lo..hi];
    forall i | 0 <= i < |vs|
      ensures (vs[i] == None || vs[i] == Some(os[i])) && (vs[i].Some? <==> ws[i] < 0)
    {
      assert InWindow(st, lo + i) <==> st.owner[lo + i] < 0;
    }
    LiveUnclaimed(vs, os, ws);
    forall i | 0 <= i < |O| && !(lo <= i < hi)
      ensures st.owner[i] >= 0
    {
      assert !InWindow(st, i);
    }
    UnclaimedWithin(O, st.owner, lo, hi);
  }

  /** One removal from the front of what is left of the window. */
  lemma {:induction false} OrderRemoved(p: seq<Elm>, x: Elm, m: seq<Elm>, q: seq<Elm>, dom: seq<Elm>, next: Elm,
                                        canMove: bool)
    requires Ordered(p + ([x] + m) + q, dom, next, canMove)
    ensures x in dom && Ordered(p + m + q, Without(dom, x), next, canMove)
  {
    var s := p + ([x] + m) + q;
    assert s == p + [x] + (m + q);
    Apart(p, x, m + q);
    WithoutMiddle(p, x, m + q);
    assert p + (m + q) == p + m + q;
    WithoutCount(dom, x);
    WithoutCount(s, x);
    CountIn(dom, x);
    CountIn(s, x);
    WithoutOnce(s, x);
    forall e | e in p + m + q ensures e < next {
      assert e in s;
    }
  }

  // ---- The whole -----------------------------------------------------------------------------

  /** Every old node is taken by one new node that is the same, or it is left over; every new node
      has been patched from one old node, whose element it keeps, or has got a new element. */
  ghost predicate Conserved(O: seq<VNode>, N: seq<VNode>, newCh: seq<VNode>, source: seq<Origin>, owner: seq<int>,
                            first: Elm, next: Elm)
  {
    && |owner| == |O| && |source| == |N| == |newCh|
    && (forall i :: 0 <= i < |O| ==> owner[i] < 0 || (owner[i] < |N| && source[owner[i]] == From(i)))
    && (forall j :: 0 <= j < |N| ==>
          match source[j]
          case Pending => false
          case Created =>
            newCh[j] == N[j].(elm := newCh[j].elm) && newCh[j].elm.Some? && first <= newCh[j].elm.value < next
          case From(i) => i < |O| && owner[i] == j && SameVnode(O[i], N[j]) && newCh[j] == N[j].(elm := O[i].elm))
  }

  lemma {:induction false} AllSettled(O: seq<VNode>, N: seq<VNode>, first: Elm, st: State)
    requires Slots(O, N, first, st) && st.ns == st.ne + 1
    ensures Conserved(O, N, st.newCh, st.source, st.owner, first, st.next)
  {
    forall i | 0 <= i < |O|
      ensures st.owner[i] < 0 || (st.owner[i] < |N| && st.source[st.owner[i]] == From(i))
    {
      assert OldSlot(O, N, st, i);
    }
    forall j | 0 <= j < |N|
      ensures NewSlot(O, N, first, st, j) && st.source[j] != Pending
    {
    }
  }
}
