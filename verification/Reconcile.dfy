/** updateChildren: turning one list of child nodes into another, in place and with few moves. */
module Reconcile {
  import opened Elements
  import opened ReconcileState
  import opened Sequences

  /** An index over the keys of a stretch of old nodes; the last of several equal keys counts. */
  method CreateKeyToOldIdx(children: array<Option<VNode>>, beginIdx: int, endIdx: int) returns (m: map<int, int>)
    requires 0 <= beginIdx <= endIdx + 1 <= children.Length
    requires forall i :: beginIdx <= i <= endIdx ==> children[i].Some?
    ensures forall k :: k in m ==> beginIdx <= m[k] <= endIdx && children[m[k]].value.key == Some(k)
    ensures forall i :: beginIdx <= i <= endIdx && children[i].value.key.Some? ==>
      children[i].value.key.value in m && i <= m[children[i].value.key.value]
  {
    m := map[];
    for i := beginIdx to endIdx + 1
      invariant forall k :: k in m ==> beginIdx <= m[k] < i && children[m[k]].value.key == Some(k)
      invariant forall h :: beginIdx <= h < i && children[h].value.key.Some? ==>
        children[h].value.key.value in m && h <= m[children[h].value.key.value]
    {
      var key := children[i].value.key;
      if key.Some? {
        m := m[key.value := i];
      }
    }
  }

  /** The first old node that would do, the last of the stretch left out. */
  method FindIdxInOld(node: VNode, oldCh: array<Option<VNode>>, start: int, end: int) returns (r: Option<int>)
    requires 0 <= start <= end < oldCh.Length
    ensures r.Some? ==> start <= r.value < end && oldCh[r.value].Some? && SameVnode(node, oldCh[r.value].value)
    ensures r.Some? ==> forall i :: start <= i < r.value && oldCh[i].Some? ==> !SameVnode(node, oldCh[i].value)
    ensures r.None? ==> forall i :: start <= i < end && oldCh[i].Some? ==> !SameVnode(node, oldCh[i].value)
  {
    for i := start to end
      invariant forall h :: start <= h < i && oldCh[h].Some? ==> !SameVnode(node, oldCh[h].value)
    {
      var c := oldCh[i];
      if c.Some? && SameVnode(node, c.value) {
        return Some(i);
      }
    }
    return None;
  }

  /** No slot has been blanked yet. */
  ghost predicate NoBlanks(vs: seq<Option<VNode>>) {
    forall i :: 0 <= i < |vs| ==> vs[i].Some?
  }

  ghost predicate HasKey(O: seq<VNode>, i: int, k: int) {
    0 <= i < |O| && O[i].key == Some(k)
  }

  /** The entries of the index are old nodes with the key in question. */
  ghost predicate Indexed(O: seq<VNode>, m: Option<map<int, int>>) {
    m.Some? ==> forall k :: k in m.value ==> HasKey(O, m.value[k], k)
  }

  /** An index that was built once stays good: the old node that it names for a pending new node has
      not been taken by any other, since only a node with the same key could have taken it. */
  lemma {:induction false} LookupIsFree(O: seq<VNode>, N: seq<VNode>, first: Elm, st: State, i: nat, j: nat)
    requires Slots(O, N, first, st) && UniqueKeys(N)
    requires j < |N| && PendingAt(st, j) && i < |O| && N[j].key.Some? && O[i].key == N[j].key
    ensures InWindow(st, i)
  {
    assert OldSlot(O, N, st, i) && NewSlot(O, N, first, st, j);
    var taker := if st.owner[i] >= 0 then st.owner[i] else j;
    assert NewSlot(O, N, first, st, taker);
    assert taker < j || j < taker || taker == j;
  }

  // ---- Nothing that can be reused is rendered anew --------------------------------------------

  /** Old node i could have been patched into this new node. By key it is found if no other old node has
      that key; without a key the search asks with the arguments of sameVnode the other way round, which
      makes a difference for the placeholders of async components only (see OneSided). */
  ghost predicate Reusable(O: seq<VNode>, i: int, n: VNode)
    requires 0 <= i < |O|
  {
    && SameVnode(O[i], n)
    && if n.key.Some? then UniqueKeys(O) else !O[i].isAsyncPlaceholder && !n.isAsyncPlaceholder
  }

  /** Every old node that could have been patched into n has been taken. */
  ghost predicate NobodyLeft(O: seq<VNode>, n: VNode, owner: seq<int>)
    requires |owner| == |O|
  {
    forall i :: 0 <= i < |O| && Reusable(O, i, n) ==> owner[i] >= 0
  }

  ghost predicate NothingWasted(O: seq<VNode>, N: seq<VNode>, source: seq<Origin>, owner: seq<int>) {
    && |source| == |N| && |owner| == |O|
    && forall j :: 0 <= j < |N| && source[j] == Created ==> NobodyLeft(O, N[j], owner)
  }

  /** An index has all keys that are still to be had. */
  ghost predicate AllIndexed(O: seq<VNode>, owner: seq<int>, index: Option<map<int, int>>)
    requires |owner| == |O|
  {
    index.Some? ==> forall i :: 0 <= i < |O| && owner[i] < 0 && O[i].key.Some? ==> O[i].key.value in index.value
  }

  ghost predicate Thrift(O: seq<VNode>, N: seq<VNode>, source: seq<Origin>, owner: seq<int>,
                         index: Option<map<int, int>>) {
    NothingWasted(O, N, source, owner) && AllIndexed(O, owner, index)
  }

  lemma {:induction false} PatchThrift(O: seq<VNode>, N: seq<VNode>, source: seq<Origin>, owner: seq<int>,
                                       index: Option<map<int, int>>, i: nat, j: nat)
    requires Thrift(O, N, source, owner, index) && i < |O| && j < |N|
    ensures Thrift(O, N, source[j := From(i)], owner[i := j], index)
  {
    forall k | 0 <= k < |N| && source[j := From(i)][k] == Created
      ensures NobodyLeft(O, N[k], owner[i := j])
    {
      assert NobodyLeft(O, N[k], owner);
    }
  }

  lemma {:induction false} CreateThrift(O: seq<VNode>, N: seq<VNode>, source: seq<Origin>, owner: seq<int>,
                                        index: Option<map<int, int>>, j: nat)
    requires Thrift(O, N, source, owner, index) && j < |N| && NobodyLeft(O, N[j], owner)
    ensures Thrift(O, N, source[j := Created], owner, index)
  {
  }

  /** sameVnode without async placeholders does not mind the order. */
  lemma {:induction false} PlainSame(a: VNode, b: VNode)
    requires SameVnode(a, b) && !a.isAsyncPlaceholder
    ensures SameVnode(b, a)
  {
  }

  /** With them it does. */
  lemma {:induction false} OneSided()
    ensures exists a, b :: SameVnode(a, b) && !SameVnode(b, a)
  {
    var f := Some(Factory(1, false));
    var a := VNode(None, None, true, false, None, true, f, None);
    var b := VNode(None, Some("p"), false, false, None, false, f, None);
    assert SameVnode(a, b) && !SameVnode(b, a);
  }

  /** When the search by key comes back empty, or with another element, there was nothing to find. */
  lemma {:induction false} NobodyByKey(O: seq<VNode>, N: seq<VNode>, first: Elm, st: State, index: map<int, int>,
                                       j: nat)
    requires Slots(O, N, first, st) && UniqueKeys(N) && PendingAt(st, j) && j < |N| && N[j].key.Some?
    requires Indexed(O, Some(index)) && AllIndexed(O, st.owner, Some(index))
    ensures N[j].key.value !in index ==> NobodyLeft(O, N[j], st.owner)
    ensures var k := N[j].key.value;
      k in index ==> HasKey(O, index[k], k) && (SameVnode(O[index[k]], N[j]) || NobodyLeft(O, N[j], st.owner))
  {
    var k := N[j].key.value;
    if k in index {
      assert HasKey(O, index[k], k);
    }
    forall i | 0 <= i < |O| && Reusable(O, i, N[j]) && st.owner[i] < 0
      ensures k in index && index[k] == i
    {
      assert O[i].key == Some(k);
      assert HasKey(O, index[k], k);
    }
  }

  /** The same for the search through the window. */
  lemma {:induction false} NobodyByLooking(O: seq<VNode>, N: seq<VNode>, first: Elm, st: State, j: nat, r: Option<int>)
    requires Slots(O, N, first, st) && j < |N| && N[j].key.None? && st.os <= st.oe
    requires !SameVnode(O[st.oe], N[j])
    requires match r
      case None => forall i :: st.os <= i < st.oe && st.oldCh[i].Some? ==> !SameVnode(N[j], st.oldCh[i].value)
      case Some(i) => st.os <= i < st.oe && st.oldCh[i].Some? && SameVnode(N[j], st.oldCh[i].value)
    ensures r.None? || !SameVnode(O[r.value], N[j]) ==> NobodyLeft(O, N[j], st.owner)
  {
    if r.Some? {
      assert OldSlot(O, N, st, r.value);
      if !N[j].isAsyncPlaceholder {
        PlainSame(N[j], O[r.value]);
      }
    } else {
      forall i | 0 <= i < |O| && Reusable(O, i, N[j])
        ensures st.owner[i] >= 0
      {
        assert OldSlot(O, N, st, i);
        PlainSame(O[i], N[j]);
      }
    }
  }

  lemma {:induction false} AllTaken(O: seq<VNode>, N: seq<VNode>, first: Elm, st: State, j: nat)
    requires Slots(O, N, first, st) && st.os == st.oe + 1 && j < |N|
    ensures NobodyLeft(O, N[j], st.owner)
  {
    forall i | 0 <= i < |O|
      ensures st.owner[i] >= 0
    {
      assert OldSlot(O, N, st, i);
    }
  }

  ghost predicate AllKeyedReused(O: seq<VNode>, N: seq<VNode>, source: seq<Origin>) {
    && |source| == |N|
    && forall i, j :: 0 <= i < |O| && 0 <= j < |N| && O[i].key.Some? && SameVnode(O[i], N[j]) ==> source[j] == From(i)
  }

  /** So with unique keys on both sides, an old node with the key of a new one, and the same otherwise, is
      what that new node has been patched from. */
  lemma {:induction false} KeyedReused(O: seq<VNode>, N: seq<VNode>, newCh: seq<VNode>, source: seq<Origin>,
                                       owner: seq<int>, first: Elm, next: Elm)
    requires Conserved(O, N, newCh, source, owner, first, next) && NothingWasted(O, N, source, owner)
    requires UniqueKeys(O) && UniqueKeys(N)
    ensures AllKeyedReused(O, N, source)
  {
    forall i, j | 0 <= i < |O| && 0 <= j < |N| && O[i].key.Some? && SameVnode(O[i], N[j])
      ensures source[j] == From(i)
    {
      match source[j] {
        case Created =>
          assert NobodyLeft(O, N[j], owner) && Reusable(O, i, N[j]);
          assert source[owner[i]] == From(i);
          SameKey(N, owner[i], j);
        case From(k) =>
          SameKey(O, k, i);
        case Pending =>
      }
    }
  }

  lemma {:induction false} SameKey(vs: seq<VNode>, i: int, j: int)
    requires UniqueKeys(vs) && 0 <= i < |vs| && 0 <= j < |vs| && vs[i].key == vs[j].key && vs[i].key.Some?
    ensures i == j
  {
    assert !(i < j) && !(j < i);
  }

  /** Which of the ends a turn takes, if any: those in place come before those that have changed sides. */
  ghost predicate EndsTurned(O: seq<VNode>, N: seq<VNode>, canMove: bool, st: State, t: State)
    requires 0 <= st.os <= st.oe < |O| == |st.owner| && 0 <= st.ns <= st.ne < |N| == |st.newCh| == |st.source|
  {
    if SameVnode(O[st.os], N[st.ns]) then t == StartStart(O, st)
    else if SameVnode(O[st.oe], N[st.ne]) then t == EndEnd(O, st)
    else AcrossTurned(O, N, canMove, st, t)
  }

  ghost predicate AcrossTurned(O: seq<VNode>, N: seq<VNode>, canMove: bool, st: State, t: State)
    requires 0 <= st.os <= st.oe < |O| == |st.owner| && 0 <= st.ns <= st.ne < |N| == |st.newCh| == |st.source|
  {
    && (SameVnode(O[st.os], N[st.ne]) ==> t == StartEnd(O, canMove, st))
    && (!SameVnode(O[st.os], N[st.ne]) && SameVnode(O[st.oe], N[st.ns]) ==> t == EndStart(O, canMove, st))
  }

  /** What addVnodes inserts in front of: the first element of the finished suffix. */
  ghost function RefElm(N: seq<VNode>, st: State): Option<Elm> {
    if st.ne + 1 >= |N| || st.ne + 1 < 0 || st.ne + 1 >= |st.newCh| then None else st.newCh[st.ne + 1].elm
  }

  lemma {:induction false} RefInList(O: seq<VNode>, N: seq<VNode>, first: Elm, canMove: bool, st: State)
    requires Inv(O, N, first, canMove, st) && forall i :: 0 <= i < |O| ==> O[i].elm.Some?
    ensures RefElm(N, st).Some? ==> RefElm(N, st).value in st.dom
    ensures var q := Elms(st.newCh[st.ne + 1..]); RefElm(N, st) == if q == [] then None else Some(q[0])
    ensures forall e :: e in st.dom ==> e < st.next
  {
    BehindRef(O, N, first, canMove, st);
    if st.ne + 1 < |N| {
      assert NewSlot(O, N, first, st, st.ne + 1);
    }
  }

  /** What is on the page, and what has been removed, when removal has come to slot i. */
  ghost predicate Removing(st: State, i: int, before: seq<Elm>, dom: seq<Elm>, removed: seq<Elm>, next: Elm,
                           canMove: bool) {
    && 0 <= st.os <= i <= st.oe + 1 <= |st.oldCh| && 0 <= st.ns <= st.ne + 1 <= |st.newCh|
    && Ordered(Elms(st.newCh[..st.ns]) + Live(st.oldCh[i..st.oe + 1]) + Elms(st.newCh[st.ne + 1..]), dom, next, canMove)
    && removed == before + Live(st.oldCh[st.os..i])
  }

  lemma {:induction false} SliceFirst(vs: seq<Option<VNode>>, i: int, hi: int)
    requires 0 <= i < hi <= |vs|
    ensures vs[i].None? ==> Live(vs[i..hi]) == Live(vs[i + 1..hi])
    ensures vs[i].Some? ==> Live(vs[i..hi]) == [E(vs[i].value)] + Live(vs[i + 1..hi])
  {
    assert vs[i..hi][1..] == vs[i + 1..hi];
    NothingAdded(Live(vs[i + 1..hi]));
  }

  lemma {:induction false} RemoveBlank(st: State, i: int, before: seq<Elm>, dom: seq<Elm>, removed: seq<Elm>,
                                       next: Elm, canMove: bool)
    requires Removing(st, i, before, dom, removed, next, canMove) && i <= st.oe && st.oldCh[i].None?
    ensures Removing(st, i + 1, before, dom, removed, next, canMove)
  {
    SliceFirst(st.oldCh, i, st.oe + 1);
    LiveSnoc(st.oldCh, st.os, i);
    NothingAdded(Live(st.oldCh[st.os..i]));
    assert Live(st.oldCh[st.os..i + 1]) == Live(st.oldCh[st.os..i]);
  }

  lemma {:induction false} RemoveNext(st: State, i: int, before: seq<Elm>, dom: seq<Elm>, removed: seq<Elm>,
                                      next: Elm, canMove: bool)
    requires Removing(st, i, before, dom, removed, next, canMove) && i <= st.oe && st.oldCh[i].Some?
    ensures var x := E(st.oldCh[i].value);
      x in dom && Removing(st, i + 1, before, Without(dom, x), removed + [x], next, canMove)
  {
    RemoveNextOrder(st, i, dom, next, canMove);
    RemovedNext(st, i, before);
  }

  /** What is on the page ... */
  lemma {:induction false} RemoveNextOrder(st: State, i: int, dom: seq<Elm>, next: Elm, canMove: bool)
    requires 0 <= i <= st.oe < |st.oldCh| && 0 <= st.ns <= st.ne + 1 <= |st.newCh| && st.oldCh[i].Some?
    requires Ordered(Elms(st.newCh[..st.ns]) + Live(st.oldCh[i..st.oe + 1]) + Elms(st.newCh[st.ne + 1..]),
                     dom, next, canMove)
    ensures var x := E(st.oldCh[i].value);
      && x in dom
      && Ordered(Elms(st.newCh[..st.ns]) + Live(st.oldCh[i + 1..st.oe + 1]) + Elms(st.newCh[st.ne + 1..]),
                 Without(dom, x), next, canMove)
  {
    SliceFirst(st.oldCh, i, st.oe + 1);
    OrderRemoved(Elms(st.newCh[..st.ns]), E(st.oldCh[i].value), Live(st.oldCh[i + 1..st.oe + 1]),
                 Elms(st.newCh[st.ne + 1..]), dom, next, canMove);
  }

  /** ... and what has been removed. */
  lemma {:induction false} RemovedNext(st: State, i: int, before: seq<Elm>)
    requires 0 <= st.os <= i < |st.oldCh| && st.oldCh[i].Some?
    ensures before + Live(st.oldCh[st.os..i]) + [E(st.oldCh[i].value)] == before + Live(st.oldCh[st.os..i + 1])
  {
    LiveSnoc(st.oldCh, st.os, i);
    Associate(before, Live(st.oldCh[st.os..i]), [E(st.oldCh[i].value)]);
  }

  /** Before the first removal, and after the last. */
  lemma {:induction false} RemovingStarts(st: State, before: seq<Elm>, canMove: bool)
    requires Cursors(st) && Ordered(Expected(st), st.dom, st.next, canMove)
    ensures Removing(st, st.os, before, st.dom, before, st.next, canMove)
  {
    assert Live(st.oldCh[st.os..st.os]) == [];
    NothingAdded(before);
  }

  lemma {:induction false} ReadyToRemove(O: seq<VNode>, N: seq<VNode>, first: Elm, canMove: bool, st: State,
                                         before: seq<Elm>)
    requires Inv(O, N, first, canMove, st)
    ensures Removing(st, st.os, before, st.dom, before, st.next, canMove)
    ensures Live(st.oldCh[st.os..st.oe + 1]) == Unclaimed(O, st.owner)
  {
    WindowUnclaimed(O, N, first, st);
    RemovingStarts(st, before, canMove);
  }

  lemma {:induction false} RemovingEnds(st: State, before: seq<Elm>, dom: seq<Elm>, removed: seq<Elm>, next: Elm,
                                        canMove: bool)
    requires Removing(st, st.oe + 1, before, dom, removed, next, canMove) && st.ns == st.ne + 1
    ensures Ordered(Elms(st.newCh), dom, next, canMove)
    ensures removed == before + Live(st.oldCh[st.os..st.oe + 1])
  {
    assert st.oldCh[st.oe + 1..st.oe + 1] == [];
    WholeList(st.newCh, st.ns);
  }

  lemma {:induction false} LiveSnoc(vs: seq<Option<VNode>>, lo: int, i: int)
    requires 0 <= lo <= i < |vs|
    ensures Live(vs[lo..i + 1]) == Live(vs[lo..i]) + (if vs[i].Some? then [E(vs[i].value)] else [])
  {
    assert vs[lo..i + 1] == vs[lo..i] + [vs[i]];
    LiveAppend(vs[lo..i], [vs[i]]);
    assert [vs[i]][1..] == [];
  }

  lemma {:induction false} WholeList(vs: seq<VNode>, k: int)
    requires 0 <= k <= |vs|
    ensures Elms(vs[..k]) + [] + Elms(vs[k..]) == Elms(vs)
  {
    ElmsAppend(vs[..k], vs[k..]);
    assert vs[..k] + vs[k..] == vs;
    assert Elms(vs[..k]) + [] == Elms(vs[..k]);
  }

  /** One turn of removeVnodes. */
  method RemoveVnode(parent: Parent, ch: Option<VNode>, i: int, ghost st: State, ghost before: seq<Elm>,
                     ghost next: Elm, ghost canMove: bool)
    requires Removing(st, i, before, parent.children, parent.removed, next, canMove)
    requires i <= st.oe && ch == st.oldCh[i]
    modifies parent`children, parent`removed
    ensures Removing(st, i + 1, before, parent.children, parent.removed, next, canMove)
  {
    if ch.Some? {
      RemoveNext(st, i, before, parent.children, parent.removed, next, canMove);
      parent.RemoveChild(E(ch.value));
    } else {
      RemoveBlank(st, i, before, parent.children, parent.removed, next, canMove);
    }
  }

  /** The loop of removeVnodes. */
  method RemoveEach(parent: Parent, vnodes: array<Option<VNode>>, startIdx: int, endIdx: int,
                    ghost st: State, ghost before: seq<Elm>, ghost next: Elm, ghost canMove: bool)
    requires Removing(st, startIdx, before, parent.children, parent.removed, next, canMove)
    requires vnodes.Length == |st.oldCh| && forall k :: 0 <= k < vnodes.Length ==> vnodes[k] == st.oldCh[k]
    requires startIdx == st.os && endIdx == st.oe
    modifies parent`children, parent`removed
    ensures Removing(st, endIdx + 1, before, parent.children, parent.removed, next, canMove)
  {
    for i := startIdx to endIdx + 1
      invariant vnodes.Length == |st.oldCh| && forall k :: 0 <= k < vnodes.Length ==> vnodes[k] == st.oldCh[k]
      invariant Removing(st, i, before, parent.children, parent.removed, next, canMove)
    {
      RemoveVnode(parent, vnodes[i], i, st, before, next, canMove);
    }
  }

  /** removeVnodes for the old nodes that are left over. */
  method RemoveVnodes(parent: Parent, vnodes: array<Option<VNode>>, startIdx: int, endIdx: int,
                      ghost O: seq<VNode>, ghost N: seq<VNode>, ghost first: Elm, ghost canMove: bool, ghost st: State)
    requires Inv(O, N, first, canMove, st) && st.ns == st.ne + 1
    requires vnodes[..] == st.oldCh && startIdx == st.os && endIdx == st.oe
    requires parent.children == st.dom && parent.next == st.next
    modifies parent`children, parent`removed
    ensures Ordered(Elms(st.newCh), parent.children, parent.next, canMove)
    ensures parent.removed == old(parent.removed) + Unclaimed(O, st.owner)
  {
    ghost var before := parent.removed;
    ReadyToRemove(O, N, first, canMove, st, before);
    RemoveEach(parent, vnodes, startIdx, endIdx, st, before, st.next, canMove);
    RemovingEnds(st, before, parent.children, parent.removed, parent.next, canMove);
  }

  class Reconciler {
    const parent: Parent
    const oldCh: array<Option<VNode>>
    const newCh: array<VNode>
    const canMove: bool
    var oldStartIdx: int
    var oldEndIdx: int
    var newStartIdx: int
    var newEndIdx: int
    var oldKeyToIdx: Option<map<int, int>>
    ghost const O: seq<VNode>
    ghost const N: seq<VNode>
    ghost const first: Elm
    ghost var source: seq<Origin>
    ghost var owner: seq<int>

    ghost function St(): State
      reads this, parent, oldCh, newCh
    {
      State(oldCh[..], newCh[..], oldStartIdx, oldEndIdx, newStartIdx, newEndIdx,
            parent.children, parent.next, source, owner)
    }

    ghost predicate Valid()
      reads this, parent, oldCh, newCh
    {
      && Inv(O, N, first, canMove, St())
      && first <= parent.next
      && UniqueKeys(N)
      && (forall i :: 0 <= i < |O| ==> O[i].elm.Some?)
      && Indexed(O, oldKeyToIdx)
      && (oldKeyToIdx.None? ==> NoBlanks(St().oldCh))
    }

    ghost predicate Thrifty()
      reads this`source, this`owner, this`oldKeyToIdx
    {
      Thrift(O, N, source, owner, oldKeyToIdx)
    }

    constructor (parent: Parent, oldCh: array<Option<VNode>>, newCh: array<VNode>, removeOnly: bool,
                 ghost O: seq<VNode>)
      requires Matches(oldCh[..], O) && parent.children == Elms(O) && AtMostOnce(Elms(O))
      requires forall e :: e in Elms(O) ==> e < parent.next
      requires UniqueKeys(newCh[..])
      ensures Valid() && this.parent == parent && this.oldCh == oldCh && this.newCh == newCh && canMove == !removeOnly
      ensures this.O == O && N == newCh[..] && first == parent.next && Thrifty()
    {
      this.parent := parent;
      this.oldCh := oldCh;
      this.newCh := newCh;
      this.canMove := !removeOnly;
      oldStartIdx, newStartIdx := 0, 0;
      oldEndIdx, newEndIdx := oldCh.Length - 1, newCh.Length - 1;
      oldKeyToIdx := None;
      this.O := O;
      N := newCh[..];
      first := parent.next;
      source := seq(newCh.Length, _ => Pending);
      owner := seq(oldCh.Length, _ => -1);
      new;
      InitialInv(O, N, canMove, St());
    }

    /** patchVnode, as far as it matters here: old node i lends its element to new node j. */
    method PatchVnode(i: int, j: int)
      requires Shape(O, N, St()) && 0 <= i < |O| && 0 <= j < |N| && oldCh[i] == Some(O[i])
      modifies newCh, this`source, this`owner
      ensures St() == Patch(O, old(St()), i, j)
      ensures !old(Thrifty()) || Thrifty()
    {
      if Thrifty() {
        PatchThrift(O, N, source, owner, oldKeyToIdx, i, j);
      }
      newCh[j] := newCh[j].(elm := oldCh[i].value.elm);
      source := source[j := From(i)];
      owner := owner[i := j];
      assert newCh[..] == old(newCh[..])[j := newCh[j]];
    }

    /** createElm for new node j in front of ref. */
    method CreateElm(j: int, ref: Option<Elm>)
      requires Shape(O, N, St()) && 0 <= j < |N|
      requires forall e :: e in parent.children ==> e < parent.next
      requires ref.Some? ==> ref.value in parent.children
      modifies newCh, this`source, parent`children, parent`next
      ensures St() == Create(old(St()), j, ref)
      ensures !(old(Thrifty()) && NobodyLeft(O, N[j], owner)) || Thrifty()
    {
      if Thrifty() && NobodyLeft(O, N[j], owner) {
        CreateThrift(O, N, source, owner, oldKeyToIdx, j);
      }
      var elm := parent.CreateElm(ref);
      newCh[j] := newCh[j].(elm := Some(elm));
      source := source[j := Created];
      assert newCh[..] == old(newCh[..])[j := newCh[j]];
    }

    /** canMove && nodeOps.insertBefore(...) */
    method Move(x: Elm, ref: Option<Elm>)
      requires canMove && ref.Some? ==> ref.value in parent.children && ref.value != x
      modifies parent`children
      ensures St() == Moved(old(St()), canMove, x, ref)
    {
      if canMove {
        parent.InsertBefore(x, ref);
      }
    }

    /** Old and new start are the same node. */
    method TakeStartStart()
      requires Valid() && oldStartIdx <= oldEndIdx && newStartIdx <= newEndIdx
      requires oldCh[oldStartIdx].Some? && SameVnode(O[oldStartIdx], N[newStartIdx])
      modifies newCh, this`source, this`owner, this`oldStartIdx, this`newStartIdx
      ensures St() == StartStart(O, old(St()))
      ensures !old(Thrifty()) || Thrifty()
    {
      ghost var st := St();
      assert OldSlot(O, N, st, oldStartIdx);
      PatchVnode(oldStartIdx, newStartIdx);
      oldStartIdx := oldStartIdx + 1;
      newStartIdx := newStartIdx + 1;
      assert St() == StartStart(O, st);
    }

    /** Old and new end are the same node. */
    method TakeEndEnd()
      requires Valid() && oldStartIdx <= oldEndIdx && newStartIdx <= newEndIdx
      requires oldCh[oldEndIdx].Some? && SameVnode(O[oldEndIdx], N[newEndIdx])
      modifies newCh, this`source, this`owner, this`oldEndIdx, this`newEndIdx
      ensures St() == EndEnd(O, old(St()))
      ensures !old(Thrifty()) || Thrifty()
      ensures oldEndIdx == old(oldEndIdx) - 1 && newEndIdx == old(newEndIdx) - 1
    {
      ghost var st := St();
      assert OldSlot(O, N, st, oldEndIdx);
      PatchVnode(oldEndIdx, newEndIdx);
      oldEndIdx := oldEndIdx - 1;
      newEndIdx := newEndIdx - 1;
      assert St() == EndEnd(O, st);
    }

    /** The node has moved right. */
    method TakeStartEnd()
      requires Valid() && oldStartIdx < oldEndIdx && newStartIdx <= newEndIdx
      requires oldCh[oldStartIdx].Some? && oldCh[oldEndIdx].Some? && SameVnode(O[oldStartIdx], N[newEndIdx])
      modifies newCh, parent`children, this`source, this`owner, this`oldStartIdx, this`newEndIdx
      ensures St() == StartEnd(O, canMove, old(St()))
      ensures !old(Thrifty()) || Thrifty()
      ensures oldStartIdx == old(oldStartIdx) + 1 && newEndIdx == old(newEndIdx) - 1
    {
      ghost var st := St();
      assert OldSlot(O, N, st, oldStartIdx) && OldSlot(O, N, st, oldEndIdx);
      if canMove {
        SiblingRef(O, N, first, st);
      }
      PatchVnode(oldStartIdx, newEndIdx);
      Move(E(oldCh[oldStartIdx].value), NextSibling(parent.children, E(oldCh[oldEndIdx].value)));
      oldStartIdx := oldStartIdx + 1;
      newEndIdx := newEndIdx - 1;
      assert St() == StartEnd(O, canMove, st);
    }

    /** The node has moved left. */
    method TakeEndStart()
      requires Valid() && oldStartIdx < oldEndIdx && newStartIdx <= newEndIdx
      requires oldCh[oldStartIdx].Some? && oldCh[oldEndIdx].Some? && SameVnode(O[oldEndIdx], N[newStartIdx])
      modifies newCh, parent`children, this`source, this`owner, this`oldEndIdx, this`newStartIdx
      ensures St() == EndStart(O, canMove, old(St()))
      ensures !old(Thrifty()) || Thrifty()
      ensures oldEndIdx == old(oldEndIdx) - 1 && newStartIdx == old(newStartIdx) + 1
    {
      ghost var st := St();
      assert OldSlot(O, N, st, oldStartIdx) && OldSlot(O, N, st, oldEndIdx);
      StartRef(O, N, first, canMove, st);
      OtherThanStart(st, oldEndIdx);
      PatchVnode(oldEndIdx, newStartIdx);
      Move(E(oldCh[oldEndIdx].value), Some(E(oldCh[oldStartIdx].value)));
      oldEndIdx := oldEndIdx - 1;
      newStartIdx := newStartIdx + 1;
      assert St() == EndStart(O, canMove, st);
    }

    /** The node has been found between the cursors; its slot goes blank. */
    method TakeInside(idxInOld: int)
      requires Valid() && oldStartIdx < idxInOld <= oldEndIdx && newStartIdx <= newEndIdx && oldKeyToIdx.Some?
      requires oldCh[oldStartIdx].Some? && oldCh[idxInOld].Some? && SameVnode(O[idxInOld], N[newStartIdx])
      modifies newCh, oldCh, parent`children, this`source, this`owner, this`newStartIdx
      ensures St() == InsideStart(O, canMove, old(St()), idxInOld)
      ensures !old(Thrifty()) || Thrifty()
    {
      ghost var st := St();
      var vnodeToMove := oldCh[idxInOld].value;
      assert OldSlot(O, N, st, oldStartIdx) && OldSlot(O, N, st, idxInOld);
      StartRef(O, N, first, canMove, st);
      OtherThanStart(st, idxInOld);
      PatchVnode(idxInOld, newStartIdx);
      oldCh[idxInOld] := None;
      assert oldCh[..] == st.oldCh[idxInOld := None];
      Move(E(vnodeToMove), Some(E(oldCh[oldStartIdx].value)));
      newStartIdx := newStartIdx + 1;
      assert St() == InsideStart(O, canMove, st, idxInOld);
    }

    /** A new element in front of the old start. */
    method CreateAtStart()
      requires Valid() && oldStartIdx <= oldEndIdx && newStartIdx <= newEndIdx && oldCh[oldStartIdx].Some?
      modifies newCh, parent`children, parent`next, this`source, this`newStartIdx
      ensures St() == NewStart(old(St()), E(O[old(oldStartIdx)]))
      ensures !(old(Thrifty()) && NobodyLeft(O, N[old(newStartIdx)], owner)) || Thrifty()
    {
      ghost var st := St();
      assert OldSlot(O, N, st, oldStartIdx);
      StartRef(O, N, first, canMove, st);
      CreateElm(newStartIdx, Some(E(oldCh[oldStartIdx].value)));
      newStartIdx := newStartIdx + 1;
      assert St() == NewStart(st, E(O[oldStartIdx]));
    }

    /** Builds the index over the keys of the window, the first time it is needed. */
    method BuildIndex()
      requires Valid() && oldStartIdx <= oldEndIdx && newStartIdx <= newEndIdx
      modifies this`oldKeyToIdx
      ensures Valid() && oldKeyToIdx.Some? && St() == old(St())
      ensures !old(Thrifty()) || Thrifty()
    {
      if oldKeyToIdx.None? {
        ghost var st := St();
        var m := CreateKeyToOldIdx(oldCh, oldStartIdx, oldEndIdx);
        oldKeyToIdx := Some(m);
        forall k | k in m
          ensures HasKey(O, m[k], k)
        {
          assert OldSlot(O, N, st, m[k]);
        }
        forall i | 0 <= i < |O| && owner[i] < 0 && O[i].key.Some?
          ensures O[i].key.value in m
        {
          assert OldSlot(O, N, st, i);
        }
      }
    }

    /** The old node that may do for the new start: by key, or by looking through the window. */
    method LookUp() returns (idxInOld: Option<int>)
      requires Valid() && Thrifty() && oldStartIdx <= oldEndIdx && newStartIdx <= newEndIdx && oldKeyToIdx.Some?
      requires !SameVnode(O[oldEndIdx], N[newStartIdx])
      ensures idxInOld.Some? ==> InWindow(St(), idxInOld.value) && oldCh[idxInOld.value] == Some(O[idxInOld.value])
      ensures idxInOld.None? ==> NobodyLeft(O, N[newStartIdx], owner)
      ensures idxInOld.Some? && !SameVnode(O[idxInOld.value], N[newStartIdx]) ==> NobodyLeft(O, N[newStartIdx], owner)
    {
      ghost var st := St();
      assert NewSlot(O, N, first, st, newStartIdx);
      var key := newCh[newStartIdx].key;
      if key.Some? {
        NobodyByKey(O, N, first, st, oldKeyToIdx.value, newStartIdx);
        if key.value in oldKeyToIdx.value {
          var i := oldKeyToIdx.value[key.value];
          assert HasKey(O, i, key.value);
          LookupIsFree(O, N, first, st, i, newStartIdx);
          idxInOld := Some(i);
        } else {
          idxInOld := None;
        }
      } else {
        idxInOld := FindIdxInOld(newCh[newStartIdx], oldCh, oldStartIdx, oldEndIdx);
        NobodyByLooking(O, N, first, st, newStartIdx, idxInOld);
      }
      if idxInOld.Some? {
        assert OldSlot(O, N, st, idxInOld.value);
      }
    }

    /** How much the loop still has to look at. */
    ghost function Todo(): int
      reads this
    {
      (oldEndIdx - oldStartIdx) + (newEndIdx - newStartIdx)
    }

    method KeepCreateAtStart()
      requires Valid() && oldStartIdx <= oldEndIdx && newStartIdx <= newEndIdx && oldCh[oldStartIdx].Some?
      modifies newCh, parent`children, parent`next, this`source, this`newStartIdx
      ensures Valid() && Todo() == old(Todo()) - 1
      ensures !(old(Thrifty()) && NobodyLeft(O, N[old(newStartIdx)], owner)) || Thrifty()
    {
      ghost var st := St();
      CreateAtStart();
      KeepNewStart(O, N, first, canMove, st);
    }

    method KeepTakeInside(idxInOld: int)
      requires Valid() && oldStartIdx < idxInOld <= oldEndIdx && newStartIdx <= newEndIdx && oldKeyToIdx.Some?
      requires oldCh[oldStartIdx].Some? && oldCh[idxInOld].Some? && SameVnode(O[idxInOld], N[newStartIdx])
      modifies newCh, oldCh, parent`children, this`source, this`owner, this`newStartIdx
      ensures Valid() && Todo() == old(Todo()) - 1
      ensures !old(Thrifty()) || Thrifty()
    {
      KeepInsideStart(O, N, first, canMove, St(), idxInOld);
      TakeInside(idxInOld);
    }

    /** Takes the node that was looked up, unless it turns out to be another element with the same key. */
    method TakeFound(idxInOld: int)
      requires Valid() && oldStartIdx <= oldEndIdx && newStartIdx <= newEndIdx && oldKeyToIdx.Some?
      requires oldCh[oldStartIdx].Some? && InWindow(St(), idxInOld)
      requires !SameVnode(O[oldStartIdx], N[newStartIdx])
      requires SameVnode(O[idxInOld], N[newStartIdx]) || NobodyLeft(O, N[newStartIdx], owner)
      modifies newCh, oldCh, parent`children, parent`next, this`source, this`owner, this`newStartIdx
      ensures Valid() && Todo() == old(Todo()) - 1
      ensures !old(Thrifty()) || Thrifty()
    {
      var same := Compare(idxInOld, newStartIdx);
      if same {
        KeepTakeInside(idxInOld);
      } else {
        KeepCreateAtStart();
      }
    }

    /** The turn of the loop when neither end matches any other. */
    method TurnInside()
      requires Valid() && oldStartIdx <= oldEndIdx && newStartIdx <= newEndIdx
      requires oldCh[oldStartIdx].Some? && oldCh[oldEndIdx].Some?
      requires !SameVnode(O[oldStartIdx], N[newStartIdx]) && !SameVnode(O[oldEndIdx], N[newStartIdx])
      requires Thrifty()
      modifies newCh, oldCh, parent`children, parent`next, this`oldKeyToIdx, this`source, this`owner, this`newStartIdx
      ensures Valid() && Todo() == old(Todo()) - 1
      ensures Thrifty()
    {
      BuildIndex();
      var idxInOld := LookUp();
      if idxInOld.None? {
        KeepCreateAtStart();
      } else {
        TakeFound(idxInOld.value);
      }
    }

    /** sameVnode on an old node of the window and a new node that is still pending. */
    method Compare(i: int, j: int) returns (same: bool)
      requires Valid() && 0 <= i < |O| && oldCh[i].Some? && newStartIdx <= j <= newEndIdx
      ensures same == SameVnode(O[i], N[j])
    {
      assert OldSlot(O, N, St(), i) && NewSlot(O, N, first, St(), j);
      same := SameVnode(oldCh[i].value, newCh[j]);
    }

    method KeepTakeStartStart()
      requires Valid() && oldStartIdx <= oldEndIdx && newStartIdx <= newEndIdx
      requires oldCh[oldStartIdx].Some? && SameVnode(O[oldStartIdx], N[newStartIdx])
      modifies newCh, this`source, this`owner, this`oldStartIdx, this`newStartIdx
      ensures Valid() && Todo() == old(Todo()) - 2
      ensures !old(Thrifty()) || Thrifty()
      ensures St() == StartStart(O, old(St()))
    {
      KeepStartStart(O, N, first, canMove, St());
      TakeStartStart();
    }

    method KeepTakeEndEnd()
      requires Valid() && oldStartIdx <= oldEndIdx && newStartIdx <= newEndIdx
      requires oldCh[oldEndIdx].Some? && SameVnode(O[oldEndIdx], N[newEndIdx])
      modifies newCh, this`source, this`owner, this`oldEndIdx, this`newEndIdx
      ensures Valid() && Todo() == old(Todo()) - 2
      ensures !old(Thrifty()) || Thrifty()
      ensures St() == EndEnd(O, old(St()))
    {
      ghost var st := St();
      TakeEndEnd();
      KeepEndEnd(O, N, first, canMove, st);
    }

    method KeepTakeStartEnd()
      requires Valid() && oldStartIdx < oldEndIdx && newStartIdx <= newEndIdx
      requires oldCh[oldStartIdx].Some? && oldCh[oldEndIdx].Some? && SameVnode(O[oldStartIdx], N[newEndIdx])
      modifies newCh, parent`children, this`source, this`owner, this`oldStartIdx, this`newEndIdx
      ensures Valid() && Todo() == old(Todo()) - 2
      ensures !old(Thrifty()) || Thrifty()
      ensures St() == StartEnd(O, canMove, old(St()))
    {
      ghost var st := St();
      TakeStartEnd();
      KeepStartEnd(O, N, first, canMove, st);
    }

    method KeepTakeEndStart()
      requires Valid() && oldStartIdx < oldEndIdx && newStartIdx <= newEndIdx
      requires oldCh[oldStartIdx].Some? && oldCh[oldEndIdx].Some? && SameVnode(O[oldEndIdx], N[newStartIdx])
      modifies newCh, parent`children, this`source, this`owner, this`oldEndIdx, this`newStartIdx
      ensures Valid() && Todo() == old(Todo()) - 2
      ensures !old(Thrifty()) || Thrifty()
      ensures St() == EndStart(O, canMove, old(St()))
    {
      ghost var st := St();
      TakeEndStart();
      KeepEndStart(O, N, first, canMove, st);
    }

    /** A vnode that has been moved left leaves a blank behind. */
    method SkipStart()
      requires Valid() && oldStartIdx <= oldEndIdx && oldCh[oldStartIdx].None?
      modifies this`oldStartIdx
      ensures Valid() && Todo() == old(Todo()) - 1
    {
      ghost var st := St();
      KeepSkipStart(O, N, first, canMove, st);
      oldStartIdx := oldStartIdx + 1;
      assert St() == st.(os := st.os + 1);
    }

    method SkipEnd()
      requires Valid() && oldStartIdx <= oldEndIdx && oldCh[oldEndIdx].None?
      modifies this`oldEndIdx
      ensures Valid() && Todo() == old(Todo()) - 1
    {
      ghost var st := St();
      KeepSkipEnd(O, N, first, canMove, st);
      oldEndIdx := oldEndIdx - 1;
      assert St() == st.(oe := st.oe - 1);
    }

    /** The comparisons of one turn, when neither end of the window is blank: ends in place first. */
    method TurnEnds()
      requires Valid() && oldStartIdx <= oldEndIdx && newStartIdx <= newEndIdx
      requires oldCh[oldStartIdx].Some? && oldCh[oldEndIdx].Some? && Thrifty()
      modifies newCh, oldCh, parent`children, parent`next, this`oldKeyToIdx, this`source, this`owner,
               this`oldStartIdx, this`oldEndIdx, this`newStartIdx, this`newEndIdx
      ensures Valid() && Todo() < old(Todo())
      ensures Thrifty()
      ensures EndsTurned(O, N, canMove, old(St()), St())
    {
      var same := Compare(oldStartIdx, newStartIdx);
      if same {
        KeepTakeStartStart();
        return;
      }
      same := Compare(oldEndIdx, newEndIdx);
      if same {
        KeepTakeEndEnd();
        return;
      }
      TurnAcross();
    }

    /** Then ends that have changed sides, then the others. */
    method TurnAcross()
      requires Valid() && oldStartIdx <= oldEndIdx && newStartIdx <= newEndIdx
      requires oldCh[oldStartIdx].Some? && oldCh[oldEndIdx].Some? && Thrifty()
      requires !SameVnode(O[oldStartIdx], N[newStartIdx]) && !SameVnode(O[oldEndIdx], N[newEndIdx])
      modifies newCh, oldCh, parent`children, parent`next, this`oldKeyToIdx, this`source, this`owner,
               this`oldStartIdx, this`oldEndIdx, this`newStartIdx, this`newEndIdx
      ensures Valid() && Todo() < old(Todo())
      ensures Thrifty()
      ensures AcrossTurned(O, N, canMove, old(St()), St())
    {
      var same := Compare(oldStartIdx, newEndIdx);
      if same {
        KeepTakeStartEnd();
        return;
      }
      same := Compare(oldEndIdx, newStartIdx);
      if same {
        KeepTakeEndStart();
        return;
      }
      TurnInside();
    }

    /** The loop: until either list is used up. */
    method Loop()
      requires Valid() && Thrifty()
      modifies newCh, oldCh, parent`children, parent`next, this`oldKeyToIdx, this`source, this`owner,
               this`oldStartIdx, this`oldEndIdx, this`newStartIdx, this`newEndIdx
      ensures Valid() && (oldStartIdx > oldEndIdx || newStartIdx > newEndIdx)
      ensures Thrifty()
    {
      while oldStartIdx <= oldEndIdx && newStartIdx <= newEndIdx
        invariant Valid()
        invariant Thrifty()
        decreases Todo()
      {
        if oldCh[oldStartIdx].None? {
          SkipStart();
        } else if oldCh[oldEndIdx].None? {
          SkipEnd();
        } else {
          TurnEnds();
        }
      }
    }

    /** A new element in front of the finished suffix. */
    method CreateBehind(refElm: Option<Elm>)
      requires Shape(O, N, St()) && newStartIdx <= newEndIdx
      requires forall e :: e in parent.children ==> e < parent.next
      requires refElm.Some? ==> refElm.value in parent.children
      modifies newCh, parent`children, parent`next, this`source, this`newStartIdx
      ensures St() == NewBehind(old(St()), refElm)
      ensures !(old(Thrifty()) && NobodyLeft(O, N[old(newStartIdx)], owner)) || Thrifty()
    {
      ghost var st := St();
      CreateElm(newStartIdx, refElm);
      newStartIdx := newStartIdx + 1;
      assert St() == NewBehind(st, refElm);
    }

    /** One turn of addVnodes. */
    method AddVnode(refElm: Option<Elm>)
      requires Valid() && oldStartIdx == oldEndIdx + 1 && newStartIdx <= newEndIdx
      requires refElm == RefElm(N, St())
      modifies newCh, parent`children, parent`next, this`source, this`newStartIdx
      ensures Valid() && St() == NewBehind(old(St()), refElm)
      ensures !old(Thrifty()) || Thrifty()
    {
      AddKeeps(O, N, first, canMove, St());
      AllTaken(O, N, first, St(), newStartIdx);
      CreateBehind(refElm);
    }

    /** addVnodes for the new nodes that are still pending. */
    method AddVnodes()
      requires Valid() && oldStartIdx == oldEndIdx + 1
      modifies newCh, parent`children, parent`next, this`source, this`newStartIdx
      ensures Valid() && newStartIdx == newEndIdx + 1
      ensures !old(Thrifty()) || Thrifty()
    {
      var refElm := if newEndIdx + 1 >= newCh.Length then None else newCh[newEndIdx + 1].elm;
      while newStartIdx <= newEndIdx
        invariant Valid()
        invariant refElm == RefElm(N, St())
        invariant !old(Thrifty()) || Thrifty()
      {
        RefStays(N, St(), refElm);
        AddVnode(refElm);
      }
    }

    /** The old nodes are used up. */
    method FinishNew()
      requires Valid() && oldStartIdx == oldEndIdx + 1
      modifies newCh, parent`children, parent`next, this`source, this`newStartIdx
      ensures Ordered(Elms(newCh[..]), parent.children, parent.next, canMove)
      ensures Conserved(O, N, newCh[..], source, owner, first, parent.next)
      ensures Unclaimed(O, owner) == []
      ensures !old(Thrifty()) || Thrifty()
    {
      AddVnodes();
      NothingLeft(O, N, first, canMove, St());
    }

    /** The new nodes are used up. */
    method FinishOld()
      requires Valid() && newStartIdx == newEndIdx + 1
      modifies parent`children, parent`removed
      ensures Ordered(Elms(newCh[..]), parent.children, parent.next, canMove)
      ensures parent.removed == old(parent.removed) + Unclaimed(O, owner)
    {
      RemoveVnodes(parent, oldCh, oldStartIdx, oldEndIdx, O, N, first, canMove, St());
    }

    /** Whatever is left over when the loop has ended. */
    method Finish()
      requires Valid() && Thrifty() && (oldStartIdx > oldEndIdx || newStartIdx > newEndIdx)
      modifies newCh, parent, this`source, this`newStartIdx
      ensures Ordered(Elms(newCh[..]), parent.children, parent.next, canMove)
      ensures Conserved(O, N, newCh[..], source, owner, first, parent.next)
      ensures parent.removed == old(parent.removed) + Unclaimed(O, owner)
      ensures Thrifty()
    {
      if oldStartIdx > oldEndIdx {
        FinishNew();
        NothingAdded(parent.removed);
      } else {
        AllSettled(O, N, first, St());
        FinishOld();
      }
    }

    method Run() returns (ghost source': seq<Origin>, ghost owner': seq<int>)
      requires Valid() && Thrifty()
      modifies this, parent, oldCh, newCh
      ensures canMove ==> parent.children == Elms(newCh[..])
      ensures multiset(parent.children) == multiset(Elms(newCh[..])) && AtMostOnce(Elms(newCh[..]))
      ensures Conserved(O, N, newCh[..], source', owner', first, parent.next)
      ensures parent.removed == old(parent.removed) + Unclaimed(O, owner')
      ensures NothingWasted(O, N, source', owner')
    {
      Loop();
      Finish();
      source', owner' := source, owner;
      OrderMeans(Elms(newCh[..]), parent.children, parent.next, canMove);
    }
  }

  lemma {:induction false} AddKeeps(O: seq<VNode>, N: seq<VNode>, first: Elm, canMove: bool, st: State)
    requires Inv(O, N, first, canMove, st) && forall i :: 0 <= i < |O| ==> O[i].elm.Some?
    requires st.os == st.oe + 1 && st.ns <= st.ne && first <= st.next
    ensures var ref := RefElm(N, st);
      && Inv(O, N, first, canMove, NewBehind(st, ref))
      && (ref.Some? ==> ref.value in st.dom) && forall e :: e in st.dom ==> e < st.next
  {
    RefInList(O, N, first, canMove, st);
    KeepNewBehind(O, N, first, canMove, st, RefElm(N, st));
  }

  lemma {:induction false} RefStays(N: seq<VNode>, st: State, ref: Option<Elm>)
    requires 0 <= st.ns <= st.ne < |st.newCh| == |st.source|
    ensures RefElm(N, NewBehind(st, ref)) == RefElm(N, st)
  {
  }

  lemma {:induction false} NothingExpected(st: State)
    requires Cursors(st) && st.os == st.oe + 1 && st.ns == st.ne + 1
    ensures Expected(st) == Elms(st.newCh) && Live(st.oldCh[st.os..st.oe + 1]) == []
  {
    assert st.oldCh[st.os..st.oe + 1] == [];
    WholeList(st.newCh, st.ns);
  }

  lemma {:induction false} NothingLeft(O: seq<VNode>, N: seq<VNode>, first: Elm, canMove: bool, st: State)
    requires Inv(O, N, first, canMove, st) && st.os == st.oe + 1 && st.ns == st.ne + 1
    ensures Ordered(Elms(st.newCh), st.dom, st.next, canMove)
    ensures Conserved(O, N, st.newCh, st.source, st.owner, first, st.next)
    ensures Unclaimed(O, st.owner) == []
  {
    AllSettled(O, N, first, st);
    WindowUnclaimed(O, N, first, st);
    NothingExpected(st);
  }

  /** All slots are filled with these nodes, and each of them has an element. */
  ghost predicate Matches(slots: seq<Option<VNode>>, O: seq<VNode>) {
    |slots| == |O| && forall i :: 0 <= i < |O| ==> slots[i] == Some(O[i]) && O[i].elm.Some?
  }

  lemma {:induction false} InitiallyLive(slots: seq<Option<VNode>>, O: seq<VNode>)
    requires Matches(slots, O)
    ensures Live(slots) == Elms(O)
  {
    if O != [] {
      assert Matches(slots[1..], O[1..]);
      InitiallyLive(slots[1..], O[1..]);
    }
  }

  lemma {:induction false} InitialInv(O: seq<VNode>, N: seq<VNode>, canMove: bool, st: State)
    requires Matches(st.oldCh, O) && st.newCh == N && st.dom == Elms(O) && AtMostOnce(Elms(O))
    requires forall e :: e in Elms(O) ==> e < st.next
    requires st.os == 0 && st.oe == |O| - 1 && st.ns == 0 && st.ne == |N| - 1
    requires st.source == seq(|N|, _ => Pending) && st.owner == seq(|O|, _ => -1)
    ensures Inv(O, N, st.next, canMove, st)
  {
    InitiallyLive(st.oldCh, O);
    assert st.oldCh[0..|O|] == st.oldCh && N[..0] == [] && N[|N|..] == [];
    ExpectedParts(st, [], Elms(O), []);
    NothingAdded(Elms(O));
  }

  /** The whole of updateChildren. Afterwards the parent's children are the elements of the new nodes,
      in order if moves are allowed; nothing was lost, doubled, or rendered twice, and what was
      removed, each once, is what no new node has taken. */
  method UpdateChildren(parent: Parent, oldCh: array<Option<VNode>>, newCh: array<VNode>, removeOnly: bool,
                        ghost O: seq<VNode>)
    returns (ghost source: seq<Origin>, ghost owner: seq<int>)
    requires Matches(oldCh[..], O) && parent.children == Elms(O) && AtMostOnce(Elms(O))
    requires forall e :: e in Elms(O) ==> e < parent.next
    requires UniqueKeys(newCh[..])
    modifies parent, oldCh, newCh
    ensures !removeOnly ==> parent.children == Elms(newCh[..])
    ensures multiset(parent.children) == multiset(Elms(newCh[..])) && AtMostOnce(Elms(newCh[..]))
    ensures Conserved(O, old(newCh[..]), newCh[..], source, owner, old(parent.next), parent.next)
    ensures parent.removed == old(parent.removed) + Unclaimed(O, owner)
    ensures NothingWasted(O, old(newCh[..]), source, owner)
    ensures UniqueKeys(O) ==> AllKeyedReused(O, old(newCh[..]), source)
  {
    var r := new Reconciler(parent, oldCh, newCh, removeOnly, O);
    source, owner := r.Run();
    if UniqueKeys(O) {
      KeyedReused(O, r.N, newCh[..], source, owner, r.first, parent.next);
    }
  }

  lemma {:induction false} OrderMeans(expected: seq<Elm>, dom: seq<Elm>, next: Elm, canMove: bool)
    requires Ordered(expected, dom, next, canMove)
    ensures (canMove ==> dom == expected) && multiset(dom) == multiset(expected) && AtMostOnce(expected)
  {
  }
}
