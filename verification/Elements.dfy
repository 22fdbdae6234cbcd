/** The child list of a DOM node and the operations that edit it. */
module Elements {
  import opened Sequences

  type Elm = nat

  function Without(s: seq<Elm>, x: Elm): seq<Elm> {
    if s == [] then [] else (if s[0] == x then [] else [s[0]]) + Without(s[1..], x)
  }

  /** s with x in front of the first occurrence of r. */
  function Before(s: seq<Elm>, x: Elm, r: Elm): seq<Elm> {
    if s == [] then [x]
    else if s[0] == r then [x] + s
    else [s[0]] + Before(s[1..], x, r)
  }

  /** insertBefore: x leaves its place and goes in front of ref, or to the end. */
  function Inserted(s: seq<Elm>, x: Elm, ref: Option<Elm>): seq<Elm> {
    match ref
    case None => Without(s, x) + [x]
    case Some(r) => Before(Without(s, x), x, r)
  }

  /** nextSibling */
  function NextSibling(s: seq<Elm>, x: Elm): Option<Elm> {
    if s == [] then None
    else if s[0] == x then (if |s| > 1 then Some(s[1]) else None)
    else NextSibling(s[1..], x)
  }

  /** Without duplicates, told by counting (see OnceIsNoDup). */
  ghost predicate AtMostOnce(s: seq<Elm>) {
    forall e :: multiset(s)[e] <= 1
  }

  lemma {:induction false} OnceIsNoDup(s: seq<Elm>)
    ensures AtMostOnce(s) <==> NoDup(s)
  {
    if s != [] {
      var n := |s| - 1;
      assert s == s[..n] + [s[n]];
      OnceIsNoDup(s[..n]);
      assert multiset(s) == multiset(s[..n]) + multiset{s[n]};
      if NoDup(s) {
        assert s[n] !in s[..n];
        CountIn(s[..n], s[n]);
        forall e ensures multiset(s)[e] <= 1 { assert multiset(s[..n])[e] <= 1; }
      }
      if AtMostOnce(s) {
        forall e ensures multiset(s[..n])[e] <= 1 { assert multiset(s)[e] <= 1; }
        assert multiset(s)[s[n]] <= 1;
        CountIn(s[..n], s[n]);
      }
    }
  }

  // ---- Algebra -------------------------------------------------------------------------------

  lemma {:induction false} WithoutAppend(a: seq<Elm>, b: seq<Elm>, x: Elm)
    ensures Without(a + b, x) == Without(a, x) + Without(b, x)
  {
    if a == [] {
      assert a + b == b;
    } else {
      assert (a + b)[1..] == a[1..] + b;
      WithoutAppend(a[1..], b, x);
    }
  }

  lemma {:induction false} WithoutAbsent(s: seq<Elm>, x: Elm)
    requires x !in s
    ensures Without(s, x) == s
  {
    if s != [] {
      WithoutAbsent(s[1..], x);
    }
  }

  /** Taking out the only occurrence. */
  lemma {:induction false} WithoutMiddle(a: seq<Elm>, x: Elm, b: seq<Elm>)
    requires x !in a && x !in b
    ensures Without(a + [x] + b, x) == a + b
  {
    WithoutAppend(a + [x], b, x);
    WithoutLast(a, x);
    WithoutAbsent(b, x);
  }

  lemma {:induction false} WithoutLast(a: seq<Elm>, x: Elm)
    requires x !in a
    ensures Without(a + [x], x) == a
  {
    WithoutAppend(a, [x], x);
    WithoutAbsent(a, x);
    assert [x][1..] == [];
  }

  lemma {:induction false} CountFirst(s: seq<Elm>)
    requires s != []
    ensures multiset(s) == multiset{s[0]} + multiset(s[1..])
  {
    assert s == [s[0]] + s[1..];
  }

  lemma {:induction false} WithoutCount(s: seq<Elm>, x: Elm)
    ensures multiset(Without(s, x)) == multiset(s)[x := 0]
  {
    if s != [] {
      WithoutCount(s[1..], x);
      CountFirst(s);
    }
  }

  lemma {:induction false} BeforeCount(s: seq<Elm>, x: Elm, r: Elm)
    ensures multiset(Before(s, x, r)) == multiset(s) + multiset{x}
  {
    if s != [] {
      BeforeCount(s[1..], x, r);
      CountFirst(s);
    }
  }

  lemma {:induction false} InsertedCount(s: seq<Elm>, x: Elm, ref: Option<Elm>)
    ensures multiset(Inserted(s, x, ref)) == multiset(s)[x := 1]
  {
    WithoutCount(s, x);
    if ref.Some? {
      BeforeCount(Without(s, x), x, ref.value);
    }
  }

  lemma {:induction false} BeforeMiddle(a: seq<Elm>, r: Elm, b: seq<Elm>, x: Elm)
    requires r !in a
    ensures Before(a + [r] + b, x, r) == a + [x] + ([r] + b)
  {
    if a == [] {
      assert a + [r] + b == [r] + b;
    } else {
      assert (a + [r] + b)[1..] == a[1..] + [r] + b;
      BeforeMiddle(a[1..], r, b, x);
    }
  }

  lemma {:induction false} NextOf(a: seq<Elm>, x: Elm, b: seq<Elm>)
    requires x !in a
    ensures NextSibling(a + [x] + b, x) == if b == [] then None else Some(b[0])
  {
    if a == [] {
      assert a + [x] + b == [x] + b;
    } else {
      assert (a + [x] + b)[1..] == a[1..] + [x] + b;
      NextOf(a[1..], x, b);
    }
  }

  lemma {:induction false} CountIn(s: seq<Elm>, x: Elm)
    ensures x in s <==> multiset(s)[x] > 0
  {
  }

  /** An element that is in one part of a list without repetitions is in no other. */
  lemma {:induction false} Apart(a: seq<Elm>, x: Elm, b: seq<Elm>)
    requires AtMostOnce(a + [x] + b)
    ensures x !in a && x !in b
  {
    assert multiset(a + [x] + b) == multiset(a) + multiset{x} + multiset(b);
    assert multiset(a + [x] + b)[x] <= 1;
    CountIn(a, x);
    CountIn(b, x);
  }

  /** x, wherever it was, or new, goes in front of r. */
  lemma {:induction false} MoveBefore(s: seq<Elm>, a: seq<Elm>, r: Elm, b: seq<Elm>, x: Elm)
    requires AtMostOnce(s) && x != r
    requires Without(s, x) == a + ([r] + b)
    ensures Inserted(s, x, Some(r)) == a + [x] + ([r] + b)
  {
    WithoutOnce(s, x);
    assert a + ([r] + b) == a + [r] + b;
    Apart(a, r, b);
    BeforeMiddle(a, r, b, x);
  }

  lemma {:induction false} FirstOf(q: seq<Elm>)
    requires q != []
    ensures [q[0]] + q[1..] == q
  {
  }

  /** Without x, and then x in front of whatever followed y. */
  lemma {:induction false} InsertBehind(s: seq<Elm>, x: Elm, t: seq<Elm>, q: seq<Elm>, ref: Option<Elm>)
    requires Without(s, x) == t + q && AtMostOnce(t + q)
    requires ref == if q == [] then None else Some(q[0])
    ensures Inserted(s, x, ref) == t + ([x] + q)
  {
    if q == [] {
      assert t + q == t;
    } else {
      FirstOf(q);
      assert t + q == t + [q[0]] + q[1..];
      Apart(t, q[0], q[1..]);
      BeforeMiddle(t, q[0], q[1..], x);
      assert t + [x] + q == t + ([x] + q);
    }
  }

  lemma {:induction false} RegroupStretch(p: seq<Elm>, x: Elm, m: seq<Elm>, y: Elm, q: seq<Elm>)
    ensures p + ([x] + (m + [y])) + q == (p + [x] + m) + [y] + q == p + [x] + (m + [y] + q)
    ensures p + (m + [y] + q) == p + (m + [y]) + q
  {
  }

  /** The first of a stretch goes behind its last. */
  lemma {:induction false} MoveBehind(p: seq<Elm>, x: Elm, m: seq<Elm>, y: Elm, q: seq<Elm>)
    requires AtMostOnce(p + ([x] + (m + [y])) + q)
    ensures var s := p + ([x] + (m + [y])) + q;
      Inserted(s, x, NextSibling(s, y)) == p + (m + [y]) + ([x] + q)
  {
    var s := p + ([x] + (m + [y])) + q;
    var t := p + (m + [y]);
    RegroupStretch(p, x, m, y, q);
    Apart(p + [x] + m, y, q);
    NextOf(p + [x] + m, y, q);
    Apart(p, x, m + [y] + q);
    WithoutMiddle(p, x, m + [y] + q);
    WithoutOnce(s, x);
    InsertBehind(s, x, t, q, NextSibling(s, y));
  }

  lemma {:induction false} WithoutOnce(s: seq<Elm>, x: Elm)
    requires AtMostOnce(s)
    ensures AtMostOnce(Without(s, x))
  {
    WithoutCount(s, x);
    forall e ensures multiset(Without(s, x))[e] <= 1 {
      assert multiset(s)[e] <= 1;
    }
  }

  // ---- The node ------------------------------------------------------------------------------

  class Parent {
    var children: seq<Elm>
    var next: Elm                // elements from here on have not been created yet
    ghost var removed: seq<Elm>  // all removals so far

    /** nodeOps.insertBefore */
    method InsertBefore(x: Elm, ref: Option<Elm>)
      requires ref.Some? ==> ref.value in children && ref.value != x
      modifies this`children
      ensures children == Inserted(old(children), x, ref)
    {
      children := Inserted(children, x, ref);
    }

    /** createElm: a new element, inserted in front of ref. */
    method CreateElm(ref: Option<Elm>) returns (x: Elm)
      requires forall e :: e in children ==> e < next
      requires ref.Some? ==> ref.value in children
      modifies this`children, this`next
      ensures x == old(next) && next == old(next) + 1
      ensures children == Inserted(old(children), x, ref)
    {
      x := next;
      next := next + 1;
      children := Inserted(children, x, ref);
    }

    /** removeNode */
    method RemoveChild(x: Elm)
      requires x in children
      modifies this`children, this`removed
      ensures children == Without(old(children), x) && removed == old(removed) + [x]
    {
      children := Without(children, x);
      removed := removed + [x];
    }
  }
}
