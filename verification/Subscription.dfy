/** The inbounds that a subscription serves, in the order of its list of ids. */
module Subscription {
  import opened Sequences

  datatype Result<T> = Ok(value: T) | InvalidId(id: int)

  datatype Protocol = VMess | VLESS | Trojan | Shadowsocks | Other(name: string)

  datatype Inbound = Inbound(id: int, enable: bool, protocol: Protocol)

  // ---- Normalising the ids -------------------------------------------------------------------

  function FirstOccurrences(ids: seq<int>): (r: seq<int>)
    ensures forall x :: x in r <==> x in ids
  {
    if ids == [] then []
    else
      var n := |ids| - 1;
      assert ids == ids[..n] + [ids[n]];
      FirstOccurrences(ids[..n]) + (if ids[n] in ids[..n] then [] else [ids[n]])
  }

  function IndexOf(ids: seq<int>, x: int): (i: nat)
    requires x in ids
    ensures i < |ids| && ids[i] == x && forall j :: 0 <= j < i ==> ids[j] != x
  {
    if ids[0] == x then 0 else assert ids == [ids[0]] + ids[1..]; 1 + IndexOf(ids[1..], x)
  }

  /** r has the ids once each, in the order in which they first occur. */
  ghost predicate Deduplicates(r: seq<int>, ids: seq<int>) {
    (forall x :: x in r <==> x in ids)
    && forall i, j :: 0 <= i < j < |r| ==> r[i] in ids && r[j] in ids && IndexOf(ids, r[i]) < IndexOf(ids, r[j])
  }

  lemma {:induction false} IndexAppend(a: seq<int>, b: seq<int>, x: int)
    requires x in a + b
    ensures x in a ==> IndexOf(a + b, x) == IndexOf(a, x)
    ensures x !in a ==> IndexOf(a + b, x) >= |a|
  {
    var i := IndexOf(a + b, x);
    assert forall j :: 0 <= j < |a| ==> (a + b)[j] == a[j];
    if x in a {
      var k := IndexOf(a, x);
      assert !(i < k) && !(k < i);
    }
  }

  lemma {:induction false} FirstOccurrencesDeduplicate(ids: seq<int>)
    ensures Deduplicates(FirstOccurrences(ids), ids)
  {
    if ids != [] {
      var n := |ids| - 1;
      var before := FirstOccurrences(ids[..n]);
      FirstOccurrencesDeduplicate(ids[..n]);
      assert ids == ids[..n] + [ids[n]];
      var r := FirstOccurrences(ids);
      forall i, j | 0 <= i < j < |r| ensures IndexOf(ids, r[i]) < IndexOf(ids, r[j]) {
        IndexAppend(ids[..n], [ids[n]], r[i]);
        IndexAppend(ids[..n], [ids[n]], r[j]);
        assert r[i] == before[i];
        if j < |before| {
          assert r[j] == before[j];
        }
      }
    }
  }

  lemma {:induction false} FirstOccurrencesOnce(ids: seq<int>)
    ensures NoDup(FirstOccurrences(ids))
  {
    FirstOccurrencesDeduplicate(ids);
  }

  lemma {:induction false} NothingToDrop(ids: seq<int>)
    requires NoDup(ids)
    ensures FirstOccurrences(ids) == ids
  {
    if ids != [] {
      var n := |ids| - 1;
      NothingToDrop(ids[..n]);
      assert ids[n] !in ids[..n] && ids == ids[..n] + [ids[n]];
    }
  }

  function FirstInvalid(ids: seq<int>): (r: int)
    ensures r <= 0 ==> r in ids
    ensures r > 0 <==> forall x :: x in ids ==> x > 0
  {
    if ids == [] then 1
    else
      assert ids == [ids[0]] + ids[1..];
      if ids[0] <= 0 then ids[0] else FirstInvalid(ids[1..])
  }

  ghost predicate FirstBad(ids: seq<int>, i: int) {
    0 <= i < |ids| && ids[i] <= 0 && forall j :: 0 <= j < i ==> ids[j] > 0
  }

  lemma {:induction false} FirstInvalidIs(ids: seq<int>, i: nat)
    requires FirstBad(ids, i)
    ensures FirstInvalid(ids) == ids[i]
  {
    if i > 0 {
      assert forall j :: 0 <= j < |ids| - 1 ==> ids[1..][j] == ids[j + 1];
      FirstInvalidIs(ids[1..], i - 1);
    }
  }

  lemma {:induction false} OneMoreId(ids: seq<int>, i: nat)
    requires i < |ids|
    ensures FirstOccurrences(ids[..i + 1])
         == FirstOccurrences(ids[..i]) + (if ids[i] in FirstOccurrences(ids[..i]) then [] else [ids[i]])
  {
    assert ids[..i + 1][..i] == ids[..i];
  }

  method NormalizeSubscriptionInboundIds(ids: seq<int>) returns (r: Result<seq<int>>)
    ensures r == if FirstInvalid(ids) > 0 then Ok(FirstOccurrences(ids)) else InvalidId(FirstInvalid(ids))
    ensures r.Ok? ==> NoDup(r.value) && Deduplicates(r.value, ids) && forall x :: x in ids ==> x > 0
    ensures r.InvalidId? ==> exists i :: FirstBad(ids, i) && ids[i] == r.id
  {
    var seen: set<int> := {};
    var out: seq<int> := [];
    for i := 0 to |ids|
      invariant forall x :: x in seen <==> x in out
      invariant out == FirstOccurrences(ids[..i])
      invariant forall j :: 0 <= j < i ==> ids[j] > 0
    {
      var id := ids[i];
      if id <= 0 {
        FirstInvalidIs(ids, i);
        return InvalidId(id);
      }
      OneMoreId(ids, i);
      if id in seen {
        continue;
      }
      seen := seen + {id};
      out := out + [id];
    }
    assert ids[..|ids|] == ids;
    FirstOccurrencesDeduplicate(ids);
    FirstOccurrencesOnce(ids);
    return Ok(out);
  }

  // ---- Sorting -------------------------------------------------------------------------------

  /** A Go map answers zero for what it does not have. */
  function Rank(order: map<int, int>, x: Inbound): int {
    if x.id in order then order[x.id] else 0
  }

  /** Puts x in front of the greater ones at the end. */
  function Insert(s: seq<Inbound>, x: Inbound, order: map<int, int>): seq<Inbound> {
    if s == [] || Rank(order, s[|s| - 1]) <= Rank(order, x) then s + [x]
    else Insert(s[..|s| - 1], x, order) + [s[|s| - 1]]
  }

  function Sort(s: seq<Inbound>, order: map<int, int>): seq<Inbound> {
    if s == [] then [] else Insert(Sort(s[..|s| - 1], order), s[|s| - 1], order)
  }

  ghost predicate Sorted(s: seq<Inbound>, order: map<int, int>) {
    forall i, j :: 0 <= i < j < |s| ==> Rank(order, s[i]) <= Rank(order, s[j])
  }

  /** Sorted by what the map says, with zero for what it does not have. */
  lemma {:induction false} SortedExactly(s: seq<Inbound>, order: map<int, int>)
    ensures Sorted(s, order) <==>
      forall i, j :: 0 <= i < j < |s| ==>
        (if s[i].id in order then order[s[i].id] else 0) <= (if s[j].id in order then order[s[j].id] else 0)
  {
  }

  /** Those with one rank, in the order they have. */
  function WithRank(s: seq<Inbound>, order: map<int, int>, k: int): seq<Inbound> {
    if s == [] then []
    else
      var n := |s| - 1;
      WithRank(s[..n], order, k) + (if Rank(order, s[n]) == k then [s[n]] else [])
  }

  lemma {:induction false} InsertSorts(s: seq<Inbound>, x: Inbound, order: map<int, int>)
    requires Sorted(s, order)
    ensures Sorted(Insert(s, x, order), order)
    ensures multiset(Insert(s, x, order)) == multiset(s) + multiset{x}
  {
    if s != [] && Rank(order, s[|s| - 1]) > Rank(order, x) {
      var n := |s| - 1;
      assert s == s[..n] + [s[n]];
      InsertSorts(s[..n], x, order);
      var r := Insert(s[..n], x, order);
      forall i | 0 <= i < |r| ensures Rank(order, r[i]) <= Rank(order, s[n]) {
        assert r[i] in multiset(r);
      }
    }
  }

  lemma {:induction false} InsertIsStable(s: seq<Inbound>, x: Inbound, order: map<int, int>, k: int)
    requires Sorted(s, order)
    ensures WithRank(Insert(s, x, order), order, k) == WithRank(s + [x], order, k)
  {
    var n := |s| - 1;
    assert (s + [x])[..|s|] == s;
    if s != [] && Rank(order, s[n]) > Rank(order, x) {
      assert (s[..n] + [x])[..n] == s[..n];
      InsertIsStable(s[..n], x, order, k);
      var r := Insert(s[..n], x, order);
      assert (r + [s[n]])[..|r|] == r;
      if Rank(order, s[n]) == k {
        assert WithRank(s[..n] + [x], order, k) == WithRank(s[..n], order, k);
      }
    }
  }

  /** A stable sort: same inbounds, ordered by rank, and those with equal rank as they were. */
  lemma {:induction false} SortSorts(s: seq<Inbound>, order: map<int, int>)
    ensures Sorted(Sort(s, order), order) && multiset(Sort(s, order)) == multiset(s)
  {
    if s != [] {
      var n := |s| - 1;
      assert s == s[..n] + [s[n]];
      SortSorts(s[..n], order);
      InsertSorts(Sort(s[..n], order), s[n], order);
    }
  }

  lemma {:induction false} SortIsStable(s: seq<Inbound>, order: map<int, int>, k: int)
    ensures WithRank(Sort(s, order), order, k) == WithRank(s, order, k)
  {
    if s != [] {
      var n := |s| - 1;
      SortSorts(s[..n], order);
      SortIsStable(s[..n], order, k);
      InsertIsStable(Sort(s[..n], order), s[n], order, k);
      var r := Sort(s[..n], order);
      assert (r + [s[n]])[..|r|] == r;
    }
  }

  /** Where Insert puts x. */
  function Gap(s: seq<Inbound>, n: nat, x: Inbound, order: map<int, int>): (g: nat)
    requires n <= |s|
    ensures g <= n
  {
    if n == 0 || Rank(order, s[n - 1]) <= Rank(order, x) then n else Gap(s, n - 1, x, order)
  }

  lemma {:induction false} InsertAtGap(s: seq<Inbound>, n: nat, x: Inbound, order: map<int, int>)
    requires n <= |s|
    ensures var g := Gap(s, n, x, order); Insert(s[..n], x, order) == s[..g] + [x] + s[g..n]
  {
    if n > 0 && Rank(order, s[n - 1]) > Rank(order, x) {
      InsertAtGap(s, n - 1, x, order);
      assert s[..n][..n - 1] == s[..n - 1];
      var g := Gap(s, n - 1, x, order);
      SliceSnoc(s, g, n);
      Associate(s[..g] + [x], s[g..n - 1], [s[n - 1]]);
    } else {
      assert s[n..n] == [];
    }
  }

  lemma {:induction false} SliceSnoc(s: seq<Inbound>, g: nat, n: nat)
    requires g < n <= |s|
    ensures s[g..n] == s[g..n - 1] + [s[n - 1]]
  {
  }

  /** Item i of was has moved down to g, and those from g on have made room. */
  ghost predicate MovedDown(now: seq<Inbound>, was: seq<Inbound>, i: nat, g: nat) {
    && g <= i < |was| == |now|
    && (forall k :: 0 <= k < g ==> now[k] == was[k])
    && now[g] == was[i]
    && (forall k :: g < k <= i ==> now[k] == was[k - 1])
    && (forall k :: i < k < |was| ==> now[k] == was[k])
  }

  /** The inner loop: the gap at i moves down past the greater ones. */
  method InsertAt(inbounds: array<Inbound>, i: nat, order: map<int, int>, ghost was: seq<Inbound>)
    requires i < inbounds.Length && was == inbounds[..]
    modifies inbounds
    ensures MovedDown(inbounds[..], was, i, Gap(was, i, was[i], order))
  {
    var item := inbounds[i];
    var j := i - 1;
    while j >= 0 && Rank(order, inbounds[j]) > Rank(order, item)
      invariant -1 <= j < i
      invariant forall k :: 0 <= k <= j ==> inbounds[k] == was[k]
      invariant forall k :: j + 1 < k <= i ==> inbounds[k] == was[k - 1]
      invariant forall k :: i < k < inbounds.Length ==> inbounds[k] == was[k]
      invariant Gap(was, i, item, order) == Gap(was, j + 1, item, order)
    {
      inbounds[j + 1] := inbounds[j];
      j := j - 1;
    }
    inbounds[j + 1] := item;
  }

  lemma {:induction false} MovedDownIs(now: seq<Inbound>, was: seq<Inbound>, i: nat, g: nat)
    requires MovedDown(now, was, i, g)
    ensures now == was[..g] + [was[i]] + was[g..i] + was[i + 1..]
  {
  }

  /** The first i sorted, the others as they were. */
  function Stage(was: seq<Inbound>, i: nat, order: map<int, int>): seq<Inbound>
    requires i <= |was|
  {
    Sort(was[..i], order) + was[i..]
  }

  lemma {:induction false} SortLength(s: seq<Inbound>, order: map<int, int>)
    ensures |Sort(s, order)| == |s|
  {
    SortSorts(s, order);
    assert |multiset(Sort(s, order))| == |multiset(s)|;
  }

  lemma {:induction false} StageParts(front: seq<Inbound>, was: seq<Inbound>, i: nat, now: seq<Inbound>)
    requires |front| == i < |was| && now == front + was[i..]
    ensures now[..i] == front && now[i] == was[i] && now[i + 1..] == was[i + 1..]
  {
  }

  lemma {:induction false} SortSnoc(was: seq<Inbound>, i: nat, order: map<int, int>)
    requires i < |was|
    ensures Sort(was[..i + 1], order) == Insert(Sort(was[..i], order), was[i], order)
  {
    assert was[..i + 1][..i] == was[..i];
  }

  lemma {:induction false} NextStage(was: seq<Inbound>, now: seq<Inbound>, next: seq<Inbound>, i: nat,
                                     order: map<int, int>)
    requires i < |was| == |now| && now == Stage(was, i, order)
    requires MovedDown(next, now, i, Gap(now, i, now[i], order))
    ensures next == Stage(was, i + 1, order)
  {
    SortLength(was[..i], order);
    StageParts(Sort(was[..i], order), was, i, now);
    MovedDownIs(next, now, i, Gap(now, i, now[i], order));
    InsertAtGap(now, i, now[i], order);
    SortSnoc(was, i, order);
  }

  lemma {:induction false} FirstStage(was: seq<Inbound>, order: map<int, int>)
    requires was != []
    ensures Stage(was, 1, order) == was
  {
    SortSnoc(was, 0, order);
    assert was[..0] == [] && Sort([], order) == [] && was == [was[0]] + was[1..];
  }

  method SortInboundsBySubscriptionOrder(inbounds: array<Inbound>, order: map<int, int>)
    modifies inbounds
    ensures inbounds[..] == Sort(old(inbounds[..]), order)
    ensures Sorted(inbounds[..], order) && multiset(inbounds[..]) == multiset(old(inbounds[..]))
  {
    ghost var was := inbounds[..];
    SortSorts(was, order);
    if inbounds.Length == 0 {
      return;
    }
    FirstStage(was, order);
    for i := 1 to inbounds.Length
      invariant inbounds[..] == Stage(was, i, order)
    {
      ghost var now := inbounds[..];
      InsertAt(inbounds, i, order, now);
      NextStage(was, now, inbounds[..], i, order);
    }
    assert was[..|was|] == was && was[|was|..] == [];
  }

  // ---- Loading -------------------------------------------------------------------------------

  predicate Servable(x: Inbound) {
    x.enable && !x.protocol.Other?
  }

  /** The rows the query answers, in the table's order. */
  function Select(rows: seq<Inbound>, ids: seq<int>): (r: seq<Inbound>)
    ensures forall x :: x in r <==> x in rows && Servable(x) && x.id in ids
  {
    if rows == [] then []
    else
      var n := |rows| - 1;
      assert rows == rows[..n] + [rows[n]];
      Select(rows[..n], ids) + (if Servable(rows[n]) && rows[n].id in ids then [rows[n]] else [])
  }

  /** Ids are the table's key. */
  ghost predicate DistinctIds(rows: seq<Inbound>) {
    forall i, j :: 0 <= i < j < |rows| ==> rows[i].id != rows[j].id
  }

  function LastIndexOf(ids: seq<int>, x: int): (i: nat)
    requires x in ids
    ensures i < |ids| && ids[i] == x && forall j :: i < j < |ids| ==> ids[j] != x
  {
    var n := |ids| - 1;
    if ids[n] == x then n else assert ids == ids[..n] + [ids[n]]; LastIndexOf(ids[..n], x)
  }

  /** The servable inbounds of the list, ordered by where the list has them last. */
  ghost predicate Serves(r: seq<Inbound>, ids: seq<int>, rows: seq<Inbound>) {
    (forall x :: x in r <==>
       x in rows && x.enable && x.protocol in {VMess, VLESS, Trojan, Shadowsocks} && x.id in ids)
    && forall i, j :: 0 <= i < j < |r| ==>
         r[i].id in ids && r[j].id in ids && LastIndexOf(ids, r[i].id) < LastIndexOf(ids, r[j].id)
  }

  ghost predicate OrderOf(order: map<int, int>, ids: seq<int>) {
    forall x :: x in ids ==> x in order && order[x] == LastIndexOf(ids, x)
  }

  method MakeOrder(ids: seq<int>) returns (order: map<int, int>)
    ensures OrderOf(order, ids)
  {
    order := map[];
    for i := 0 to |ids|
      invariant OrderOf(order, ids[..i])
    {
      assert ids[..i + 1][..i] == ids[..i] && ids[..i + 1] == ids[..i] + [ids[i]];
      order := order[ids[i] := i];
    }
    assert ids[..|ids|] == ids;
  }

  lemma {:induction false} SelectDistinct(rows: seq<Inbound>, ids: seq<int>)
    requires DistinctIds(rows)
    ensures DistinctIds(Select(rows, ids))
  {
    if rows != [] {
      var n := |rows| - 1;
      SelectDistinct(rows[..n], ids);
      var before := Select(rows[..n], ids);
      forall i | 0 <= i < |before| ensures before[i].id != rows[n].id {
        assert before[i] in rows[..n];
      }
    }
  }

  ghost predicate Apart(m: multiset<Inbound>) {
    (forall x :: m[x] <= 1) && forall x, y :: x in m && y in m && x != y ==> x.id != y.id
  }

  lemma {:induction false} DistinctAreApart(s: seq<Inbound>)
    requires DistinctIds(s)
    ensures Apart(multiset(s))
  {
    if s != [] {
      var n := |s| - 1;
      DistinctAreApart(s[..n]);
      assert s == s[..n] + [s[n]];
      assert forall x :: x in multiset(s[..n]) ==> x in s[..n];
    }
  }

  lemma {:induction false} ApartAreDistinct(s: seq<Inbound>)
    requires Apart(multiset(s))
    ensures DistinctIds(s)
  {
    forall i, j | 0 <= i < j < |s| ensures s[i].id != s[j].id {
      assert s == s[..j] + [s[j]] + s[j + 1..];
      assert multiset(s)[s[j]] >= multiset(s[..j])[s[j]] + 1;
      assert s[i] in s[..j] && s[j] !in multiset(s[..j]);
      assert s[i] in multiset(s) && s[j] in multiset(s);
    }
  }

  lemma {:induction false} SortedDistinct(chosen: seq<Inbound>, order: map<int, int>)
    requires DistinctIds(chosen)
    ensures var r := Sort(chosen, order);
            DistinctIds(r) && Sorted(r, order) && forall x :: x in r <==> x in chosen
  {
    var r := Sort(chosen, order);
    SortSorts(chosen, order);
    DistinctAreApart(chosen);
    ApartAreDistinct(r);
    forall x ensures x in r <==> x in chosen {
      assert x in r <==> x in multiset(r);
    }
  }

  lemma {:induction false} SortedServes(rows: seq<Inbound>, ids: seq<int>, order: map<int, int>)
    requires DistinctIds(rows) && OrderOf(order, ids)
    ensures Serves(Sort(Select(rows, ids), order), ids, rows)
  {
    SelectDistinct(rows, ids);
    SortedDistinct(Select(rows, ids), order);
    RankedServes(Sort(Select(rows, ids), order), rows, ids, order);
  }

  lemma {:induction false} RankedServes(r: seq<Inbound>, rows: seq<Inbound>, ids: seq<int>, order: map<int, int>)
    requires DistinctIds(r) && Sorted(r, order) && OrderOf(order, ids)
    requires forall x :: x in r <==> x in rows && Servable(x) && x.id in ids
    ensures Serves(r, ids, rows)
  {
    forall i, j | 0 <= i < j < |r|
      ensures r[i].id in ids && r[j].id in ids && LastIndexOf(ids, r[i].id) < LastIndexOf(ids, r[j].id)
    {
      assert r[i] in r && r[j] in r && Rank(order, r[i]) <= Rank(order, r[j]);
    }
  }

  method LoadSubscriptionInbounds(ids: seq<int>, rows: seq<Inbound>) returns (r: seq<Inbound>)
    requires DistinctIds(rows)
    ensures Serves(r, ids, rows)
  {
    if |ids| == 0 {
      return [];
    }
    var chosen := Select(rows, ids);
    var inbounds := new Inbound[|chosen|](i requires 0 <= i < |chosen| => chosen[i]);
    assert inbounds[..] == chosen;
    var order := MakeOrder(ids);
    SortInboundsBySubscriptionOrder(inbounds, order);
    SortedServes(rows, ids, order);
    return inbounds[..];
  }

  // ---- The served list -----------------------------------------------------------------------

  ghost predicate SameIds(a: seq<int>, b: seq<int>) {
    forall x :: x in a <==> x in b
  }

  ghost predicate InOrder(s: seq<int>, ids: seq<int>) {
    (forall x :: x in s ==> x in ids)
    && forall i, j :: 0 <= i < j < |s| ==> s[i] in ids && s[j] in ids && LastIndexOf(ids, s[i]) < LastIndexOf(ids, s[j])
  }

  /** Ids in the same order and of the same set are the same list. */
  lemma {:induction false} OneOrder(a: seq<int>, b: seq<int>, ids: seq<int>)
    requires InOrder(a, ids) && InOrder(b, ids)
    requires SameIds(a, b)
    ensures a == b
  {
    BothOrNone(a, b);
    if a != [] && b != [] {
      SameLast(a, b, ids);
      WithoutLast(a, b, ids);
      OneOrder(a[..|a| - 1], b[..|b| - 1], ids);
      assert a == a[..|a| - 1] + [a[|a| - 1]] && b == b[..|b| - 1] + [b[|b| - 1]];
    }
  }

  lemma {:induction false} BothOrNone(a: seq<int>, b: seq<int>)
    requires SameIds(a, b)
    ensures a == [] <==> b == []
  {
    var x := if a != [] then a[0] else if b != [] then b[0] else 0;
    assert x in a || x in b || (a == [] && b == []);
  }

  lemma {:induction false} SameLast(a: seq<int>, b: seq<int>, ids: seq<int>)
    requires InOrder(a, ids) && InOrder(b, ids) && a != [] && b != []
    requires SameIds(a, b)
    ensures a[|a| - 1] == b[|b| - 1]
  {
    var n, m := |a| - 1, |b| - 1;
    assert a[n] in b && b[m] in a;
    var i :| 0 <= i < |b| && b[i] == a[n];
    var j :| 0 <= j < |a| && a[j] == b[m];
    assert b[i] in ids && b[m] in ids;
    assert LastIndexOf(ids, b[i]) <= LastIndexOf(ids, b[m]) && LastIndexOf(ids, a[j]) <= LastIndexOf(ids, a[n]);
  }

  lemma {:induction false} LastIsNew(s: seq<int>, ids: seq<int>)
    requires InOrder(s, ids) && s != []
    ensures s[|s| - 1] !in s[..|s| - 1] && InOrder(s[..|s| - 1], ids)
  {
    var n := |s| - 1;
    forall i | 0 <= i < n ensures s[i] != s[n] {
      assert LastIndexOf(ids, s[i]) < LastIndexOf(ids, s[n]);
    }
  }

  lemma {:induction false} WithoutLast(a: seq<int>, b: seq<int>, ids: seq<int>)
    requires InOrder(a, ids) && InOrder(b, ids) && a != [] && b != [] && a[|a| - 1] == b[|b| - 1]
    requires SameIds(a, b)
    ensures SameIds(a[..|a| - 1], b[..|b| - 1]) && InOrder(a[..|a| - 1], ids) && InOrder(b[..|b| - 1], ids)
  {
    LastIsNew(a, ids);
    LastIsNew(b, ids);
    AllButLast(a);
    AllButLast(b);
    var front, rest := a[..|a| - 1], b[..|b| - 1];
    forall x
      ensures x in front <==> x in rest
    {
      assert x in a <==> x in b;
    }
  }

  lemma {:induction false} AllButLast(s: seq<int>)
    requires s != [] && s[|s| - 1] !in s[..|s| - 1]
    ensures forall x :: x in s[..|s| - 1] <==> x in s && x != s[|s| - 1]
  {
    assert s == s[..|s| - 1] + [s[|s| - 1]];
  }

  function Ids(r: seq<Inbound>): (s: seq<int>)
    ensures |s| == |r| && forall i :: 0 <= i < |r| ==> s[i] == r[i].id
  {
    if r == [] then [] else Ids(r[..|r| - 1]) + [r[|r| - 1].id]
  }

  ghost predicate Served(id: int, rows: seq<Inbound>) {
    exists x :: x in rows && x.enable && x.protocol in {VMess, VLESS, Trojan, Shadowsocks} && x.id == id
  }

  /** The list of ids, filtered. */
  ghost function Kept(ids: seq<int>, rows: seq<Inbound>): (r: seq<int>)
    ensures forall x :: x in r <==> x in ids && Served(x, rows)
  {
    if ids == [] then []
    else
      var n := |ids| - 1;
      assert ids == ids[..n] + [ids[n]];
      Kept(ids[..n], rows) + (if Served(ids[n], rows) then [ids[n]] else [])
  }

  lemma {:induction false} KeptInOrder(ids: seq<int>, rows: seq<Inbound>)
    requires NoDup(ids)
    ensures InOrder(Kept(ids, rows), ids)
  {
    if ids != [] {
      var n := |ids| - 1;
      assert ids == ids[..n] + [ids[n]];
      KeptInOrder(ids[..n], rows);
      var before := Kept(ids[..n], rows);
      forall x | x in before ensures x in ids[..n] && x in ids && LastIndexOf(ids, x) == LastIndexOf(ids[..n], x) < n {
        assert x != ids[n];
      }
    }
  }

  /** What normalising stores and loading serves: the ids as they were first given, without those that
      no enabled inbound with a known protocol has. */
  lemma {:induction false} ServedIds(given: seq<int>, rows: seq<Inbound>, r: seq<Inbound>)
    requires Serves(r, FirstOccurrences(given), rows)
    ensures Ids(r) == Kept(FirstOccurrences(given), rows)
  {
    var ids := FirstOccurrences(given);
    FirstOccurrencesOnce(given);
    KeptInOrder(ids, rows);
    ServedOrKept(r, ids, rows);
    OneOrder(Ids(r), Kept(ids, rows), ids);
  }

  lemma {:induction false} ServedOrKept(r: seq<Inbound>, ids: seq<int>, rows: seq<Inbound>)
    requires Serves(r, ids, rows)
    ensures SameIds(Ids(r), Kept(ids, rows))
  {
    forall id ensures id in Ids(r) <==> id in Kept(ids, rows) {
      if id in Kept(ids, rows) {
        var x :| x in rows && x.enable && x.protocol in {VMess, VLESS, Trojan, Shadowsocks} && x.id == id;
        assert x in r;
        var i :| 0 <= i < |r| && r[i] == x;
        assert Ids(r)[i] == id;
      }
      if id in Ids(r) {
        var i :| 0 <= i < |r| && Ids(r)[i] == id;
        assert r[i] in r;
      }
    }
  }
}
