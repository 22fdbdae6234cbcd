/** Static hosts: names that stand for addresses, or for other names. */
module Hosts {
  import opened Sequences

  datatype Address = V4(bytes: seq<int>) | V6(bytes: seq<int>) | Domain(name: string) | RCode(code: int)

  datatype IPOption = IPOption(ipv4: bool, ipv6: bool)

  datatype Error = EmptyResponse | Refused(code: int)

  /** Unrecorded is Go's nil, which differs from an empty list. */
  datatype Answer = Unrecorded | Recorded(addrs: seq<Address>) | Failed(error: Error)

  /** matches and lower stand for the domain matcher and for strings.ToLower. */
  datatype StaticHosts = StaticHosts(responses: seq<seq<Address>>, matches: string -> seq<nat>, lower: string -> string)
  {
    ghost predicate Valid() {
      forall d :: InRange(responses, matches(d))
    }
  }

  // ---- One lookup in the table ---------------------------------------------------------------

  function ErrorOf(code: int): Error {
    if code % 0x1_0000 == 0 then EmptyResponse else Refused(code)
  }

  ghost predicate FirstCodeAt(addrs: seq<Address>, i: int) {
    0 <= i < |addrs| && addrs[i].RCode? && forall j :: 0 <= j < i ==> !addrs[j].RCode?
  }

  /** The error of the first code among the addresses. */
  function FirstCode(addrs: seq<Address>): (r: Answer)
    ensures !r.Recorded?
    ensures r.Unrecorded? <==> forall i :: 0 <= i < |addrs| ==> !addrs[i].RCode?
  {
    if addrs == [] then Unrecorded
    else if addrs[0].RCode? then Failed(ErrorOf(addrs[0].code))
    else FirstCode(addrs[1..])
  }

  lemma {:induction false} FirstCodeIs(addrs: seq<Address>, i: int)
    requires FirstCodeAt(addrs, i)
    ensures FirstCode(addrs) == Failed(if addrs[i].code % 0x1_0000 == 0 then EmptyResponse else Refused(addrs[i].code))
  {
    if i > 0 {
      assert forall j :: 0 <= j < |addrs| - 1 ==> addrs[1..][j] == addrs[j + 1];
      FirstCodeIs(addrs[1..], i - 1);
    }
  }

  method CheckCodes(addrs: seq<Address>) returns (r: Answer)
    ensures r == FirstCode(addrs)
  {
    for i := 0 to |addrs|
      invariant FirstCode(addrs) == FirstCode(addrs[i..])
    {
      if addrs[i].RCode? {
        return Failed(ErrorOf(addrs[i].code));
      }
      assert addrs[i..][1..] == addrs[i + 1..];
    }
    return Unrecorded;
  }

  predicate InRange(responses: seq<seq<Address>>, idx: seq<nat>) {
    forall i :: 0 <= i < |idx| ==> idx[i] < |responses|
  }

  /** All addresses of the first n responses, one behind the other. */
  function Joined(responses: seq<seq<Address>>, idx: seq<nat>, n: nat): seq<Address>
    requires InRange(responses, idx) && n <= |idx|
  {
    if n == 0 then [] else Joined(responses, idx, n - 1) + responses[idx[n - 1]]
  }

  /** Among the first n responses the first with a code decides; without one, the addresses are joined. */
  ghost predicate Collects(responses: seq<seq<Address>>, idx: seq<nat>, n: nat, r: Answer)
    requires InRange(responses, idx) && n <= |idx|
  {
    match r
    case Unrecorded => n == 0
    case Recorded(addrs) =>
      n > 0 && addrs == Joined(responses, idx, n)
      && forall i :: 0 <= i < n ==> FirstCode(responses[idx[i]]).Unrecorded?
    case Failed(_) =>
      exists i :: 0 <= i < n && FirstCode(responses[idx[i]]) == r
               && forall j :: 0 <= j < i ==> FirstCode(responses[idx[j]]).Unrecorded?
  }

  function Collected(responses: seq<seq<Address>>, idx: seq<nat>, n: nat): (r: Answer)
    requires InRange(responses, idx) && n <= |idx|
    ensures Collects(responses, idx, n, r)
  {
    if n == 0 then Unrecorded
    else
      var before := Collected(responses, idx, n - 1);
      var last := FirstCode(responses[idx[n - 1]]);
      if before.Failed? then before
      else if last.Failed? then last
      else Recorded(Joined(responses, idx, n))
  }

  /** Every response stands behind those before it. */
  lemma {:induction false} JoinedParts(responses: seq<seq<Address>>, idx: seq<nat>, i: nat, n: nat)
    requires InRange(responses, idx) && i < n <= |idx|
    ensures Joined(responses, idx, 0) == []
    ensures Joined(responses, idx, i) + responses[idx[i]] <= Joined(responses, idx, n)
    decreases n
  {
    if i < n - 1 {
      JoinedParts(responses, idx, i, n - 1);
    }
  }

  lemma {:induction false} JoinedHas(responses: seq<seq<Address>>, idx: seq<nat>, n: nat)
    requires InRange(responses, idx) && n <= |idx|
    requires forall i :: 0 <= i < n ==> FirstCode(responses[idx[i]]).Unrecorded?
    ensures forall a :: a in Joined(responses, idx, n) ==> !a.RCode?
  {
    if n > 0 {
      JoinedHas(responses, idx, n - 1);
      var last := responses[idx[n - 1]];
      forall a | a in last
        ensures !a.RCode?
      {
        var i :| 0 <= i < |last| && last[i] == a;
      }
    }
  }

  function Internal(h: StaticHosts, domain: string): (r: Answer)
    requires h.Valid()
  {
    Collected(h.responses, h.matches(domain), |h.matches(domain)|)
  }

  method LookupInternal(h: StaticHosts, domain: string) returns (r: Answer)
    requires h.Valid()
    ensures r == Internal(h, domain)
    ensures Collects(h.responses, h.matches(domain), |h.matches(domain)|, r)
    ensures r.Recorded? ==> forall a :: a in r.addrs ==> !a.RCode?
  {
    var ips: seq<Address>, found := [], false;
    var idx := h.matches(domain);
    for i := 0 to |idx|
      invariant ips == Joined(h.responses, idx, i) && found == (i > 0)
      invariant Collected(h.responses, idx, i) == if found then Recorded(ips) else Unrecorded
    {
      var failed := CheckCodes(h.responses[idx[i]]);
      if failed.Failed? {
        FailsEarly(h.responses, idx, i + 1, |idx|);
        return failed;
      }
      ips := ips + h.responses[idx[i]];
      found := true;
    }
    if found {
      JoinedHas(h.responses, idx, |idx|);
    }
    return if found then Recorded(ips) else Unrecorded;
  }

  lemma {:induction false} FailsEarly(responses: seq<seq<Address>>, idx: seq<nat>, i: nat, n: nat)
    requires InRange(responses, idx) && i <= n <= |idx| && Collected(responses, idx, i).Failed?
    ensures Collected(responses, idx, n) == Collected(responses, idx, i)
    decreases n
  {
    if i < n {
      FailsEarly(responses, idx, i, n - 1);
    }
  }

  predicate Wanted(a: Address, option: IPOption) {
    (a.V4? && option.ipv4) || (a.V6? && option.ipv6)
  }

  function Filtered(ips: seq<Address>, option: IPOption): (r: seq<Address>)
    ensures forall a :: a in r <==> a in ips && Wanted(a, option)
  {
    if ips == [] then []
    else
      var n := |ips| - 1;
      assert ips == ips[..n] + [ips[n]];
      Filtered(ips[..n], option) + (if Wanted(ips[n], option) then [ips[n]] else [])
  }

  /** The wanted addresses in their order, as often as they occur. */
  lemma {:induction false} FilteredExactly(a: seq<Address>, x: Address, b: seq<Address>, option: IPOption)
    ensures Filtered([], option) == []
    ensures Filtered(a + b, option) == Filtered(a, option) + Filtered(b, option)
    ensures Filtered([x], option) == if (x.V4? && option.ipv4) || (x.V6? && option.ipv6) then [x] else []
  {
    assert [x][..0] == [];
    if b == [] {
      assert a + b == a;
    } else {
      var n := |b| - 1;
      assert (a + b)[..|a + b| - 1] == a + b[..n];
      FilteredExactly(a, x, b[..n], option);
      Associate(Filtered(a, option), Filtered(b[..n], option), if Wanted(b[n], option) then [b[n]] else []);
    }
  }

  method FilterIP(ips: seq<Address>, option: IPOption) returns (filtered: seq<Address>)
    ensures filtered == Filtered(ips, option)
  {
    filtered := [];
    for i := 0 to |ips|
      invariant filtered == Filtered(ips[..i], option)
    {
      assert ips[..i + 1][..i] == ips[..i];
      if Wanted(ips[i], option) {
        filtered := filtered + [ips[i]];
      }
    }
    assert ips[..|ips|] == ips;
  }

  // ---- Following the names -------------------------------------------------------------------

  predicate IsAlias(a: Answer) {
    a.Recorded? && |a.addrs| == 1 && a.addrs[0].Domain?
  }

  /** The whole table, as it answers one question. */
  function Table(h: StaticHosts): string -> Answer
    requires h.Valid()
  {
    (domain: string) => Internal(h, h.lower(domain))
  }

  function Resolved(ask: string -> Answer, domain: string, option: IPOption, maxDepth: nat): Answer
    decreases maxDepth
  {
    var a := ask(domain);
    if a.Failed? || a.Unrecorded? then a
    else if IsAlias(a) then
      if maxDepth == 0 then a
      else
        var unwrapped := Resolved(ask, a.addrs[0].name, option, maxDepth - 1);
        if unwrapped.Unrecorded? then a else unwrapped
    else Recorded(Filtered(a.addrs, option))
  }

  method Ask(h: StaticHosts, domain: string) returns (r: Answer)
    requires h.Valid()
    ensures r == Table(h)(domain)
    ensures Collects(h.responses, h.matches(h.lower(domain)), |h.matches(h.lower(domain))|, r)
  {
    r := LookupInternal(h, h.lower(domain));
  }

  method Lookup(h: StaticHosts, domain: string, option: IPOption, maxDepth: nat) returns (r: Answer)
    requires h.Valid()
    ensures r == Resolved(Table(h), domain, option, maxDepth)
    decreases maxDepth
  {
    r := Ask(h, domain);
    if r.Failed? || r.Unrecorded? || r.addrs == [] {
      assert r.Recorded? ==> Filtered([], option) == [];
      return r;
    }
    if |r.addrs| == 1 && r.addrs[0].Domain? {
      if maxDepth > 0 {
        var unwrapped := Lookup(h, r.addrs[0].name, option, maxDepth - 1);
        if !unwrapped.Unrecorded? {
          return unwrapped;
        }
      }
      return r;
    }
    var filtered := FilterIP(r.addrs, option);
    return Recorded(filtered);
  }

  // ---- The chain of names, without a limit ---------------------------------------------------

  function Hop(ask: string -> Answer, domain: string): string {
    var a := ask(domain);
    if IsAlias(a) then a.addrs[0].name else domain
  }

  /** The name after k hops. */
  function At(ask: string -> Answer, domain: string, k: nat): string
    decreases k
  {
    if k == 0 then domain else At(ask, Hop(ask, domain), k - 1)
  }

  ghost predicate EndsAt(ask: string -> Answer, domain: string, k: nat) {
    forall name :: ask(At(ask, domain, k)) != Recorded([Domain(name)])
  }

  ghost predicate EndsWithin(ask: string -> Answer, domain: string, n: nat) {
    exists k :: 0 <= k <= n && EndsAt(ask, domain, k)
  }

  ghost predicate FirstEnd(ask: string -> Answer, domain: string, k: nat) {
    EndsAt(ask, domain, k) && forall j :: 0 <= j < k ==> !EndsAt(ask, domain, j)
  }

  /** What the whole chain stands for: its last name's addresses, or the last name itself when the
      table does not have it. */
  function Meaning(ask: string -> Answer, domain: string, option: IPOption, k: nat): Answer {
    var last := At(ask, domain, k);
    match ask(last)
    case Failed(e) => Failed(e)
    case Unrecorded => if k == 0 then Unrecorded else Recorded([Domain(last)])
    case Recorded(addrs) => Recorded(Filtered(addrs, option))
  }

  lemma {:induction false} OneHop(ask: string -> Answer, domain: string)
    requires IsAlias(ask(domain))
    ensures ask(domain) == Recorded([Domain(Hop(ask, domain))])
    ensures forall k: nat :: k > 0 ==> At(ask, domain, k) == At(ask, Hop(ask, domain), k - 1)
  {
  }

  /** A chain that ends within the depth is followed to its end, whatever the depth. */
  lemma {:induction false} ChainEnds(ask: string -> Answer, domain: string, option: IPOption, depth: nat, k: nat)
    requires k <= depth && FirstEnd(ask, domain, k)
    ensures Resolved(ask, domain, option, depth) == Meaning(ask, domain, option, k)
    ensures var last, r := ask(At(ask, domain, k)), Resolved(ask, domain, option, depth);
      match last
      case Failed(_) => r == last
      case Unrecorded => r == if k == 0 then Unrecorded else Recorded([Domain(At(ask, domain, k))])
      case Recorded(addrs) => r == Recorded(Filtered(addrs, option))
    decreases k
  {
    if k > 0 {
      assert !EndsAt(ask, domain, 0);
      OneHop(ask, domain);
      var next := Hop(ask, domain);
      forall j: nat | j < k - 1 ensures !EndsAt(ask, next, j) {
        assert !EndsAt(ask, domain, j + 1);
      }
      ChainEnds(ask, next, option, depth - 1, k - 1);
    }
  }

  /** Otherwise, as on every cycle, the answer is the one name behind the depth. */
  lemma {:induction false} ChainGoesOn(ask: string -> Answer, domain: string, option: IPOption, depth: nat)
    requires !EndsWithin(ask, domain, depth)
    ensures Resolved(ask, domain, option, depth) == Recorded([Domain(At(ask, domain, depth + 1))])
    decreases depth
  {
    assert !EndsAt(ask, domain, 0);
    OneHop(ask, domain);
    if depth > 0 {
      var next := Hop(ask, domain);
      forall j: nat | j <= depth - 1 ensures !EndsAt(ask, next, j) {
        assert !EndsAt(ask, domain, j + 1);
      }
      ChainGoesOn(ask, next, option, depth - 1);
    }
  }

  lemma {:induction false} TheFirstEnd(ask: string -> Answer, domain: string, n: nat) returns (k: nat)
    requires EndsWithin(ask, domain, n)
    ensures k <= n && FirstEnd(ask, domain, k)
  {
    k := 0;
    while !EndsAt(ask, domain, k)
      invariant k <= n && forall j :: 0 <= j < k ==> !EndsAt(ask, domain, j)
      decreases n - k
    {
      k := k + 1;
    }
  }

  lemma {:induction false} AtNext(ask: string -> Answer, domain: string, k: nat)
    ensures At(ask, domain, k + 1) == Hop(ask, At(ask, domain, k))
    decreases k
  {
    if k > 0 {
      AtNext(ask, Hop(ask, domain), k - 1);
    }
  }

  /** The name behind the depth is as far as any depth gets: it is not in the table, or stands for itself. */
  ghost predicate Stops(ask: string -> Answer, domain: string, n: nat) {
    ask(At(ask, domain, n + 1)).Unrecorded?
    || (IsAlias(ask(At(ask, domain, n + 1))) && At(ask, domain, n + 2) == At(ask, domain, n + 1))
  }

  /** A name that stands for itself goes on for ever. */
  lemma {:induction false} StandsForItself(ask: string -> Answer, domain: string, n: nat, m: nat)
    requires n <= m && At(ask, domain, n + 1) == At(ask, domain, n)
    ensures At(ask, domain, m) == At(ask, domain, n)
    decreases m - n
  {
    if n < m {
      AtNext(ask, domain, n);
      AtNext(ask, domain, n + 1);
      StandsForItself(ask, domain, n + 1, m);
    }
  }

  lemma {:induction false} OneMoreIsTheSame(ask: string -> Answer, domain: string, option: IPOption, n: nat)
    requires !EndsWithin(ask, domain, n)
    ensures Resolved(ask, domain, option, n + 1) == Resolved(ask, domain, option, n) ==> Stops(ask, domain, n)
  {
    ChainGoesOn(ask, domain, option, n);
    if EndsWithin(ask, domain, n + 1) {
      var k := TheFirstEnd(ask, domain, n + 1);
      ChainEnds(ask, domain, option, n + 1, k);
      assert k == n + 1;
      FilteredOut(ask, domain, option, n + 1);
    } else {
      ChainGoesOn(ask, domain, option, n + 1);
      assert !EndsAt(ask, domain, n + 1);
    }
  }

  lemma {:induction false} FilteredOut(ask: string -> Answer, domain: string, option: IPOption, k: nat)
    ensures forall last ::
      Meaning(ask, domain, option, k) == Recorded([Domain(last)]) ==> ask(At(ask, domain, k)).Unrecorded?
  {
    match ask(At(ask, domain, k)) {
      case Recorded(addrs) =>
        forall last: string ensures Filtered(addrs, option) != [Domain(last)] {
          assert Domain(last) in [Domain(last)] && Domain(last) !in Filtered(addrs, option);
        }
      case _ =>
    }
  }

  lemma {:induction false} StopsForGood(ask: string -> Answer, domain: string, option: IPOption, n: nat, m: nat)
    requires !EndsWithin(ask, domain, n) && Stops(ask, domain, n) && n <= m
    ensures Resolved(ask, domain, option, m) == Resolved(ask, domain, option, n)
  {
    ChainGoesOn(ask, domain, option, n);
    if m > n {
      if EndsWithin(ask, domain, m) {
        var k := TheFirstEnd(ask, domain, m);
        ChainEnds(ask, domain, option, m, k);
        if !ask(At(ask, domain, n + 1)).Unrecorded? {
          StandsForItself(ask, domain, n + 1, k);
        } else {
          assert EndsAt(ask, domain, n + 1);
        }
      } else {
        ChainGoesOn(ask, domain, option, m);
        assert !EndsAt(ask, domain, n + 1);
        StandsForItself(ask, domain, n + 1, m + 1);
      }
    }
  }

  /** The depth makes no difference if and only if the chain ends within it, or stops at the name behind it. */
  lemma {:induction false} DepthExactly(ask: string -> Answer, domain: string, option: IPOption, n: nat)
    ensures (forall m: nat :: n <= m ==> Resolved(ask, domain, option, m) == Resolved(ask, domain, option, n))
       <==> EndsWithin(ask, domain, n) || Stops(ask, domain, n)
  {
    if EndsWithin(ask, domain, n) {
      var k := TheFirstEnd(ask, domain, n);
      forall m: nat | n <= m ensures Resolved(ask, domain, option, m) == Resolved(ask, domain, option, n) {
        ChainEnds(ask, domain, option, n, k);
        ChainEnds(ask, domain, option, m, k);
      }
    } else if Stops(ask, domain, n) {
      forall m: nat | n <= m ensures Resolved(ask, domain, option, m) == Resolved(ask, domain, option, n) {
        StopsForGood(ask, domain, option, n, m);
      }
    } else {
      OneMoreIsTheSame(ask, domain, option, n);
      assert n <= n + 1 && Resolved(ask, domain, option, n + 1) != Resolved(ask, domain, option, n);
    }
  }

  /** A chain that comes back to a name never ends, and is cut behind the depth. The answer is a name of
      the cycle, unless the depth is too small to get there. */
  lemma {:induction false} CycleIsCut(ask: string -> Answer, domain: string, option: IPOption, i: nat, j: nat,
                                      depth: nat)
    requires i < j && At(ask, domain, i) == At(ask, domain, j) && !EndsWithin(ask, domain, j)
    ensures Resolved(ask, domain, option, depth) == Recorded([Domain(At(ask, domain, depth + 1))])
    ensures depth + 1 >= i ==> exists k :: i <= k < j && At(ask, domain, k) == At(ask, domain, depth + 1)
  {
    forall m: nat
      ensures !EndsAt(ask, domain, m)
    {
      var k := Wraps(ask, domain, i, j, m);
    }
    ChainGoesOn(ask, domain, option, depth);
    var k := Wraps(ask, domain, i, j, depth + 1);
  }

  lemma {:induction false} Wraps(ask: string -> Answer, domain: string, i: nat, j: nat, m: nat) returns (k: nat)
    requires i < j && At(ask, domain, i) == At(ask, domain, j) && !EndsWithin(ask, domain, j)
    ensures k < j && At(ask, domain, k) == At(ask, domain, m) && !EndsAt(ask, domain, m)
    ensures if m < i then k == m else i <= k
    decreases m
  {
    if m == 0 {
      k := 0;
    } else {
      k := Wraps(ask, domain, i, j, m - 1);
      AtNext(ask, domain, m - 1);
      AtNext(ask, domain, k);
      k := if k + 1 < j then k + 1 else i;
    }
    assert !EndsAt(ask, domain, k);
  }

  /** For example: with a chain of three names, the depth makes a difference. */
  lemma {:induction false} DepthExample(option: IPOption)
    ensures var ask := (name: string) =>
        if name == "a" then Recorded([Domain("b")]) else if name == "b" then Recorded([Domain("c")])
        else Recorded([V4([127, 0, 0, 1])]);
      && Resolved(ask, "a", option, 0) == Recorded([Domain("b")])
      && Resolved(ask, "a", option, 1) == Recorded([Domain("c")])
      && Resolved(ask, "a", option, 2) == Recorded(Filtered([V4([127, 0, 0, 1])], option))
  {
    var ask := (name: string) =>
        if name == "a" then Recorded([Domain("b")]) else if name == "b" then Recorded([Domain("c")])
        else Recorded([V4([127, 0, 0, 1])]);
    assert Resolved(ask, "c", option, 0) == Recorded(Filtered([V4([127, 0, 0, 1])], option));
    assert Resolved(ask, "b", option, 1) == Resolved(ask, "c", option, 0);
  }
}
