/** EnsureUniqueClashNames: giving every proxy of a list a name of its own. */
module ClashNames {

  // ---- fmt and strings -----------------------------------------------------------------------

  /** %d */
  function Decimal(n: nat): (s: string)
    ensures s != []
  {
    if n < 10 then [(n + '0' as int) as char] else Decimal(n / 10) + [(n % 10 + '0' as int) as char]
  }

  function Value(s: string): int {
    if s == [] then 0 else Value(s[..|s| - 1]) * 10 + (s[|s| - 1] as int - '0' as int)
  }

  lemma {:induction false} ValueOfDecimal(n: nat)
    ensures Value(Decimal(n)) == n
  {
    if n < 10 {
      assert Decimal(n)[..0] == [];
    } else {
      ValueOfDecimal(n / 10);
      var s := Decimal(n);
      assert s[..|s| - 1] == Decimal(n / 10);
    }
  }

  /** "%s #%d" */
  function Numbered(name: string, k: nat): string {
    name + " #" + Decimal(k)
  }

  /** No two numbers give the same name, and none gives the name itself. */
  lemma {:induction false} NumberedInjective(name: string, j: nat, k: nat)
    ensures Numbered(name, j) == Numbered(name, k) ==> j == k
    ensures Numbered(name, j) != name
  {
    if Numbered(name, j) == Numbered(name, k) {
      assert Decimal(j) == Numbered(name, j)[|name| + 2..] == Numbered(name, k)[|name| + 2..] == Decimal(k);
      ValueOfDecimal(j);
      ValueOfDecimal(k);
    }
  }

  /** unicode.IsSpace */
  predicate IsSpace(c: char) {
    || c in {'\t', '\n', '\U{0B}', '\U{0C}', '\r', ' ', '\U{85}', '\U{A0}'}
    || c in {'\U{1680}', '\U{2028}', '\U{2029}', '\U{202F}', '\U{205F}', '\U{3000}'}
    || '\U{2000}' <= c <= '\U{200A}'
  }

  /** strings.TrimSpace */
  function TrimSpace(s: string): string {
    if s == [] then []
    else if IsSpace(s[0]) then TrimSpace(s[1..])
    else if IsSpace(s[|s| - 1]) then TrimSpace(s[..|s| - 1])
    else s
  }

  predicate AllSpace(s: string) {
    forall c :: c in s ==> IsSpace(c)
  }

  /** What is left has no space at either end, and what has gone was space. */
  lemma {:induction false} Trimmed(s: string) returns (before: string, behind: string)
    ensures s == before + TrimSpace(s) + behind && AllSpace(before) && AllSpace(behind)
    ensures Core(TrimSpace(s))
    decreases |s|
  {
    before, behind := [], [];
    if s != [] && IsSpace(s[0]) {
      before, behind := Trimmed(s[1..]);
      MoreInFront(s, before, TrimSpace(s), behind);
      before := [s[0]] + before;
    } else if s != [] && IsSpace(s[|s| - 1]) {
      before, behind := Trimmed(s[..|s| - 1]);
      MoreBehind(s, before, TrimSpace(s), behind);
      behind := behind + [s[|s| - 1]];
    }
  }

  /** No space at either end. */
  predicate Core(t: string) {
    t != [] ==> !IsSpace(t[0]) && !IsSpace(t[|t| - 1])
  }

  lemma {:induction false} MoreInFront(s: string, before: string, t: string, behind: string)
    requires s != [] && IsSpace(s[0]) && s[1..] == before + t + behind && AllSpace(before)
    ensures s == [s[0]] + before + t + behind && AllSpace([s[0]] + before)
  {
    assert s == [s[0]] + s[1..];
  }

  lemma {:induction false} MoreBehind(s: string, before: string, t: string, behind: string)
    requires s != [] && IsSpace(s[|s| - 1]) && s[..|s| - 1] == before + t + behind && AllSpace(behind)
    ensures s == before + t + (behind + [s[|s| - 1]]) && AllSpace(behind + [s[|s| - 1]])
  {
    assert s == s[..|s| - 1] + [s[|s| - 1]];
  }

  // ---- The names -----------------------------------------------------------------------------

  type Proxy = map<string, string>

  /** The name a proxy asks for. */
  function Wanted(p: Proxy): string {
    var name := TrimSpace(if "name" in p then p["name"] else "");
    if name == "" then "proxy" else name
  }

  /** A proxy asks for its name without the space around it; without a name, or with a blank one, for
      "proxy". */
  lemma {:induction false} WantedIs(p: Proxy)
    ensures "name" !in p || AllSpace(p["name"]) ==> Wanted(p) == "proxy"
    ensures "name" in p && !AllSpace(p["name"]) ==>
      && Wanted(p) != [] && Core(Wanted(p))
      && exists before, behind :: p["name"] == before + Wanted(p) + behind && AllSpace(before) && AllSpace(behind)
  {
    if "name" in p {
      var before, behind := Trimmed(p["name"]);
      var t := TrimSpace(p["name"]);
      if t == [] {
        assert p["name"] == before + behind;
      } else {
        assert t[0] in p["name"];
      }
    }
  }

  /** How often a name has been asked for or given away as a numbered one: what seen counts. */
  function Uses(wanted: seq<string>, given: seq<string>, name: string): nat
    requires |wanted| == |given|
  {
    if wanted == [] then 0
    else
      var n := |wanted| - 1;
      Uses(wanted[..n], given[..n], name) + (if wanted[n] == name || given[n] == name then 1 else 0)
  }

  /** The name given next, when these have been asked for and given before: the one that is wanted if
      nobody has it, otherwise the first free number after the uses so far. */
  ghost predicate GivenNext(wanted: seq<string>, given: seq<string>, want: string, give: string)
    requires |wanted| == |given|
  {
    if want !in given then give == want
    else
      var first := Uses(wanted, given, want) + 1;
      exists k: nat :: k >= first && give == Numbered(want, k) && give !in given &&
        forall j :: first <= j < k ==> Numbered(want, j) in given
  }

  lemma {:induction false} UsesSnoc(wanted: seq<string>, given: seq<string>, want: string, give: string, name: string)
    requires |wanted| == |given|
    ensures Uses(wanted + [want], given + [give], name) ==
            Uses(wanted, given, name) + (if want == name || give == name then 1 else 0)
  {
    assert (wanted + [want])[..|wanted|] == wanted && (given + [give])[..|given|] == given;
  }

  lemma {:induction false} UnusedIsZero(wanted: seq<string>, given: seq<string>, name: string)
    requires |wanted| == |given| && name !in wanted && name !in given
    ensures Uses(wanted, given, name) == 0
  {
    if wanted != [] {
      var n := |wanted| - 1;
      assert wanted[n] in wanted && given[n] in given;
      assert wanted == wanted[..n] + [wanted[n]] && given == given[..n] + [given[n]];
      UnusedIsZero(wanted[..n], given[..n], name);
    }
  }

  /** The search for a free number. It ends because the numbered names are all different and only
      finitely many names have been seen. */
  method FirstFree(seen: map<string, nat>, name: string, start: nat) returns (next: string, ghost k: nat)
    ensures next == Numbered(name, k) && k >= start && next !in seen
    ensures forall j :: start <= j < k ==> Numbered(name, j) in seen
  {
    var count := start;
    next := Numbered(name, count);
    ghost var left := seen.Keys;
    while next in seen
      invariant count >= start && next == Numbered(name, count)
      invariant forall j :: start <= j < count ==> Numbered(name, j) in seen
      invariant left <= seen.Keys
      invariant forall n :: n in seen.Keys && n !in left ==> exists j :: start <= j < count && n == Numbered(name, j)
      decreases |left|
    {
      if next !in left {
        var j :| start <= j < count && next == Numbered(name, j);
        NumberedInjective(name, j, count);
      }
      assert |left - {next}| < |left|;
      left := left - {next};
      count := count + 1;
      next := Numbered(name, count);
    }
    k := count;
  }

  // ---- The list ------------------------------------------------------------------------------

  function WantedOf(ps: seq<Proxy>): (w: seq<string>)
    ensures |w| == |ps| && forall i :: 0 <= i < |ps| ==> w[i] == Wanted(ps[i])
  {
    if ps == [] then [] else [Wanted(ps[0])] + WantedOf(ps[1..])
  }

  /** The table of names stands for what has been asked for and given so far. */
  ghost predicate Tells(seen: map<string, nat>, wanted: seq<string>, given: seq<string>) {
    && |wanted| == |given|
    && (forall n :: n in seen <==> n in given)
    && (forall n :: n in wanted ==> n in given)
    && (forall n :: n in seen ==> seen[n] == Uses(wanted, given, n) && seen[n] > 0)
  }

  lemma {:induction false} TellsNext(seen: map<string, nat>, wanted: seq<string>, given: seq<string>, want: string,
                                     give: string)
    requires Tells(seen, wanted, given) && give !in given
    requires want !in given ==> give == want
    ensures var count := if want in seen then seen[want] else 0;
      Tells(seen[want := count + 1][give := 1], wanted + [want], given + [give])
  {
    var count := if want in seen then seen[want] else 0;
    var seen' := seen[want := count + 1][give := 1];
    forall n | n in seen'
      ensures seen'[n] == Uses(wanted + [want], given + [give], n) && seen'[n] > 0
    {
      UsesSnoc(wanted, given, want, give, n);
      if n !in given {
        assert n == give;
        UnusedIsZero(wanted, given, n);
      }
    }
  }

  /** The names given to a list, one after the other. */
  ghost predicate Renamed(wanted: seq<string>, given: seq<string>) {
    && |wanted| == |given|
    && forall i :: 0 <= i < |wanted| ==> GivenNext(wanted[..i], given[..i], wanted[i], given[i])
  }

  /** A name that is given next is free ... */
  lemma {:induction false} GivenIsNew(wanted: seq<string>, given: seq<string>, want: string, give: string)
    requires |wanted| == |given| && GivenNext(wanted, given, want, give)
    ensures give !in given
  {
  }

  /** ... so all names of a list are different. */
  lemma {:induction false} AllDifferent(wanted: seq<string>, given: seq<string>)
    requires Renamed(wanted, given)
    ensures forall i, j :: 0 <= i < j < |given| ==> given[i] != given[j]
  {
    forall i, j | 0 <= i < j < |given|
      ensures given[i] != given[j]
    {
      GivenIsNew(wanted[..j], given[..j], wanted[j], given[j]);
      assert given[..j][i] == given[i];
    }
  }

  /** A proxy keeps the name it wants if and only if no proxy before it has been given that name. */
  lemma {:induction false} FirstHolderKeeps(wanted: seq<string>, given: seq<string>, i: nat)
    requires Renamed(wanted, given) && i < |wanted|
    ensures given[i] == wanted[i] <==> wanted[i] !in given[..i]
  {
    if wanted[i] in given[..i] {
      var first := Uses(wanted[..i], given[..i], wanted[i]) + 1;
      var k: nat :| k >= first && given[i] == Numbered(wanted[i], k) && given[i] !in given[..i] &&
        forall j :: first <= j < k ==> Numbered(wanted[i], j) in given[..i];
      NumberedInjective(wanted[i], k, k);
    }
  }

  ghost predicate AllAre(wanted: seq<string>, name: string) {
    forall i :: 0 <= i < |wanted| ==> wanted[i] == name
  }

  lemma {:induction false} UsesOfOne(wanted: seq<string>, given: seq<string>, name: string)
    requires |wanted| == |given| && AllAre(wanted, name)
    ensures Uses(wanted, given, name) == |wanted|
  {
    if wanted != [] {
      var n := |wanted| - 1;
      UsesOfOne(wanted[..n], given[..n], name);
    }
  }

  /** The i-th name of such a list. */
  function OfOne(name: string, i: nat): string {
    if i == 0 then name else Numbered(name, i + 1)
  }

  /** Proxies that all ask for one name get it, "name #2", "name #3" and so on, in order. */
  lemma {:induction false} AllOfOne(wanted: seq<string>, given: seq<string>, name: string, i: nat)
    requires Renamed(wanted, given) && i < |wanted| && AllAre(wanted, name)
    ensures given[i] == if i == 0 then name else Numbered(name, i + 1)
    decreases i
  {
    forall j | 0 <= j < i
      ensures given[..i][j] == OfOne(name, j)
    {
      AllOfOne(wanted, given, name, j);
    }
    NextOfOne(wanted[..i], given[..i], name, given[i]);
  }

  lemma {:induction false} NextOfOne(wanted: seq<string>, given: seq<string>, name: string, give: string)
    requires |wanted| == |given| && AllAre(wanted, name) && GivenNext(wanted, given, name, give)
    requires forall j :: 0 <= j < |given| ==> given[j] == OfOne(name, j)
    ensures give == OfOne(name, |given|)
  {
    var n := |given|;
    if n > 0 {
      assert given[0] == name;
      UsesOfOne(wanted, given, name);
      NotGiven(given, name, n + 1);
    }
  }

  lemma {:induction false} NotGiven(given: seq<string>, name: string, k: nat)
    requires k > |given| && forall j :: 0 <= j < |given| ==> given[j] == OfOne(name, j)
    ensures Numbered(name, k) !in given
  {
    forall j | 0 <= j < |given|
      ensures given[j] != Numbered(name, k)
    {
      NumberedInjective(name, k, j + 1);
    }
  }

  lemma {:induction false} RenamedSnoc(wanted: seq<string>, given: seq<string>, want: string, give: string)
    requires Renamed(wanted, given) && GivenNext(wanted, given, want, give)
    ensures Renamed(wanted + [want], given + [give])
  {
    var w, g := wanted + [want], given + [give];
    forall i | 0 <= i < |w|
      ensures GivenNext(w[..i], g[..i], w[i], g[i])
    {
      if i < |wanted| {
        assert w[..i] == wanted[..i] && g[..i] == given[..i];
      } else {
        assert w[..i] == wanted && g[..i] == given;
      }
    }
  }

  lemma {:induction false} RenamedInit(wanted: seq<string>, given: seq<string>)
    requires Renamed(wanted, given) && wanted != []
    ensures var n := |wanted| - 1;
      Renamed(wanted[..n], given[..n]) && GivenNext(wanted[..n], given[..n], wanted[n], given[n])
  {
    var n := |wanted| - 1;
    forall i | 0 <= i < n
      ensures GivenNext(wanted[..n][..i], given[..n][..i], wanted[..n][i], given[..n][i])
    {
      assert wanted[..n][..i] == wanted[..i] && given[..n][..i] == given[..i];
    }
  }

  /** A list without two equal names, none of them blank or with blanks around it, stays as it is. */
  lemma {:induction false} DistinctStay(wanted: seq<string>, given: seq<string>)
    requires Renamed(wanted, given)
    requires forall i, j :: 0 <= i < j < |wanted| ==> wanted[i] != wanted[j]
    ensures given == wanted
  {
    if wanted != [] {
      var n := |wanted| - 1;
      RenamedInit(wanted, given);
      DistinctStay(wanted[..n], given[..n]);
      assert wanted[n] !in wanted[..n];
      assert wanted == wanted[..n] + [wanted[n]] && given == given[..n] + [given[n]];
    }
  }

  /** One turn of the loop. */
  method Rename(proxies: array<Proxy>, i: nat, seen: map<string, nat>, ghost wanted: seq<string>,
                ghost given: seq<string>)
    returns (seen': map<string, nat>, ghost give: string)
    requires i < proxies.Length && Tells(seen, wanted, given)
    modifies proxies
    ensures forall k :: 0 <= k < proxies.Length && k != i ==> proxies[k] == old(proxies[k])
    ensures proxies[i] == old(proxies[i])["name" := give]
    ensures GivenNext(wanted, given, Wanted(old(proxies[i])), give)
    ensures Tells(seen', wanted + [Wanted(old(proxies[i]))], given + [give])
  {
    var proxy := proxies[i];
    var name := TrimSpace(if "name" in proxy then proxy["name"] else "");
    if name == "" {
      name := "proxy";
    }
    var count := if name in seen then seen[name] else 0;
    seen' := seen[name := count + 1];
    if count == 0 {
      proxies[i] := proxy["name" := name];
      give := name;
      TellsNext(seen, wanted, given, name, name);
      assert seen' == seen[name := 1][name := 1];
      return;
    }
    var next;
    ghost var k;
    next, k := FirstFree(seen', name, count + 1);
    TellsNext(seen, wanted, given, name, next);
    seen' := seen'[next := 1];
    proxies[i] := proxy["name" := next];
    give := next;
  }

  /** What has become of the list when i names have been given. */
  ghost predicate Given(before: seq<Proxy>, now: seq<Proxy>, i: nat, given: seq<string>) {
    && |now| == |before| && i == |given| <= |before|
    && (forall k :: 0 <= k < i ==> now[k] == before[k]["name" := given[k]])
    && (forall k :: i <= k < |before| ==> now[k] == before[k])
  }

  /** One turn of the loop over the list. */
  method RenameNext(proxies: array<Proxy>, i: nat, seen: map<string, nat>,
                    ghost before: seq<Proxy>, ghost asked: seq<string>, ghost given: seq<string>)
    returns (seen': map<string, nat>, ghost give: string)
    requires i < proxies.Length && Given(before, proxies[..], i, given)
    requires Tells(seen, asked, given)
    modifies proxies
    ensures Given(before, proxies[..], i + 1, given + [give])
    ensures Tells(seen', asked + [Wanted(before[i])], given + [give])
    ensures GivenNext(asked, given, Wanted(before[i]), give)
  {
    ghost var now := proxies[..];
    assert proxies[i] == now[i] == before[i];
    seen', give := Rename(proxies, i, seen, asked, given);
    assert proxies[..] == now[i := before[i]["name" := give]];
  }

  /** The loop over the list. */
  method RenameAll(proxies: array<Proxy>, ghost before: seq<Proxy>) returns (ghost given: seq<string>,
                   ghost asked: seq<string>)
    requires before == proxies[..]
    modifies proxies
    ensures Given(before, proxies[..], proxies.Length, given)
    ensures asked == WantedOf(before) && Renamed(asked, given)
  {
    var seen: map<string, nat> := map[];
    asked, given := [], [];
    for i := 0 to proxies.Length
      invariant |asked| == i && forall k :: 0 <= k < i ==> asked[k] == Wanted(before[k])
      invariant Tells(seen, asked, given)
      invariant Renamed(asked, given)
      invariant Given(before, proxies[..], i, given)
    {
      ghost var give;
      seen, give := RenameNext(proxies, i, seen, before, asked, given);
      RenamedSnoc(asked, given, Wanted(before[i]), give);
      asked := asked + [Wanted(before[i])];
      given := given + [give];
    }
  }

  /** Afterwards all names are different, each as Renamed says; nothing else has changed. */
  method EnsureUniqueClashNames(proxies: array<Proxy>) returns (ghost given: seq<string>)
    modifies proxies
    ensures |given| == proxies.Length
    ensures forall i :: 0 <= i < proxies.Length ==> proxies[i] == old(proxies[i])["name" := given[i]]
    ensures Renamed(WantedOf(old(proxies[..])), given)
    ensures forall i, j :: 0 <= i < j < proxies.Length ==> proxies[i]["name"] != proxies[j]["name"]
  {
    ghost var before := proxies[..];
    ghost var asked;
    given, asked := RenameAll(proxies, before);
    AllDifferent(WantedOf(before), given);
    ghost var now := proxies[..];
    assert forall i :: 0 <= i < proxies.Length ==> proxies[i] == now[i];
  }
}
