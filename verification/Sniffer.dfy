/** Guessing the protocol of a connection from its first bytes, with fewer and fewer candidates. */
module Sniffer {
  import opened Sequences

  datatype Network = TCP | UDP

  datatype Candidate = Candidate(id: nat, metadata: bool, network: Network)

  /** A candidate's answer. Reject is an answer without result, or any other error. */
  datatype Verdict = NoClue | NeedMore | Found(protocol: string) | Reject

  /** Unknown is errUnknownContent. */
  datatype Outcome = Sniffed(protocol: string) | MoreData | Clueless | Unknown

  type Payload = seq<int>

  /** What the candidates say; the connection's other data does not change, and is left out. */
  type Say = (Candidate, Payload) -> Verdict

  predicate Plays(c: Candidate, network: Network) {
    !c.metadata && c.network == network
  }

  predicate Ends(v: Verdict) {
    v.Found? || v.NeedMore?
  }

  /** Those that answered that they have no clue. */
  function Pending(say: Say, list: seq<Candidate>, payload: Payload, network: Network): seq<Candidate> {
    if list == [] then []
    else
      var rest := Pending(say, list[1..], payload, network);
      if Plays(list[0], network) && say(list[0], payload) == NoClue then [list[0]] + rest else rest
  }

  /** The first candidate that ends the round. */
  function Decided(say: Say, list: seq<Candidate>, payload: Payload, network: Network): (r: Option<Candidate>)
    ensures r.Some? ==> r.value in list && Plays(r.value, network) && Ends(say(r.value, payload))
    ensures r.None? <==> forall c :: c in list && Plays(c, network) ==> !Ends(say(c, payload))
  {
    if list == [] then None
    else
      var c := list[0];
      assert list == [c] + list[1..];
      if Plays(c, network) && Ends(say(c, payload)) then Some(c)
      else Decided(say, list[1..], payload, network)
  }

  /** The round has come to candidate i, and these have no clue. */
  ghost predicate Asked(say: Say, list: seq<Candidate>, payload: Payload, network: Network, i: nat,
                        pending: seq<Candidate>)
    requires i <= |list|
  {
    && Decided(say, list, payload, network) == Decided(say, list[i..], payload, network)
    && Pending(say, list, payload, network) == pending + Pending(say, list[i..], payload, network)
  }

  lemma {:induction false} AskNext(say: Say, list: seq<Candidate>, payload: Payload, network: Network, i: nat,
                                   pending: seq<Candidate>)
    requires i < |list| && Asked(say, list, payload, network, i, pending)
    ensures var c := list[i];
      if Plays(c, network) && Ends(say(c, payload)) then Decided(say, list, payload, network) == Some(c)
      else if Plays(c, network) && say(c, payload) == NoClue then
        Asked(say, list, payload, network, i + 1, pending + [c])
      else Asked(say, list, payload, network, i + 1, pending)
  {
    assert list[i..][1..] == list[i + 1..];
    Associate(pending, [list[i]], Pending(say, list[i + 1..], payload, network));
  }

  function Judged(say: Say, list: seq<Candidate>, payload: Payload, network: Network): Outcome {
    match Decided(say, list, payload, network)
    case Some(c) => if say(c, payload).Found? then Sniffed(say(c, payload).protocol) else MoreData
    case None => if Pending(say, list, payload, network) == [] then Unknown else Clueless
  }

  function Left(say: Say, list: seq<Candidate>, payload: Payload, network: Network): seq<Candidate> {
    match Judged(say, list, payload, network)
    case MoreData => [Decided(say, list, payload, network).value]
    case Clueless => Pending(say, list, payload, network)
    case _ => list
  }

  // ---- The metadata round --------------------------------------------------------------------

  function MetaPending(say: Say, list: seq<Candidate>): seq<Candidate> {
    if list == [] then []
    else
      var rest := MetaPending(say, list[1..]);
      if !list[0].metadata || say(list[0], []) == NoClue then [list[0]] + rest else rest
  }

  /** The first protocol the metadata candidates find. */
  function MetaFound(say: Say, list: seq<Candidate>): Option<string> {
    if list == [] then None
    else if list[0].metadata && say(list[0], []).Found? then Some(say(list[0], []).protocol)
    else MetaFound(say, list[1..])
  }

  /** The metadata round has come to candidate i, and these stay. */
  ghost predicate MetaAsked(say: Say, list: seq<Candidate>, i: nat, pending: seq<Candidate>)
    requires i <= |list|
  {
    && MetaFound(say, list) == MetaFound(say, list[i..])
    && MetaPending(say, list) == pending + MetaPending(say, list[i..])
  }

  lemma {:induction false} MetaAskNext(say: Say, list: seq<Candidate>, i: nat, pending: seq<Candidate>)
    requires i < |list| && MetaAsked(say, list, i, pending)
    ensures var c := list[i];
      if c.metadata && say(c, []).Found? then MetaFound(say, list) == Some(say(c, []).protocol)
      else MetaAsked(say, list, i + 1, if !c.metadata || say(c, []) == NoClue then pending + [c] else pending)
  {
    assert list[i..][1..] == list[i + 1..];
    Associate(pending, [list[i]], MetaPending(say, list[i + 1..]));
  }

  function MetaJudged(say: Say, list: seq<Candidate>): Outcome {
    match MetaFound(say, list)
    case Some(p) => Sniffed(p)
    case None => if MetaPending(say, list) == [] then Unknown else Clueless
  }

  function MetaLeft(say: Say, list: seq<Candidate>): seq<Candidate> {
    if MetaJudged(say, list) == Clueless then MetaPending(say, list) else list
  }

  // ---- What the rounds answer ----------------------------------------------------------------

  /** Candidate i is the first that has found its protocol, or asks for more of the payload. */
  ghost predicate FirstToEnd(say: Say, list: seq<Candidate>, payload: Payload, network: Network, i: int) {
    && 0 <= i < |list| && EndsFor(say, list[i], payload, network)
    && forall j :: 0 <= j < i ==> !EndsFor(say, list[j], payload, network)
  }

  predicate EndsFor(say: Say, c: Candidate, payload: Payload, network: Network) {
    !c.metadata && c.network == network && (say(c, payload).Found? || say(c, payload).NeedMore?)
  }

  predicate HasNoClue(say: Say, c: Candidate, payload: Payload, network: Network) {
    !c.metadata && c.network == network && say(c, payload).NoClue?
  }

  /** left is list without those that are not kept. */
  ghost predicate Keeps(left: seq<Candidate>, list: seq<Candidate>, kept: Candidate -> bool) {
    && Subsequence(left, list)
    && forall c :: multiset(left)[c] == if kept(c) then multiset(list)[c] else 0
  }

  /** The answer of a round, and who is left after it. */
  ghost predicate Answers(say: Say, list: seq<Candidate>, payload: Payload, network: Network,
                          r: Outcome, left: seq<Candidate>) {
    match r
    case Sniffed(p) =>
      left == list && exists i :: FirstToEnd(say, list, payload, network, i) && say(list[i], payload) == Found(p)
    case MoreData =>
      exists i :: FirstToEnd(say, list, payload, network, i) && say(list[i], payload) == NeedMore && left == [list[i]]
    case Clueless =>
      && (forall c :: c in list ==> !EndsFor(say, c, payload, network))
      && (exists c :: c in list && HasNoClue(say, c, payload, network))
      && Keeps(left, list, c => HasNoClue(say, c, payload, network))
    case Unknown =>
      && left == list
      && forall c :: c in list ==> !EndsFor(say, c, payload, network) && !HasNoClue(say, c, payload, network)
  }

  lemma {:induction false} DecidedFirst(say: Say, list: seq<Candidate>, payload: Payload, network: Network)
    returns (i: nat)
    requires Decided(say, list, payload, network).Some?
    ensures FirstToEnd(say, list, payload, network, i) && Decided(say, list, payload, network) == Some(list[i])
  {
    if EndsFor(say, list[0], payload, network) {
      i := 0;
    } else {
      var k := DecidedFirst(say, list[1..], payload, network);
      i := k + 1;
      forall j | 0 <= j < i
        ensures !EndsFor(say, list[j], payload, network)
      {
        assert j > 0 ==> list[j] == list[1..][j - 1];
      }
    }
  }

  lemma {:induction false} PendingKeeps(say: Say, list: seq<Candidate>, payload: Payload, network: Network)
    ensures Keeps(Pending(say, list, payload, network), list, c => HasNoClue(say, c, payload, network))
  {
    PendingShrinks(say, list, payload, network);
    PendingCount(say, list, payload, network);
  }

  lemma {:induction false} PendingCount(say: Say, list: seq<Candidate>, payload: Payload, network: Network)
    ensures forall c :: multiset(Pending(say, list, payload, network))[c]
                     == if HasNoClue(say, c, payload, network) then multiset(list)[c] else 0
  {
    if list != [] {
      PendingCount(say, list[1..], payload, network);
      assert list == [list[0]] + list[1..];
    }
  }

  lemma {:induction false} InList(list: seq<Candidate>)
    ensures forall c :: c in list <==> multiset(list)[c] > 0
  {
  }

  /** What Judged and Left compute is just that. */
  lemma {:induction false} JudgedAnswers(say: Say, list: seq<Candidate>, payload: Payload, network: Network)
    ensures Answers(say, list, payload, network, Judged(say, list, payload, network), Left(say, list, payload, network))
  {
    if Decided(say, list, payload, network).Some? {
      var i := DecidedFirst(say, list, payload, network);
    } else {
      PendingKeeps(say, list, payload, network);
      SomePending(say, list, payload, network);
    }
  }

  lemma {:induction false} SomePending(say: Say, list: seq<Candidate>, payload: Payload, network: Network)
    ensures Pending(say, list, payload, network) == [] <==>
      forall c :: c in list ==> !HasNoClue(say, c, payload, network)
  {
    var pending := Pending(say, list, payload, network);
    PendingCount(say, list, payload, network);
    InList(list);
    InList(pending);
    if pending != [] {
      assert pending[0] in pending;
    }
  }

  /** In particular, when a protocol is found. */
  lemma {:induction false} JudgedSniffed(say: Say, list: seq<Candidate>, payload: Payload, network: Network, p: string)
    ensures Judged(say, list, payload, network) == Sniffed(p) <==>
      exists i :: FirstToEnd(say, list, payload, network, i) && say(list[i], payload) == Found(p)
  {
    if Decided(say, list, payload, network).Some? {
      var k := DecidedFirst(say, list, payload, network);
      forall i | FirstToEnd(say, list, payload, network, i)
        ensures i == k
      {
        assert !(i < k) && !(k < i);
      }
    } else {
      forall i | FirstToEnd(say, list, payload, network, i)
        ensures list[i] in list
      {
      }
    }
  }

  predicate Stays(say: Say, c: Candidate) {
    !c.metadata || say(c, []).NoClue?
  }

  ghost predicate FirstFound(say: Say, list: seq<Candidate>, i: int) {
    && 0 <= i < |list| && list[i].metadata && say(list[i], []).Found?
    && forall j :: 0 <= j < i ==> !(list[j].metadata && say(list[j], []).Found?)
  }

  /** The same for the metadata round, in which the other candidates are not asked and stay. */
  ghost predicate MetaAnswers(say: Say, list: seq<Candidate>, r: Outcome, left: seq<Candidate>) {
    match r
    case Sniffed(p) => left == list && exists i :: FirstFound(say, list, i) && say(list[i], []) == Found(p)
    case MoreData => false
    case Clueless =>
      && (forall c :: c in list && c.metadata ==> !say(c, []).Found?)
      && (exists c :: c in list && Stays(say, c)) && Keeps(left, list, c => Stays(say, c))
    case Unknown =>
      left == list && forall c :: c in list ==> !Stays(say, c) && !say(c, []).Found?
  }

  lemma {:induction false} MetaFoundFirst(say: Say, list: seq<Candidate>) returns (i: int)
    ensures MetaFound(say, list).None? ==> forall c :: c in list && c.metadata ==> !say(c, []).Found?
    ensures MetaFound(say, list).Some? ==>
      FirstFound(say, list, i) && say(list[i], []) == Found(MetaFound(say, list).value)
  {
    i := 0;
    if list != [] && !(list[0].metadata && say(list[0], []).Found?) {
      var k := MetaFoundFirst(say, list[1..]);
      i := k + 1;
      assert list == [list[0]] + list[1..];
      if MetaFound(say, list).Some? {
        forall j | 0 <= j < i
          ensures !(list[j].metadata && say(list[j], []).Found?)
        {
          assert j > 0 ==> list[j] == list[1..][j - 1];
        }
      }
    }
  }

  lemma {:induction false} MetaPendingCount(say: Say, list: seq<Candidate>)
    ensures forall c :: multiset(MetaPending(say, list))[c] == if Stays(say, c) then multiset(list)[c] else 0
  {
    if list != [] {
      MetaPendingCount(say, list[1..]);
      assert list == [list[0]] + list[1..];
    }
  }

  lemma {:induction false} MetaJudgedAnswers(say: Say, list: seq<Candidate>)
    ensures MetaAnswers(say, list, MetaJudged(say, list), MetaLeft(say, list))
  {
    var i := MetaFoundFirst(say, list);
    var pending := MetaPending(say, list);
    MetaPendingShrinks(say, list);
    MetaPendingCount(say, list);
    InList(list);
    InList(pending);
    if pending != [] {
      assert pending[0] in pending;
    }
  }

  // ---- The sniffer ---------------------------------------------------------------------------

  class Sniffer {
    const say: Say
    var sniffer: seq<Candidate>

    constructor (say: Say, sniffer: seq<Candidate>)
      ensures this.say == say && this.sniffer == sniffer
    {
      this.say := say;
      this.sniffer := sniffer;
    }

    method Sniff(payload: Payload, network: Network) returns (r: Outcome)
      modifies this
      ensures r == Judged(say, old(sniffer), payload, network)
      ensures sniffer == Left(say, old(sniffer), payload, network)
      ensures Answers(say, old(sniffer), payload, network, r, sniffer)
    {
      JudgedAnswers(say, sniffer, payload, network);
      var list, pending: seq<Candidate> := sniffer, [];
      for i := 0 to |list|
        invariant unchanged(this)
        invariant Asked(say, list, payload, network, i, pending)
      {
        var si := list[i];
        AskNext(say, list, payload, network, i, pending);
        if si.metadata || si.network != network {
          continue;
        }
        match say(si, payload) {
          case NoClue =>
            pending := pending + [si];
          case NeedMore =>
            sniffer := [si];
            return MoreData;
          case Found(p) =>
            return Sniffed(p);
          case Reject =>
        }
      }
      if |pending| > 0 {
        sniffer := pending;
        return Clueless;
      }
      return Unknown;
    }

    method SniffMetadata() returns (r: Outcome)
      modifies this
      ensures r == MetaJudged(say, old(sniffer))
      ensures sniffer == MetaLeft(say, old(sniffer))
      ensures MetaAnswers(say, old(sniffer), r, sniffer)
    {
      MetaJudgedAnswers(say, sniffer);
      var list, pending: seq<Candidate> := sniffer, [];
      for i := 0 to |list|
        invariant unchanged(this)
        invariant MetaAsked(say, list, i, pending)
      {
        var si := list[i];
        MetaAskNext(say, list, i, pending);
        if !si.metadata {
          pending := pending + [si];
          continue;
        }
        match say(si, []) {
          case NoClue =>
            pending := pending + [si];
          case Found(p) =>
            return Sniffed(p);
          case _ =>
        }
      }
      if |pending| > 0 {
        sniffer := pending;
        return Clueless;
      }
      return Unknown;
    }
  }

  // ---- Only shrinking ------------------------------------------------------------------------

  /** a is b without some of its candidates. */
  predicate Subsequence(a: seq<Candidate>, b: seq<Candidate>) {
    a == [] || (b != [] && (if a[0] == b[0] then Subsequence(a[1..], b[1..]) else Subsequence(a, b[1..])))
  }

  lemma {:induction false} SubsequenceTail(a: seq<Candidate>, b: seq<Candidate>)
    requires a != [] && Subsequence(a, b)
    ensures Subsequence(a[1..], b)
    decreases |b|
  {
    if a[0] != b[0] {
      SubsequenceTail(a, b[1..]);
      SkipFirst(a[1..], b);
    } else {
      SkipFirst(a[1..], b);
    }
  }

  lemma {:induction false} SkipFirst(a: seq<Candidate>, b: seq<Candidate>)
    requires b != [] && Subsequence(a, b[1..])
    ensures Subsequence(a, b)
    decreases |b|, 0
  {
    if a != [] && a[0] == b[0] {
      SubsequenceTail(a, b[1..]);
    }
  }

  lemma {:induction false} SubsequenceOf(a: seq<Candidate>, b: seq<Candidate>, c: seq<Candidate>)
    requires Subsequence(a, b) && Subsequence(b, c)
    ensures Subsequence(a, c)
    decreases |c|
  {
    if a != [] {
      if b[0] != c[0] {
        SubsequenceOf(a, b, c[1..]);
        SkipFirst(a, c);
      } else if a[0] == b[0] {
        SubsequenceOf(a[1..], b[1..], c[1..]);
      } else {
        SubsequenceOf(a, b[1..], c[1..]);
      }
    }
  }

  lemma {:induction false} Whole(a: seq<Candidate>)
    ensures Subsequence(a, a)
  {
    if a != [] {
      Whole(a[1..]);
    }
  }

  lemma {:induction false} PendingShrinks(say: Say, list: seq<Candidate>, payload: Payload, network: Network)
    ensures Subsequence(Pending(say, list, payload, network), list)
  {
    if list != [] {
      PendingShrinks(say, list[1..], payload, network);
      SkipFirst(Pending(say, list[1..], payload, network), list);
    }
  }

  lemma {:induction false} MetaPendingShrinks(say: Say, list: seq<Candidate>)
    ensures Subsequence(MetaPending(say, list), list)
  {
    if list != [] {
      MetaPendingShrinks(say, list[1..]);
      SkipFirst(MetaPending(say, list[1..]), list);
    }
  }

  lemma {:induction false} OneShrinks(c: Candidate, list: seq<Candidate>)
    requires c in list
    ensures Subsequence([c], list)
  {
    assert list == [list[0]] + list[1..];
    if list[0] != c {
      OneShrinks(c, list[1..]);
    }
  }

  lemma {:induction false} Members(a: seq<Candidate>, b: seq<Candidate>)
    requires Subsequence(a, b)
    ensures forall c :: c in a ==> c in b
    decreases |b|
  {
    if a != [] {
      if a[0] == b[0] {
        Members(a[1..], b[1..]);
        assert a == [a[0]] + a[1..];
      } else {
        Members(a, b[1..]);
      }
    }
  }

  // ---- Narrowing loses nothing ---------------------------------------------------------------

  /** A rejection stays one when more of the payload is there. */
  ghost predicate Monotone(say: Say, list: seq<Candidate>, network: Network) {
    forall c, p: Payload, q: Payload ::
      c in list && Plays(c, network) && p <= q && say(c, p) == Reject ==> say(c, q) == Reject
  }

  /** A candidate asks for more only when, from then on, no other one will end a round. */
  ghost predicate Exclusive(say: Say, list: seq<Candidate>, network: Network) {
    forall c, d, p: Payload, q: Payload ::
      c in list && d in list && Plays(c, network) && Plays(d, network) && c != d && p <= q && say(c, p) == NeedMore
      ==> !Ends(say(d, q))
  }

  /** The two differ at most in how they say that nothing was found. */
  predicate Agrees(narrowed: Outcome, full: Outcome) {
    narrowed == full || (narrowed == Unknown && full == Clueless)
  }

  /** Those without a clue answer as all of them would. */
  lemma {:induction false} PendingSuffice(say: Say, list: seq<Candidate>, p: Payload, q: Payload, network: Network)
    requires p <= q && Monotone(say, list, network) && Decided(say, list, p, network) == None
    ensures Judged(say, Pending(say, list, p, network), q, network) == Judged(say, list, q, network)
  {
    PendingTwice(say, list, p, q, network);
  }

  lemma {:induction false} PendingTwice(say: Say, list: seq<Candidate>, p: Payload, q: Payload, network: Network)
    requires p <= q && Monotone(say, list, network) && Decided(say, list, p, network) == None
    ensures Decided(say, Pending(say, list, p, network), q, network) == Decided(say, list, q, network)
    ensures Pending(say, Pending(say, list, p, network), q, network) == Pending(say, list, q, network)
  {
    if list != [] {
      var c, rest := list[0], list[1..];
      assert list == [c] + rest;
      PendingTwice(say, rest, p, q, network);
      var pending := Pending(say, rest, p, network);
      assert ([c] + pending)[1..] == pending;
      if Plays(c, network) && say(c, p) != NoClue {
        assert say(c, q) == Reject;
      }
    }
  }

  /** The one that asked for more answers as all of them would. */
  lemma {:induction false} OneSuffices(say: Say, list: seq<Candidate>, c: Candidate, p: Payload, q: Payload,
                                       network: Network)
    requires c in list && Plays(c, network) && say(c, p) == NeedMore && p <= q && Exclusive(say, list, network)
    ensures Agrees(Judged(say, [c], q, network), Judged(say, list, q, network))
  {
    OnlyOneEnds(say, list, c, q, network);
    OnlyOneEnds(say, [c], c, q, network);
    assert [c][1..] == [] && Pending(say, [], q, network) == [];
    assert Pending(say, [c], q, network) == if say(c, q) == NoClue then [c] else [];
  }

  lemma {:induction false} OnlyOneEnds(say: Say, list: seq<Candidate>, c: Candidate, q: Payload, network: Network)
    requires Plays(c, network)
    requires forall d :: d in list && Plays(d, network) && d != c ==> !Ends(say(d, q))
    ensures Decided(say, list, q, network) == if c in list && Ends(say(c, q)) then Some(c) else None
    ensures c in list && say(c, q) == NoClue ==> Pending(say, list, q, network) != []
  {
    if list != [] {
      assert list == [list[0]] + list[1..];
      OnlyOneEnds(say, list[1..], c, q, network);
    }
  }

  /** The metadata round has no influence on the later ones. */
  lemma {:induction false} MetaKeepsPlayers(say: Say, list: seq<Candidate>, q: Payload, network: Network)
    ensures Judged(say, MetaLeft(say, list), q, network) == Judged(say, list, q, network)
  {
    MetaKeepsDecided(say, list, q, network);
  }

  lemma {:induction false} MetaKeepsDecided(say: Say, list: seq<Candidate>, q: Payload, network: Network)
    ensures Decided(say, MetaPending(say, list), q, network) == Decided(say, list, q, network)
    ensures Pending(say, MetaPending(say, list), q, network) == Pending(say, list, q, network)
  {
    if list != [] {
      MetaKeepsDecided(say, list[1..], q, network);
      var rest := MetaPending(say, list[1..]);
      assert ([list[0]] + rest)[1..] == rest;
    }
  }

  // ---- Every run -----------------------------------------------------------------------------

  datatype Call = Meta | Bytes(payload: Payload)

  function After(say: Say, list: seq<Candidate>, calls: seq<Call>, network: Network): seq<Candidate> {
    if calls == [] then list
    else
      var n := |calls| - 1;
      var was := After(say, list, calls[..n], network);
      match calls[n]
      case Meta => MetaLeft(say, was)
      case Bytes(p) => Left(say, was, p, network)
  }

  /** Every payload begins with the ones before it, and the next one, q, does too. */
  ghost predicate GrowingTo(calls: seq<Call>, q: Payload) {
    calls != [] ==>
      var n := |calls| - 1;
      match calls[n]
      case Meta => GrowingTo(calls[..n], q)
      case Bytes(p) => p <= q && GrowingTo(calls[..n], p)
  }

  lemma {:induction false} GrowsFurther(calls: seq<Call>, p: Payload, q: Payload)
    requires GrowingTo(calls, p) && p <= q
    ensures GrowingTo(calls, q)
  {
    if calls != [] && calls[|calls| - 1].Meta? {
      GrowsFurther(calls[..|calls| - 1], p, q);
    }
  }

  lemma {:induction false} OnlyShrinks(say: Say, list: seq<Candidate>, calls: seq<Call>, network: Network)
    ensures Subsequence(After(say, list, calls, network), list)
  {
    if calls == [] {
      Whole(list);
    } else {
      var n := |calls| - 1;
      OnlyShrinks(say, list, calls[..n], network);
      var was := After(say, list, calls[..n], network);
      Whole(was);
      match calls[n] {
        case Meta =>
          MetaPendingShrinks(say, was);
        case Bytes(p) =>
          PendingShrinks(say, was, p, network);
          if Decided(say, was, p, network).Some? {
            OneShrinks(Decided(say, was, p, network).value, was);
          }
      }
      SubsequenceOf(After(say, list, calls, network), was, list);
    }
  }

  /** One call, seen from a later payload. */
  lemma {:induction false} CallSuffices(say: Say, list: seq<Candidate>, p: Payload, q: Payload, network: Network)
    requires Monotone(say, list, network) && Exclusive(say, list, network) && p <= q
    ensures Agrees(Judged(say, Left(say, list, p, network), q, network), Judged(say, list, q, network))
  {
    match Judged(say, list, p, network) {
      case MoreData => OneSuffices(say, list, Decided(say, list, p, network).value, p, q, network);
      case Clueless => PendingSuffice(say, list, p, q, network);
      case _ =>
    }
  }

  /** Over every run of growing payloads on one network, with metadata rounds anywhere, the candidates
      that are left answer what all of them would answer to the whole payload. */
  lemma {:induction false} NarrowingIsSound(say: Say, list: seq<Candidate>, calls: seq<Call>, q: Payload,
                                            network: Network)
    requires Monotone(say, list, network) && Exclusive(say, list, network) && GrowingTo(calls, q)
    ensures Agrees(Judged(say, After(say, list, calls, network), q, network), Judged(say, list, q, network))
    ensures forall p :: Judged(say, After(say, list, calls, network), q, network) == Sniffed(p) <==>
      exists i :: FirstToEnd(say, list, q, network, i) && say(list[i], q) == Found(p)
  {
    forall p
      ensures Judged(say, list, q, network) == Sniffed(p) <==>
        exists i :: FirstToEnd(say, list, q, network, i) && say(list[i], q) == Found(p)
    {
      JudgedSniffed(say, list, q, network, p);
    }
    NarrowedAgrees(say, list, calls, q, network);
  }

  lemma {:induction false} NarrowedAgrees(say: Say, list: seq<Candidate>, calls: seq<Call>, q: Payload,
                                          network: Network)
    requires Monotone(say, list, network) && Exclusive(say, list, network) && GrowingTo(calls, q)
    ensures Agrees(Judged(say, After(say, list, calls, network), q, network), Judged(say, list, q, network))
  {
    if calls != [] {
      var n := |calls| - 1;
      var was := After(say, list, calls[..n], network);
      if calls[n].Bytes? {
        GrowsFurther(calls[..n], calls[n].payload, q);
      }
      NarrowedAgrees(say, list, calls[..n], q, network);
      match calls[n] {
        case Meta =>
          MetaKeepsPlayers(say, was, q, network);
        case Bytes(p) =>
          OnlyShrinks(say, list, calls[..n], network);
          Members(was, list);
          CallSuffices(say, was, p, q, network);
      }
    }
  }
}
