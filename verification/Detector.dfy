/** XtlsFilterTls: recognising TLS handshakes in the first packets of a connection, in either direction. */
module Detector {
  import opened Bytes
  import opened Sequences

  const SUPPORTED_VERSIONS: seq<Byte> := [0x00, 0x2b, 0x00, 0x02, 0x03, 0x04]
  const CLIENT_HANDSHAKE: seq<Byte> := [0x16, 0x03]
  const SERVER_HANDSHAKE: seq<Byte> := [0x16, 0x03, 0x03]
  const CLIENT_HELLO: Byte := 0x01
  const SERVER_HELLO: Byte := 0x02

  /** The detection fields of a TrafficState. */
  datatype Detection = Detection(
    packetsLeft: int,  // NumberOfPacketToFilter
    enableXtls: bool,
    tls12orAbove: bool,
    isTls: bool,
    cipher: int,
    helloLeft: int)    // RemainingServerHello

  const INITIAL := Detection(8, false, false, false, 0, -1)

  /** The suites of section B.4 of RFC 8446 with which raw copying is allowed. */
  predicate Tls13Cipher(c: int) {
    0x1301 <= c <= 0x1304
  }

  /** What every run keeps, whatever the traffic. */
  predicate Sound(d: Detection) {
    && (d.enableXtls ==> d.tls12orAbove && Tls13Cipher(d.cipher) && d.packetsLeft <= 0)
    && (d.tls12orAbove ==> d.isTls)
    && (d.helloLeft > 0 ==> d.tls12orAbove)
  }

  /** What was left behind the content of a buffer, by position in its array ... */
  type Stale = nat -> Byte

  /** ... and behind each buffer of a call, counted from the last one, which is number 1. */
  type Leftovers = nat -> Stale

  /** Byte k of the array behind a buffer. */
  function At(b: Buffer, stale: Stale, k: nat): Byte {
    if k < |b| then b[k] else stale(k)
  }

  predicate IsServerHello(b: Buffer) {
    |b| >= 6 && b[..3] == SERVER_HANDSHAKE && b[5] == SERVER_HELLO
  }

  predicate IsClientHello(b: Buffer) {
    |b| >= 6 && b[..2] == CLIENT_HANDSHAKE && b[5] == CLIENT_HELLO
  }

  /** The first half of the loop body: what the six leading bytes say. */
  function Classify(d: Detection, b: Buffer, stale: Stale): Detection {
    if IsServerHello(b) then
      var left := Be16(b[3], b[4]) + 5;
      var sessionId := At(b, stale, 43);
      d.(tls12orAbove := true, isTls := true, helloLeft := left,
      cipher := if |b| >= 79 && left >= 79
      then Be16(At(b, stale, 44 + sessionId), At(b, stale, 45 + sessionId))
      else d.cipher)
    else if IsClientHello(b) then d.(isTls := true)
    else d
  }

  /** The bytes of the buffer that still belong to the server hello. */
  function HelloPart(d: Detection, b: Buffer): seq<Byte>
    requires d.helloLeft > 0
  {
    b[..if d.helloLeft > |b| then |b| else d.helloLeft]
  }

  /** One turn of the loop; the flag tells that the verdict is in and the loop is left. */
  function FilterOne(d: Detection, b: Buffer, stale: Stale): (Detection, bool) {
    var e := Classify(d.(packetsLeft := d.packetsLeft - 1), b, stale);
    if e.helloLeft <= 0 then (e, false)
    else
      var f := e.(helloLeft := e.helloLeft - |b|);
      if Contains(HelloPart(e, b), SUPPORTED_VERSIONS) then
        (f.(packetsLeft := 0, enableXtls := f.enableXtls || Tls13Cipher(f.cipher)), true)
      else if f.helloLeft <= 0 then (f.(packetsLeft := 0), true)
      else (f, false)
  }

  /** A whole multi-buffer, nil entries left out. */
  function Filter(d: Detection, mb: seq<Buffer>, stale: Leftovers): Detection
    decreases |mb|
  {
    if mb == [] then d
    else
      var (e, stop) := FilterOne(d, mb[0], stale(|mb|));
      if stop then e else Filter(e, mb[1..], stale)
  }

  /** Both callers consult the detector only while packets are left to inspect. */
  function Observe(d: Detection, mb: seq<Buffer>, stale: Leftovers): Detection {
    if d.packetsLeft > 0 then Filter(d, mb, stale) else d
  }

  /** d can lead to e: nothing that was recognised is ever taken back. */
  predicate Forward(d: Detection, e: Detection) {
    && (d.isTls ==> e.isTls)
    && (d.tls12orAbove ==> e.tls12orAbove)
    && (d.enableXtls ==> e.enableXtls)
    && (d.packetsLeft > 0 ==> e.packetsLeft <= d.packetsLeft)
    && (d.packetsLeft <= 0 ==> e == d)
  }

  lemma {:induction false} FilterKeeps(d: Detection, mb: seq<Buffer>, stale: Leftovers)
    requires Sound(d) && !d.enableXtls
    ensures var e := Filter(d, mb, stale);
      && Sound(e)
      && (d.isTls ==> e.isTls) && (d.tls12orAbove ==> e.tls12orAbove)
      && (d.packetsLeft > 0 ==> e.packetsLeft <= d.packetsLeft)
      && (d.packetsLeft <= 0 ==> e.packetsLeft <= 0)
    decreases |mb|
  {
    if mb != [] {
      var (e, stop) := FilterOne(d, mb[0], stale(|mb|));
      if !stop {
        FilterKeeps(e, mb[1..], stale);
      }
    }
  }

  /** One call keeps the invariant and moves forward. */
  lemma {:induction false} ObserveKeeps(d: Detection, mb: seq<Buffer>, stale: Leftovers)
    requires Sound(d)
    ensures Sound(Observe(d, mb, stale)) && Forward(d, Observe(d, mb, stale))
  {
    if d.packetsLeft > 0 {
      FilterKeeps(d, mb, stale);
    }
  }

  /** A call, by a reader or a writer. */
  datatype Call = Call(bufs: seq<Buffer>, stale: Leftovers)

  /** Any run of calls, from readers and writers in any order. */
  ghost function ObserveAll(d: Detection, calls: seq<Call>): Detection
    decreases |calls|
  {
    if calls == [] then d else ObserveAll(Observe(d, calls[0].bufs, calls[0].stale), calls[1..])
  }

  /** Safety over every run: the invariant holds throughout, and between any two moments the
      detector has only moved forward; once it is done it is frozen. */
  lemma {:induction false} EveryRun(d: Detection, calls: seq<Call>)
    requires Sound(d)
    ensures Sound(ObserveAll(d, calls)) && Forward(d, ObserveAll(d, calls))
    ensures var e := ObserveAll(d, calls);
      e.enableXtls ==> e.isTls && e.tls12orAbove && 0x1301 <= e.cipher <= 0x1304 && e.packetsLeft <= 0
    decreases |calls|
  {
    if calls != [] {
      ObserveKeeps(d, calls[0].bufs, calls[0].stale);
      EveryRun(Observe(d, calls[0].bufs, calls[0].stale), calls[1..]);
    }
  }

  /** The order of a run can be cut anywhere. */
  lemma {:induction false} RunsCompose(d: Detection, a: seq<Call>, b: seq<Call>)
    ensures ObserveAll(d, a + b) == ObserveAll(ObserveAll(d, a), b)
    decreases |a|
  {
    if a == [] {
      assert a + b == b;
    } else {
      assert (a + b)[1..] == a[1..] + b;
      RunsCompose(Observe(d, a[0].bufs, a[0].stale), a[1..], b);
    }
  }

  // ---- Which hellos are noticed --------------------------------------------------------------

  /** A handshake record that begins with a client hello, in any version, or with a server hello. */
  predicate BeginsClientHello(b: Buffer) {
    |b| >= 6 && b[0] == 0x16 && b[1] == 0x03 && b[5] == 0x01
  }

  predicate BeginsServerHello(b: Buffer) {
    |b| >= 6 && b[0] == 0x16 && b[1] == 0x03 && b[2] == 0x03 && b[5] == 0x02
  }

  lemma {:induction false} HelloBytes(b: Buffer)
    ensures IsClientHello(b) <==> BeginsClientHello(b)
    ensures IsServerHello(b) <==> BeginsServerHello(b)
  {
    if |b| >= 6 {
      assert b[..2] == [b[0], b[1]] && b[..3] == [b[0], b[1], b[2]];
    }
  }

  lemma {:induction false} FilterNotices(d: Detection, mb: seq<Buffer>, stale: Leftovers)
    requires Sound(d) && !d.enableXtls
    ensures var e := Filter(d, mb, stale);
      && (e.isTls <==> d.isTls || exists b :: b in mb && (BeginsClientHello(b) || BeginsServerHello(b)))
      && (e.tls12orAbove <==> d.tls12orAbove || exists b :: b in mb && BeginsServerHello(b))
    decreases |mb|
  {
    if mb != [] {
      var b, more := mb[0], mb[1..];
      HelloBytes(b);
      var (e, stop) := FilterOne(d, b, stale(|mb|));
      assert forall c :: c in mb <==> c == b || c in more;
      if !stop {
        FilterNotices(e, more, stale);
      }
    }
  }

  /** While packets are left, TLS is seen if and only if it was before or some buffer of the call begins with
      a hello; TLS 1.2 or later if and only if it was or some buffer begins with a server hello. */
  lemma {:induction false} TlsExactly(d: Detection, mb: seq<Buffer>, stale: Leftovers)
    requires Sound(d) && d.packetsLeft > 0
    ensures var e := Observe(d, mb, stale);
      && (e.isTls <==> d.isTls || exists b :: b in mb && (BeginsClientHello(b) || BeginsServerHello(b)))
      && (e.tls12orAbove <==> d.tls12orAbove || exists b :: b in mb && BeginsServerHello(b))
  {
    FilterNotices(d, mb, stale);
  }

  /** The cipher suite is read from a server hello that is long enough, and from nothing else. */
  lemma {:induction false} CipherStays(d: Detection, mb: seq<Buffer>, stale: Leftovers)
    requires forall b :: b in mb && BeginsServerHello(b) ==> |b| < 79 || (b[3] as int) * 0x100 + b[4] + 5 < 79
    ensures Filter(d, mb, stale).cipher == d.cipher
    decreases |mb|
  {
    if mb != [] {
      HelloBytes(mb[0]);
      assert mb[0] in mb;
      CipherStays(FilterOne(d, mb[0], stale(|mb|)).0, mb[1..], stale);
    }
  }

  /** Without a server hello, now or before, every buffer counts for one packet. */
  lemma {:induction false} CountsDown(d: Detection, mb: seq<Buffer>, stale: Leftovers)
    requires d.helloLeft <= 0 && forall b :: b in mb ==> !BeginsServerHello(b)
    ensures var e := Filter(d, mb, stale);
      e.packetsLeft == d.packetsLeft - |mb| && e.helloLeft == d.helloLeft && e.enableXtls == d.enableXtls
    decreases |mb|
  {
    if mb != [] {
      HelloBytes(mb[0]);
      CountsDown(FilterOne(d, mb[0], stale(|mb|)).0, mb[1..], stale);
    }
  }

  // ---- What is recognised --------------------------------------------------------------------

  /** The size of one handshake record. */
  function RecordLength(b: Buffer): int
    requires |b| >= 5
  {
    Be16(b[3], b[4]) + 5
  }

  /** The pieces of a hello, left bytes of which are still to come, in the buffers that it is spread over. */
  function HelloParts(left: int, mb: seq<Buffer>): seq<seq<Byte>>
    decreases |mb|
  {
    if mb == [] || left <= 0 then []
    else [mb[0][..if left > |mb[0]| then |mb[0]| else left]] + HelloParts(left - |mb[0]|, mb[1..])
  }

  /** Some piece carries the supported_versions extension of section 4.2.1 of RFC 8446 with TLS 1.3. */
  ghost predicate Tls13InOnePiece(parts: seq<seq<Byte>>) {
    exists p :: p in parts && Contains(p, SUPPORTED_VERSIONS)
  }

  ghost predicate NoServerHello(mb: seq<Buffer>) {
    forall b :: b in mb ==> !IsServerHello(b)
  }

  lemma {:induction false} FirstPiece(p: seq<Byte>, parts: seq<seq<Byte>>)
    ensures Tls13InOnePiece([p] + parts) <==> Contains(p, SUPPORTED_VERSIONS) || Tls13InOnePiece(parts)
  {
    assert Contains(p, SUPPORTED_VERSIONS) ==> p in [p] + parts;
    assert forall q :: q in [p] + parts <==> q == p || q in parts;
  }

  lemma {:induction false} OnePiece(d: Detection, b: Buffer, stale: Stale)
    requires d.helloLeft > 0 && !d.enableXtls && !IsServerHello(b)
    ensures var (e, stop) := FilterOne(d, b, stale); var seen := Contains(HelloPart(d, b), SUPPORTED_VERSIONS);
      && e.cipher == d.cipher && (d.isTls ==> e.isTls) && e.tls12orAbove == d.tls12orAbove
      && (e.enableXtls <==> seen && Tls13Cipher(d.cipher))
      && (stop <==> seen || d.helloLeft <= |b|) && (stop ==> e.packetsLeft == 0)
      && (!stop ==> e.helloLeft == d.helloLeft - |b| && e.packetsLeft == d.packetsLeft - 1)
  {
  }

  /** What becomes of a hello under way: e is the state behind n buffers with length bytes. */
  ghost predicate Heard(d: Detection, e: Detection, seen: bool, n: nat, length: nat) {
    && e.cipher == d.cipher && (e.enableXtls <==> seen && Tls13Cipher(d.cipher))
    && (d.isTls ==> e.isTls) && (d.tls12orAbove ==> e.tls12orAbove)
    && (seen || d.helloLeft <= length ==> e.packetsLeft == 0)
    && (!seen && d.helloLeft > length ==> e.packetsLeft == d.packetsLeft - n && e.helloLeft == d.helloLeft - length)
  }

  /** A hello under way, in one call: the extension is seen if and only if it lies whole in one buffer. */
  lemma {:induction false} RestOfHello(d: Detection, mb: seq<Buffer>, stale: Leftovers)
    requires d.helloLeft > 0 && !d.enableXtls && NoServerHello(mb)
    ensures Heard(d, Filter(d, mb, stale), Tls13InOnePiece(HelloParts(d.helloLeft, mb)), |mb|, |Flat(mb)|)
    decreases |mb|
  {
    if mb != [] {
      var b, more := mb[0], mb[1..];
      var (e, stop) := FilterOne(d, b, stale(|mb|));
      OnePiece(d, b, stale(|mb|));
      FirstPiece(HelloPart(d, b), HelloParts(d.helloLeft - |b|, more));
      if stop {
        assert d.helloLeft <= |b| ==> HelloParts(d.helloLeft - |b|, more) == [];
      } else {
        RestOfHello(e, more, stale);
        HeardBoth(d, e, Filter(e, more, stale), Tls13InOnePiece(HelloParts(e.helloLeft, more)),
                  |b|, |more|, |Flat(more)|);
      }
    }
  }

  lemma {:induction false} HeardBoth(d: Detection, e: Detection, f: Detection, seen: bool, first: nat, n: nat,
                                     length: nat)
    requires Heard(d, e, false, 1, first) && d.helloLeft > first && Heard(e, f, seen, n, length)
    ensures Heard(d, f, seen, n + 1, first + length)
  {
  }

  /** A server hello that begins in a buffer of at least 79 bytes and may go on in others of the same
      call: the cipher suite is the one behind the session id (section 4.1.3 of RFC 8446), and raw
      copying is enabled if and only if it is one of the four allowed and the version extension lies
      whole in one buffer. */
  lemma {:induction false} ServerHelloInOneCall(d: Detection, b: Buffer, rest: seq<Buffer>, stale: Leftovers)
    requires Sound(d) && d.packetsLeft > 0 && IsServerHello(b) && NoServerHello(rest)
    requires 79 <= RecordLength(b) && 79 <= |b| && 46 + b[43] <= |b|
    ensures var e := Observe(d, [b] + rest, stale);
      && e.isTls && e.tls12orAbove && e.cipher == Be16(b[44 + b[43]], b[45 + b[43]])
      && (e.enableXtls <==> Tls13InOnePiece(HelloParts(RecordLength(b), [b] + rest)) && Tls13Cipher(e.cipher))
  {
    var mb := [b] + rest;
    assert mb[0] == b && mb[1..] == rest;
    // the first buffer leaves the detector as if the hello had been under way before it
    var begun := d.(isTls := true, tls12orAbove := true, helloLeft := RecordLength(b),
                    cipher := Be16(b[44 + b[43]], b[45 + b[43]]));
    SameFromHere(d, begun, b, stale(|mb|));
    FirstPiece(HelloPart(begun, b), HelloParts(RecordLength(b) - |b|, rest));
    var (e, stop) := FilterOne(d, b, stale(|mb|));
    if !stop {
      RestOfHello(e, rest, stale);
    }
  }

  lemma {:induction false} SameFromHere(d: Detection, begun: Detection, b: Buffer, stale: Stale)
    requires IsServerHello(b) && !d.enableXtls && 79 <= RecordLength(b) && 79 <= |b| && 46 + b[43] <= |b|
    requires begun == d.(isTls := true, tls12orAbove := true, helloLeft := RecordLength(b),
                         cipher := Be16(b[44 + b[43]], b[45 + b[43]]))
    ensures var (e, stop) := FilterOne(d, b, stale); var seen := Contains(HelloPart(begun, b), SUPPORTED_VERSIONS);
      && e.isTls && e.tls12orAbove && e.cipher == begun.cipher
      && (stop <==> seen || RecordLength(b) <= |b|)
      && (e.enableXtls <==> seen && Tls13Cipher(e.cipher))
      && (!stop ==> e.helloLeft == RecordLength(b) - |b|)
  {
  }

  /** With the whole record in the first buffer, the matter is settled at once. */
  lemma {:induction false} WholeServerHello(d: Detection, b: Buffer, rest: seq<Buffer>, stale: Leftovers)
    requires Sound(d) && d.packetsLeft > 0 && BeginsServerHello(b)
    requires 79 <= (b[3] as int) * 0x100 + b[4] + 5 <= |b| && 46 + b[43] <= |b|
    ensures var e := Observe(d, [b] + rest, stale);
      var length := (b[3] as int) * 0x100 + b[4] + 5;
      var suite := (b[43] as int) + 44;
      && e.packetsLeft == 0 && e.isTls && e.tls12orAbove
      && e.cipher == (b[suite] as int) * 0x100 + b[suite + 1]
      && (e.enableXtls <==> Contains(b[..length], [0x00, 0x2b, 0x00, 0x02, 0x03, 0x04]) && 0x1301 <= e.cipher <= 0x1304)
  {
    HelloBytes(b);
    assert ([b] + rest)[0] == b;
  }

  ghost function AllBuffers(calls: seq<Call>): seq<Buffer>
    decreases |calls|
  {
    if calls == [] then [] else calls[0].bufs + AllBuffers(calls[1..])
  }

  lemma {:induction false} HelloPartsAppend(left: int, a: seq<Buffer>, b: seq<Buffer>)
    ensures HelloParts(left, a + b) == HelloParts(left, a) + HelloParts(left - |Flat(a)|, b)
    decreases |a|
  {
    if a == [] {
      assert a + b == b;
      NothingAdded(HelloParts(left, b));
    } else {
      assert (a + b)[0] == a[0] && (a + b)[1..] == a[1..] + b;
      if left > 0 {
        HelloPartsAppend(left - |a[0]|, a[1..], b);
        Associate([a[0][..if left > |a[0]| then |a[0]| else left]], HelloParts(left - |a[0]|, a[1..]),
                  HelloParts(left - |Flat(a)|, b));
      }
    }
  }

  /** The same over several calls, as long as packets are left to inspect. */
  lemma {:induction false} HelloOverCalls(d: Detection, calls: seq<Call>)
    requires Sound(d) && d.helloLeft > 0 && !d.enableXtls
    requires NoServerHello(AllBuffers(calls)) && d.packetsLeft > |AllBuffers(calls)|
    ensures var e := ObserveAll(d, calls);
      e.enableXtls <==> Tls13InOnePiece(HelloParts(d.helloLeft, AllBuffers(calls))) && Tls13Cipher(d.cipher)
    decreases |calls|
  {
    if calls != [] {
      var mb, more := calls[0].bufs, AllBuffers(calls[1..]);
      var e := Observe(d, mb, calls[0].stale);
      assert forall b :: b in mb || b in more ==> b in AllBuffers(calls);
      RestOfHello(d, mb, calls[0].stale);
      ObserveKeeps(d, mb, calls[0].stale);
      HelloPartsAppend(d.helloLeft, mb, more);
      SomePiece(HelloParts(d.helloLeft, mb), HelloParts(d.helloLeft - |Flat(mb)|, more));
      if e.packetsLeft == 0 {
        EveryRun(e, calls[1..]);
      } else {
        HelloOverCalls(e, calls[1..]);
      }
    }
  }

  lemma {:induction false} SomePiece(a: seq<seq<Byte>>, b: seq<seq<Byte>>)
    ensures Tls13InOnePiece(a + b) <==> Tls13InOnePiece(a) || Tls13InOnePiece(b)
  {
    assert forall p :: p in a + b <==> p in a || p in b;
  }
}
