/** The state that the reader and the writer of one connection share. */
module Traffic {
  import opened Bytes
  import opened Detector
  import opened Framing

  /** InboundState and OutboundState: each serves a reader of one direction and a writer of the other. */
  datatype Link = Link(
    within: bool,        // WithinPaddingBuffers
    readDirect: bool,    // UplinkReaderDirectCopy / DownlinkReaderDirectCopy
    parser: Parser,
    isPadding: bool,
    writeDirect: bool)   // DownlinkWriterDirectCopy / UplinkWriterDirectCopy

  const FRESH_LINK := Link(true, false, START, true, false)

  /** Buffer.Write: copies what still fits. */
  function Write(b: Buffer, data: seq<Byte>): (r: Buffer)
    ensures |b| + |data| <= SIZE ==> r == b + data
  {
    b + data[..if |b| + |data| <= SIZE then |data| else SIZE - |b|]
  }

  /** What is still to come from state p, after done has been delivered, completes goal. */
  ghost predicate Leads(p: Parser, rest: seq<Byte>, done: seq<Byte>, goal: (Parser, seq<Byte>)) {
    ValidParser(p) && goal.0 == Unpad(p, rest).0 && goal.1 == done + Unpad(p, rest).1
  }

  lemma {:induction false} HeaderTurn(p: Parser, rest: seq<Byte>, done: seq<Byte>, goal: (Parser, seq<Byte>))
    requires Leads(p, rest, done, goal) && rest != [] && p.header > 0
    ensures Leads(Settle(HeaderByte(p, rest[0])), rest[1..], done, goal)
  {
    SilentStep(p, rest);
  }

  lemma {:induction false} ContentTurn(p: Parser, rest: seq<Byte>, done: seq<Byte>, goal: (Parser, seq<Byte>), n: nat)
    requires Leads(p, rest, done, goal) && p.header <= 0 && 0 < n <= p.content && n <= |rest|
    ensures Leads(Settle(p.(content := p.content - n)), rest[n..], done + rest[..n], goal)
  {
    ContentRun(p, rest, n);
    var more := Unpad(Settle(p.(content := p.content - n)), rest[n..]).1;
    assert done + (rest[..n] + more) == done + rest[..n] + more;
  }

  lemma {:induction false} PaddingTurn(p: Parser, rest: seq<Byte>, done: seq<Byte>, goal: (Parser, seq<Byte>), n: nat)
    requires Leads(p, rest, done, goal) && p.header <= 0 && p.content <= 0 && 0 < n <= p.padding && n <= |rest|
    ensures Leads(Settle(p.(padding := p.padding - n)), rest[n..], done, goal)
  {
    PaddingRun(p, rest, n);
  }

  lemma {:induction false} Arrived(p: Parser, rest: seq<Byte>, done: seq<Byte>, goal: (Parser, seq<Byte>))
    requires Leads(p, rest, done, goal) && (rest == [] || Idle(p))
    ensures goal.0 == p && goal.1 == done + rest
  {
  }

  /** The loop of XtlsUnpadding: header bytes one at a time, content and padding as far as they go. */
  method Strip(start: Parser, b: Buffer) returns (p: Parser, newbuffer: Buffer)
    requires ValidParser(start) && !Idle(start)
    ensures p == Unpad(start, b).0 && newbuffer == Unpad(start, b).1
  {
    ghost var goal := Unpad(start, b);
    p, newbuffer := start, [];
    var rest := b;
    while |rest| > 0
      invariant Leads(p, rest, newbuffer, goal) && !Idle(p)
      invariant |newbuffer| + |rest| <= |b|
      decreases |rest|
    {
      if p.header > 0 {
        HeaderTurn(p, rest, newbuffer, goal);
        var data := rest[0];
        rest := rest[1..];
        p := HeaderByte(p, data);
      } else if p.content > 0 {
        var len := if |rest| < p.content then |rest| else p.content;
        ContentTurn(p, rest, newbuffer, goal, len);
        newbuffer := Write(newbuffer, rest[..len]);
        rest := rest[len..];
        p := p.(content := p.content - len);
      } else {
        var len := if |rest| < p.padding then |rest| else p.padding;
        PaddingTurn(p, rest, newbuffer, goal, len);
        rest := rest[len..];
        p := p.(padding := p.padding - len);
      }
      if p.header <= 0 && p.content <= 0 && p.padding <= 0 {
        if p.command == 0 {
          p := p.(header := 5);
        } else {
          p := Parser(p.command, -1, -1, -1);
          Arrived(p, rest, newbuffer, goal);
          if |rest| > 0 {
            newbuffer := Write(newbuffer, rest);
          }
          return;
        }
      }
    }
    Arrived(p, rest, newbuffer, goal);
  }

  class TrafficState {
    const userUUID: seq<Byte>
    var numberOfPacketToFilter: int
    var enableXtls: bool
    var isTLS12orAbove: bool
    var isTLS: bool
    var cipher: int
    var remainingServerHello: int
    var inbound: Link
    var outbound: Link

    constructor (userUUID: seq<Byte>)
      requires |userUUID| == UUID_LENGTH
      ensures this.userUUID == userUUID && Seen() == INITIAL && Valid()
      ensures inbound == outbound == FRESH_LINK
    {
      this.userUUID := userUUID;
      numberOfPacketToFilter := 8;
      enableXtls, isTLS12orAbove, isTLS := false, false, false;
      cipher := 0;
      remainingServerHello := -1;
      inbound, outbound := FRESH_LINK, FRESH_LINK;
    }

    function Seen(): Detection
      reads this
    {
      Detection(numberOfPacketToFilter, enableXtls, isTLS12orAbove, isTLS, cipher, remainingServerHello)
    }

    ghost predicate Valid()
      reads this
    {
      && |userUUID| == UUID_LENGTH
      && Sound(Seen())
      && ValidParser(inbound.parser) && ValidParser(outbound.parser)
    }

    function ReaderLink(isUplink: bool): Link
      reads this
    {
      if isUplink then inbound else outbound
    }

    function WriterLink(isUplink: bool): Link
      reads this
    {
      if isUplink then outbound else inbound
    }

    method SetReaderLink(isUplink: bool, link: Link)
      modifies this
      ensures ReaderLink(isUplink) == link && ReaderLink(!isUplink) == old(ReaderLink(!isUplink))
      ensures Seen() == old(Seen())
    {
      if isUplink { inbound := link; } else { outbound := link; }
    }

    /** Strips the frames from one buffer and remembers where it stopped. */
    method XtlsUnpadding(b: Buffer, isUplink: bool) returns (r: Buffer)
      requires Valid()
      modifies this
      ensures Valid()
      ensures var (p, out) := Feed(userUUID, old(ReaderLink(isUplink)).parser, b);
        r == out && ReaderLink(isUplink) == old(ReaderLink(isUplink)).(parser := p)
      ensures ReaderLink(!isUplink) == old(ReaderLink(!isUplink)) && Seen() == old(Seen())
    {
      var link := ReaderLink(isUplink);
      var p := link.parser;
      var rest := b;
      if p.header == -1 && p.content == -1 && p.padding == -1 {
        if |b| >= 21 && b[..UUID_LENGTH] == userUUID {
          rest := b[UUID_LENGTH..];
          p := p.(header := 5);
        } else {
          return b;
        }
      }
      p, r := Strip(p, rest);
      SetReaderLink(isUplink, link.(parser := p));
    }

    /** What the six leading bytes say. */
    method ClassifyBuffer(b: Buffer, stale: Stale)
      modifies this
      ensures Seen() == Classify(old(Seen()), b, stale)
      ensures inbound == old(inbound) && outbound == old(outbound)
    {
      if |b| >= 6 {
        if SERVER_HANDSHAKE == b[..3] && b[5] == SERVER_HELLO {
          remainingServerHello := Be16(b[3], b[4]) + 5;
          isTLS12orAbove := true;
          isTLS := true;
          if |b| >= 79 && remainingServerHello >= 79 {
            var sessionIdLen: int := At(b, stale, 43);
            cipher := Be16(At(b, stale, 43 + sessionIdLen + 1), At(b, stale, 43 + sessionIdLen + 2));
          }
        } else if CLIENT_HANDSHAKE == b[..2] && b[5] == CLIENT_HELLO {
          isTLS := true;
        }
      }
    }

    /** The body of the loop below: inspects one buffer and tells whether the verdict is in. */
    method FilterBuffer(b: Buffer, stale: Stale) returns (stop: bool)
      modifies this
      ensures (Seen(), stop) == FilterOne(old(Seen()), b, stale)
      ensures inbound == old(inbound) && outbound == old(outbound)
    {
      numberOfPacketToFilter := numberOfPacketToFilter - 1;
      ClassifyBuffer(b, stale);
      if remainingServerHello > 0 {
        var end := remainingServerHello;
        if end > |b| {
          end := |b|;
        }
        remainingServerHello := remainingServerHello - |b|;
        if Contains(b[..end], SUPPORTED_VERSIONS) {
          if Tls13Cipher(cipher) {
            enableXtls := true;
          }
          numberOfPacketToFilter := 0;
          return true;
        } else if remainingServerHello <= 0 {
          numberOfPacketToFilter := 0;
          return true;
        }
      }
      return false;
    }

    /** Inspects the buffers of one call for TLS handshakes. */
    method XtlsFilterTls(mb: seq<Buffer>, stale: Leftovers)
      requires Valid()
      requires numberOfPacketToFilter > 0
      modifies this
      ensures Valid() && Seen() == Filter(old(Seen()), mb, stale)
      ensures inbound == old(inbound) && outbound == old(outbound)
    {
      FilterKeeps(Seen(), mb, stale);
      for k := 0 to |mb|
        invariant inbound == old(inbound) && outbound == old(outbound)
        invariant Filter(old(Seen()), mb, stale) == Filter(Seen(), mb[k..], stale)
      {
        assert mb[k..][0] == mb[k] && mb[k..][1..] == mb[k + 1..];
        var stop := FilterBuffer(mb[k], stale(|mb| - k));
        if stop {
          return;
        }
      }
    }
  }
}
