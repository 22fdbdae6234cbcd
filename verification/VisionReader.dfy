/** VisionReader: strips the frames, and decides after each read how the next one is treated. */
module VisionReader {
  import opened Bytes
  import opened Detector
  import opened Framing
  import opened Traffic
  import opened Sequences

  /** The reader's own part of a link. */
  datatype Side = Side(within: bool, direct: bool, parser: Parser)

  function SideOf(link: Link): Side {
    Side(link.within, link.readDirect, link.parser)
  }

  /** Several buffers through XtlsUnpadding; empty results are dropped. */
  function FeedAll(uuid: seq<Byte>, p: Parser, bs: seq<Buffer>): (r: (Parser, seq<Buffer>))
    requires ValidParser(p)
    ensures ValidParser(r.0)
    decreases |bs|
  {
    if bs == [] then (p, [])
    else
      var (q, out) := Feed(uuid, p, bs[0]);
      FeedIsBuffer(uuid, p, bs[0]);
      var (r, more) := FeedAll(uuid, q, bs[1..]);
      (r, (if |out| > 0 then [out] else []) + more)
  }

  lemma {:induction false} FeedIsBuffer(uuid: seq<Byte>, p: Parser, b: Buffer)
    requires ValidParser(p)
    ensures |Feed(uuid, p, b).1| <= |b|
    ensures Idle(p) && Marked(uuid, b) ==> |Feed(uuid, p, b).1| < |b|
  {
    UnpadShrinks(p, b);
    if Idle(p) && Marked(uuid, b) {
      UnpadShrinks(p.(header := HEADER_LENGTH), b[UUID_LENGTH..]);
    }
  }

  lemma {:induction false} FeedAllSnoc(uuid: seq<Byte>, p: Parser, bs: seq<Buffer>, b: Buffer)
    requires ValidParser(p)
    ensures var (q, outs) := FeedAll(uuid, p, bs); var (r, out) := Feed(uuid, q, b);
      && |out| <= SIZE
      && FeedAll(uuid, p, bs + [b]).0 == r
      && FeedAll(uuid, p, bs + [b]).1 == outs + (if |out| > 0 then [out] else [])
    decreases |bs|
  {
    var (q, outs) := FeedAll(uuid, p, bs);
    FeedIsBuffer(uuid, q, b);
    if bs == [] {
      assert bs + [b] == [b];
    } else {
      assert (bs + [b])[1..] == bs[1..] + [b];
      FeedAllSnoc(uuid, Feed(uuid, p, bs[0]).0, bs[1..], b);
    }
  }

  /** The mode test at the end of a read. */
  function ModeTest(s: Side): Side {
    if s.parser.content > 0 || s.parser.padding > 0 || s.parser.command == 0 then s.(within := true)
    else if s.parser.command == 1 then s.(within := false)
    else if s.parser.command == 2 then s.(within := false, direct := true)
    else s
  }

  /** One read: the buffers it brings, whether packets are still inspected at that time, and what
      the TLS layer holds back (decrypted in input, or not yet in rawInput), which is handed out at
      the moment of the switch. */
  datatype Read = Read(bufs: seq<Buffer>, filtering: bool, spill: seq<Byte>)

  function Strips(s: Side, r: Read): bool {
    Flat(r.bufs) != [] && !s.direct && (s.within || r.filtering)
  }

  /** The side after a read. */
  function Next(uuid: seq<Byte>, s: Side, r: Read): (t: Side)
    requires ValidParser(s.parser)
    ensures ValidParser(t.parser)
  {
    if Strips(s, r) then ModeTest(s.(parser := FeedAll(uuid, s.parser, r.bufs).0)) else s
  }

  predicate Switches(uuid: seq<Byte>, s: Side, r: Read)
    requires ValidParser(s.parser)
  {
    !s.direct && Next(uuid, s, r).direct
  }

  /** What a read delivers ... */
  function Delivered(uuid: seq<Byte>, s: Side, r: Read): seq<Byte>
    requires ValidParser(s.parser)
  {
    (if Strips(s, r) then Flat(FeedAll(uuid, s.parser, r.bufs).1) else Flat(r.bufs)) +
    (if Switches(uuid, s, r) then r.spill else [])
  }

  /** ... and the bytes of the stream it uses up. */
  function Taken(uuid: seq<Byte>, s: Side, r: Read): seq<Byte>
    requires ValidParser(s.parser)
  {
    Flat(r.bufs) + (if Switches(uuid, s, r) then r.spill else [])
  }

  class VisionReader {
    const trafficState: TrafficState
    const isUplink: bool
    var input: seq<Byte>
    var rawInput: seq<Byte>

    constructor (trafficState: TrafficState, isUplink: bool, input: seq<Byte>, rawInput: seq<Byte>)
      ensures this.trafficState == trafficState && this.isUplink == isUplink
      ensures this.input == input && this.rawInput == rawInput
    {
      this.trafficState := trafficState;
      this.isUplink := isUplink;
      this.input, this.rawInput := input, rawInput;
    }

    function Here(): Side
      reads this, trafficState
    {
      SideOf(trafficState.ReaderLink(isUplink))
    }

    /** Strips all buffers of a read and drops the empty results. */
    method StripAll(buffer: seq<Buffer>) returns (mb2: seq<Buffer>)
      requires trafficState.Valid()
      modifies trafficState
      ensures trafficState.Valid() && trafficState.Seen() == old(trafficState.Seen())
      ensures trafficState.ReaderLink(!isUplink) == old(trafficState.ReaderLink(!isUplink))
      ensures var (p, out) := FeedAll(trafficState.userUUID, old(Here()).parser, buffer);
        mb2 == out && trafficState.ReaderLink(isUplink) == old(trafficState.ReaderLink(isUplink)).(parser := p)
      ensures forall b :: b in mb2 ==> b != []
    {
      mb2 := [];
      ghost var link := trafficState.ReaderLink(isUplink);
      ghost var uuid := trafficState.userUUID;
      for k := 0 to |buffer|
        invariant trafficState.Valid() && trafficState.Seen() == old(trafficState.Seen())
        invariant trafficState.ReaderLink(!isUplink) == old(trafficState.ReaderLink(!isUplink))
        invariant mb2 == FeedAll(uuid, link.parser, buffer[..k]).1 && forall b :: b in mb2 ==> b != []
        invariant trafficState.ReaderLink(isUplink) == link.(parser := FeedAll(uuid, link.parser, buffer[..k]).0)
      {
        FeedAllSnoc(uuid, link.parser, buffer[..k], buffer[k]);
        TakeNext(buffer, k);
        var newbuffer := trafficState.XtlsUnpadding(buffer[k], isUplink);
        if |newbuffer| > 0 {
          mb2 := mb2 + [newbuffer];
        }
      }
      assert buffer[..|buffer|] == buffer;
    }

    /** The mode test, on the reader's link. */
    method TestMode()
      requires trafficState.Valid()
      modifies trafficState
      ensures trafficState.Valid() && trafficState.Seen() == old(trafficState.Seen())
      ensures trafficState.ReaderLink(!isUplink) == old(trafficState.ReaderLink(!isUplink))
      ensures Here() == ModeTest(old(Here()))
      ensures trafficState.ReaderLink(isUplink) ==
        old(trafficState.ReaderLink(isUplink)).(within := Here().within, readDirect := Here().direct)
    {
      var link := trafficState.ReaderLink(isUplink);
      var p := link.parser;
      if p.content > 0 || p.padding > 0 || p.command == 0 {
        link := link.(within := true);
      } else if p.command == 1 {
        link := link.(within := false);
      } else if p.command == 2 {
        link := link.(within := false);
        link := link.(readDirect := true);
      }
      trafficState.SetReaderLink(isUplink, link);
    }

    /** buffer is what the underlying reader returns; the result is what the caller gets. */
    method ReadMultiBuffer(buffer: seq<Buffer>, stale: Leftovers) returns (out: seq<Byte>)
      requires trafficState.Valid()
      modifies this, trafficState
      ensures trafficState.Valid()
      ensures var r := Read(buffer, old(trafficState.numberOfPacketToFilter) > 0, old(input) + old(rawInput));
        var uuid := trafficState.userUUID;
        && out == Delivered(uuid, old(Here()), r)
        && Here() == Next(uuid, old(Here()), r)
        && (Switches(uuid, old(Here()), r) ==> input == rawInput == [])
        && (!Switches(uuid, old(Here()), r) ==> input == old(input) && rawInput == old(rawInput))
        && trafficState.Seen() == (
           if Flat(buffer) == [] || old(Here()).direct then old(trafficState.Seen())
           else Observe(old(trafficState.Seen()),
                        if Strips(old(Here()), r) then FeedAll(uuid, old(Here()).parser, buffer).1 else buffer, stale))
      // at the switch what the TLS layer has held back comes last, decrypted bytes first
      ensures !old(Here()).direct && Here().direct ==>
        var held := old(input) + old(rawInput); |held| <= |out| && out[|out| - |held|..] == held
      // the writer of this connection is not disturbed
      ensures trafficState.WriterLink(isUplink) == old(trafficState.WriterLink(isUplink))
      ensures trafficState.ReaderLink(isUplink).isPadding == old(trafficState.ReaderLink(isUplink)).isPadding
      ensures trafficState.ReaderLink(isUplink).writeDirect == old(trafficState.ReaderLink(isUplink)).writeDirect
    {
      if Flat(buffer) == [] {
        return [];
      }
      var link := trafficState.ReaderLink(isUplink);
      if link.readDirect {
        return Flat(buffer);
      }
      var mb := buffer;
      if link.within || trafficState.numberOfPacketToFilter > 0 {
        mb := StripAll(buffer);
        TestMode();
      }
      if trafficState.numberOfPacketToFilter > 0 {
        trafficState.XtlsFilterTls(mb, stale);
      }
      out := Flat(mb);
      if trafficState.ReaderLink(isUplink).readDirect {
        out := out + (input + rawInput);
        input := [];
        rawInput := [];
      }
    }
  }
}
