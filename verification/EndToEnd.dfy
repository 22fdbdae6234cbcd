/** What a writer was given is what the reader at the other end delivers, and when it is not. */
module EndToEnd {
  import opened Bytes
  import opened Framing
  import opened VisionReader
  import opened Sequences
  import W = VisionWriter

  // ---- Runs of a reader ----------------------------------------------------------------------

  datatype Outcome = Outcome(side: Side, taken: seq<Byte>, delivered: seq<Byte>)

  function Run(uuid: seq<Byte>, s: Side, arrivals: seq<Read>): Outcome
    requires ValidParser(s.parser)
    decreases |arrivals|
  {
    if arrivals == [] then Outcome(s, [], [])
    else
      var o := Run(uuid, Next(uuid, s, arrivals[0]), arrivals[1..]);
      Outcome(o.side, Taken(uuid, s, arrivals[0]) + o.taken, Delivered(uuid, s, arrivals[0]) + o.delivered)
  }

  /** What the underlying connection still brings. */
  function Incoming(arrivals: seq<Read>): seq<Byte> {
    if arrivals == [] then [] else Flat(arrivals[0].bufs) + Incoming(arrivals[1..])
  }

  /** Packets are inspected for a while and then never again (see Detector.EveryRun). */
  predicate Monotone(arrivals: seq<Read>) {
    forall i, j :: 0 <= i < j < |arrivals| ==> arrivals[j].filtering ==> arrivals[i].filtering
  }

  // ---- The conditions ------------------------------------------------------------------------

  /** No buffer that arrives between streams begins with the UUID. */
  predicate Unmarked(uuid: seq<Byte>, p: Parser, bs: seq<Buffer>)
    requires ValidParser(p)
    decreases |bs|
  {
    bs == [] || ((Idle(p) ==> !Marked(uuid, bs[0])) && Unmarked(uuid, Unpad(p, bs[0]).0, bs[1..]))
  }

  /** A reader that has met the last frame still looks into a read unless it copies raw bytes or
      has given up the inspection. */
  predicate LooksInto(p: Parser, r: Read) {
    Idle(p) ==> p.command != DIRECT && (p.command == END ==> r.filtering)
  }

  predicate AllUnmarked(uuid: seq<Byte>, p: Parser, arrivals: seq<Read>)
    requires ValidParser(p)
    decreases |arrivals|
  {
    arrivals == [] || (
      && (LooksInto(p, arrivals[0]) ==> Unmarked(uuid, p, arrivals[0].bufs))
      && AllUnmarked(uuid, Unpad(p, Flat(arrivals[0].bufs)).0, arrivals[1..]))
  }

  /** The bytes read so far end inside the header of a last frame, after its command and before any
      byte of its lengths that is not zero (see CutShortExactly). */
  predicate CutShort(p: Parser) {
    p.header > 0 && p.content <= 0 && p.padding <= 0 && (p.command == END || p.command == DIRECT)
  }

  /** Some read is cut short, and the next bytes are taken for plain ones: always if the command is
      Direct, otherwise if packets are no longer inspected. */
  predicate Derailed(p: Parser, within: bool, arrivals: seq<Read>)
    requires ValidParser(p)
    decreases |arrivals|
  {
    arrivals != [] && !Idle(p) &&
    var r, rest := arrivals[0], arrivals[1..];
    if Flat(r.bufs) == [] then Derailed(p, within, rest)
    else if !within && !r.filtering then true
    else
      var q := Unpad(p, Flat(r.bufs)).0;
      if CutShort(q) && q.command == DIRECT then r.spill + Incoming(rest) != []
      else Derailed(q, !CutShort(q) && (within || q.command <= DIRECT || q.content > 0 || q.padding > 0), rest)
  }

  // ---- One read ------------------------------------------------------------------------------

  lemma {:induction false} FeedAllIsUnpad(uuid: seq<Byte>, p: Parser, bs: seq<Buffer>)
    requires ValidParser(p) && Unmarked(uuid, p, bs)
    ensures FeedAll(uuid, p, bs).0 == Unpad(p, Flat(bs)).0
    ensures Flat(FeedAll(uuid, p, bs).1) == Unpad(p, Flat(bs)).1
    decreases |bs|
  {
    if bs != [] {
      var (q, out) := Unpad(p, bs[0]);
      FeedIsBuffer(uuid, p, bs[0]);
      FeedAllIsUnpad(uuid, q, bs[1..]);
      UnpadSplit(p, bs[0], Flat(bs[1..]));
      FlatAppend(if |out| > 0 then [out] else [], FeedAll(uuid, q, bs[1..]).1);
      assert Flat([out]) == out + Flat([out][1..]) == out;
    }
  }

  /** Only a frame that continues is followed by another header. */
  predicate Continues(p: Parser) {
    p.header == HEADER_LENGTH ==> p.command == CONTINUE
  }

  lemma {:induction false} UnpadContinues(p: Parser, s: seq<Byte>)
    requires ValidParser(p) && Continues(p)
    ensures Continues(Unpad(p, s).0)
    decreases |s|
  {
    if s != [] && !Idle(p) {
      UnpadContinues(Step(p, s[0]).0, s[1..]);
    }
  }

  /** Where a reader stands when all has gone well so far. */
  ghost predicate Tracking(s: Side) {
    && ValidParser(s.parser)
    && (Idle(s.parser) ==>
          && (s.direct <==> s.parser.command == DIRECT)
          && (s.parser.command == END ==> !s.within))
    && (!Idle(s.parser) ==> !s.direct && (!s.within ==> 0 < s.parser.header < HEADER_LENGTH))
    && (!s.within ==> s.parser.command == END || s.parser.command == DIRECT)
    && Continues(s.parser)
  }

  /** Nothing is stripped any more. */
  lemma {:induction false} PlainForever(uuid: seq<Byte>, s: Side, arrivals: seq<Read>)
    requires ValidParser(s.parser)
    requires s.direct || (!s.within && forall r :: r in arrivals ==> !r.filtering)
    ensures Run(uuid, s, arrivals) == Outcome(s, Incoming(arrivals), Incoming(arrivals))
    decreases |arrivals|
  {
    if arrivals != [] {
      assert arrivals[0] in arrivals;
      assert Next(uuid, s, arrivals[0]) == s;
      PlainForever(uuid, s, arrivals[1..]);
    }
  }

  lemma {:induction false} MonotoneTail(arrivals: seq<Read>)
    requires arrivals != [] && Monotone(arrivals)
    ensures Monotone(arrivals[1..])
  {
    assert forall i :: 0 <= i < |arrivals[1..]| ==> arrivals[1..][i] == arrivals[i + 1];
  }

  lemma {:induction false} NoMoreFiltering(arrivals: seq<Read>)
    requires arrivals != [] && Monotone(arrivals) && !arrivals[0].filtering
    ensures forall r :: r in arrivals ==> !r.filtering
  {
    forall r | r in arrivals
      ensures !r.filtering
    {
      var k :| 0 <= k < |arrivals| && arrivals[k] == r;
    }
  }

  /** The run delivers what the reference parser makes of the bytes it takes. */
  ghost predicate Faithful(uuid: seq<Byte>, s: Side, arrivals: seq<Read>)
    requires ValidParser(s.parser)
  {
    Run(uuid, s, arrivals).delivered == Unpad(s.parser, Run(uuid, s, arrivals).taken).1
  }

  // ---- Any run from a good state -------------------------------------------------------------

  /** The run delivers what the reference parser makes of the bytes it takes, if and only if it is not
      derailed and no plain buffer that the reader looks into begins like a new stream. */
  lemma {:induction false} RunDelivers(uuid: seq<Byte>, s: Side, arrivals: seq<Read>)
    requires Tracking(s) && Monotone(arrivals)
    ensures Faithful(uuid, s, arrivals) <==>
      !Derailed(s.parser, s.within, arrivals) && AllUnmarked(uuid, s.parser, arrivals)
    decreases |arrivals|, 1
  {
    if arrivals != [] {
      var r := arrivals[0];
      MonotoneTail(arrivals);
      if Flat(r.bufs) == [] {
        DeliversNothing(uuid, s, arrivals);
        RunDelivers(uuid, s, arrivals[1..]);
      } else if Strips(s, r) && !Unmarked(uuid, s.parser, r.bufs) {
        MistakeBreaks(uuid, s, arrivals);
        assert LooksInto(s.parser, r);
      } else if Idle(s.parser) {
        DeliversIdle(uuid, s, arrivals);
      } else if !s.within && !r.filtering {
        NoMoreFiltering(arrivals);
        PlainForever(uuid, s, arrivals);
        UnpadShrinks(s.parser, Incoming(arrivals));
      } else {
        if Next(uuid, s, r).direct {
          DeliversSwitch(uuid, s, arrivals);
        } else {
          DeliversOn(uuid, s, arrivals);
        }
      }
    }
  }

  lemma {:induction false} NothingUnmarked(uuid: seq<Byte>, p: Parser, bs: seq<Buffer>)
    requires ValidParser(p) && Flat(bs) == []
    ensures Unmarked(uuid, p, bs)
    decreases |bs|
  {
    if bs != [] {
      assert bs[0] == [] && Unpad(p, []).0 == p;
      NothingUnmarked(uuid, p, bs[1..]);
    }
  }

  /** A read without any bytes. */
  lemma {:induction false} DeliversNothing(uuid: seq<Byte>, s: Side, arrivals: seq<Read>)
    requires ValidParser(s.parser) && arrivals != [] && Flat(arrivals[0].bufs) == []
    ensures Faithful(uuid, s, arrivals) <==> Faithful(uuid, s, arrivals[1..])
    ensures Derailed(s.parser, s.within, arrivals) <==> Derailed(s.parser, s.within, arrivals[1..])
    ensures AllUnmarked(uuid, s.parser, arrivals) <==> AllUnmarked(uuid, s.parser, arrivals[1..])
  {
    var r := arrivals[0];
    assert Next(uuid, s, r) == s && Taken(uuid, s, r) == Delivered(uuid, s, r) == [];
    var o := Run(uuid, s, arrivals[1..]);
    assert [] + o.taken == o.taken && [] + o.delivered == o.delivered;
    NothingUnmarked(uuid, s.parser, r.bufs);
    assert Unpad(s.parser, []).0 == s.parser;
  }

  // ---- A plain buffer taken for a new stream -------------------------------------------------

  lemma {:induction false} FeedShrinks(uuid: seq<Byte>, p: Parser, bs: seq<Buffer>)
    requires ValidParser(p)
    ensures |Flat(FeedAll(uuid, p, bs).1)| <= |Flat(bs)|
    decreases |bs|
  {
    if bs != [] {
      FeedIsBuffer(uuid, p, bs[0]);
      var (q, out) := Feed(uuid, p, bs[0]);
      FeedShrinks(uuid, q, bs[1..]);
      FlatFirst(out, FeedAll(uuid, q, bs[1..]).1);
    }
  }

  lemma {:induction false} FlatFirst(out: Buffer, more: seq<Buffer>)
    ensures Flat((if |out| > 0 then [out] else []) + more) == out + Flat(more)
  {
    FlatAppend(if |out| > 0 then [out] else [], more);
    assert Flat([out]) == out + Flat([out][1..]) == out;
  }

  /** What is lost in the read itself; the reference parser was idle and stays so. */
  lemma {:induction false} MistakeShrinks(uuid: seq<Byte>, p: Parser, bs: seq<Buffer>)
    requires ValidParser(p) && !Unmarked(uuid, p, bs)
    ensures |Flat(FeedAll(uuid, p, bs).1)| < |Unpad(p, Flat(bs)).1| && Idle(Unpad(p, Flat(bs)).0)
    decreases |bs|
  {
    var (q, out) := Feed(uuid, p, bs[0]);
    FeedIsBuffer(uuid, p, bs[0]);
    FlatFirst(out, FeedAll(uuid, q, bs[1..]).1);
    if Idle(p) && Marked(uuid, bs[0]) {
      FeedShrinks(uuid, q, bs[1..]);
    } else {
      UnpadSplit(p, bs[0], Flat(bs[1..]));
      MistakeShrinks(uuid, q, bs[1..]);
    }
  }

  lemma {:induction false} RunShrinks(uuid: seq<Byte>, s: Side, arrivals: seq<Read>)
    requires ValidParser(s.parser)
    ensures |Run(uuid, s, arrivals).delivered| <= |Run(uuid, s, arrivals).taken|
    decreases |arrivals|
  {
    if arrivals != [] {
      FeedShrinks(uuid, s.parser, arrivals[0].bufs);
      RunShrinks(uuid, Next(uuid, s, arrivals[0]), arrivals[1..]);
    }
  }

  /** Too little is delivered from then on, whatever else arrives. */
  lemma {:induction false} MistakeBreaks(uuid: seq<Byte>, s: Side, arrivals: seq<Read>)
    requires ValidParser(s.parser) && arrivals != [] && Strips(s, arrivals[0])
    requires !Unmarked(uuid, s.parser, arrivals[0].bufs)
    ensures !Faithful(uuid, s, arrivals)
  {
    var r := arrivals[0];
    var o := Run(uuid, Next(uuid, s, r), arrivals[1..]);
    var spill := if Switches(uuid, s, r) then r.spill else [];
    MistakeShrinks(uuid, s.parser, r.bufs);
    RunShrinks(uuid, Next(uuid, s, r), arrivals[1..]);
    Associate(Flat(r.bufs), spill, o.taken);
    UnpadSplit(s.parser, Flat(r.bufs), spill + o.taken);
  }

  // ---- The other kinds of reads --------------------------------------------------------------

  /** A read between streams, or behind the last frame. */
  lemma {:induction false} DeliversIdle(uuid: seq<Byte>, s: Side, arrivals: seq<Read>)
    requires Tracking(s) && Monotone(arrivals)
    requires arrivals != [] && Flat(arrivals[0].bufs) != [] && Idle(s.parser)
    requires Strips(s, arrivals[0]) ==> Unmarked(uuid, s.parser, arrivals[0].bufs)
    ensures Faithful(uuid, s, arrivals) <==> AllUnmarked(uuid, s.parser, arrivals)
    decreases |arrivals|, 0
  {
    var r, rest := arrivals[0], arrivals[1..];
    MonotoneTail(arrivals);
    assert Strips(s, r) <==> LooksInto(s.parser, r);
    if Strips(s, r) {
      FeedAllIsUnpad(uuid, s.parser, r.bufs);
    }
    var t := Next(uuid, s, r);
    assert t.parser == s.parser && Tracking(t);
    assert !Switches(uuid, s, r) && Delivered(uuid, s, r) == Taken(uuid, s, r) == Flat(r.bufs);
    RunDelivers(uuid, t, rest);
    SplitOff(s.parser, Flat(r.bufs), Run(uuid, t, rest).taken, Run(uuid, t, rest).delivered);
  }

  /** The last frame, once begun, is the last. */
  lemma {:induction false} LastFrameStays(p: Parser, s: seq<Byte>)
    requires ValidParser(p) && p.header < HEADER_LENGTH && p.command != CONTINUE
    ensures var q := Unpad(p, s).0; q.command == p.command && q.header < HEADER_LENGTH
    decreases |s|
  {
    if s != [] && !Idle(p) {
      LastFrameStays(Step(p, s[0]).0, s[1..]);
    }
  }

  /** The parser's view of a read in the middle of the frames. */
  lemma {:induction false} StripsFrames(uuid: seq<Byte>, s: Side, r: Read)
    requires Tracking(s) && !Idle(s.parser) && Unmarked(uuid, s.parser, r.bufs)
    requires Strips(s, r)
    ensures var (q, out) := Unpad(s.parser, Flat(r.bufs)); var t := Next(uuid, s, r);
      && t == ModeTest(s.(parser := q))
      && Delivered(uuid, s, r) == out + (if t.direct then r.spill else [])
      && Taken(uuid, s, r) == Flat(r.bufs) + (if t.direct then r.spill else [])
      && (t.direct <==> q.command == DIRECT && (Idle(q) || CutShort(q)))
      && (!t.direct ==> Tracking(t))
      && (!t.direct && !Idle(q) ==>
            (t.within <==> !CutShort(q) && (s.within || q.command <= DIRECT || q.content > 0 || q.padding > 0)))
  {
    FeedAllIsUnpad(uuid, s.parser, r.bufs);
    UnpadContinues(s.parser, Flat(r.bufs));
    if !s.within {
      LastFrameStays(s.parser, Flat(r.bufs));
    }
  }

  /** Raw copying in the middle of a header delivers too much as soon as anything follows. */
  lemma {:induction false} TooMuch(p: Parser, flat: seq<Byte>, more: seq<Byte>)
    requires ValidParser(p)
    ensures var (q, out) := Unpad(p, flat);
      Idle(q) || q.header > 0 ==> (out + more == Unpad(p, flat + more).1 <==> Idle(q) || more == [])
  {
    var q := Unpad(p, flat).0;
    SplitOff(p, flat, more, more);
    UnpadShrinks(q, more);
  }

  lemma {:induction false} SwitchRun(uuid: seq<Byte>, s: Side, arrivals: seq<Read>)
    requires Tracking(s) && arrivals != [] && !Idle(s.parser) && Strips(s, arrivals[0])
    requires Unmarked(uuid, s.parser, arrivals[0].bufs)
    requires Next(uuid, s, arrivals[0]).direct
    ensures var flat := Flat(arrivals[0].bufs);
      var more := arrivals[0].spill + Incoming(arrivals[1..]);
      && Run(uuid, s, arrivals).taken == flat + more
      && Run(uuid, s, arrivals).delivered == Unpad(s.parser, flat).1 + more
  {
    var r, inc := arrivals[0], Incoming(arrivals[1..]);
    StripsFrames(uuid, s, r);
    PlainForever(uuid, Next(uuid, s, r), arrivals[1..]);
    Associate(Flat(r.bufs), r.spill, inc);
    Associate(Unpad(s.parser, Flat(r.bufs)).1, r.spill, inc);
  }

  /** A read that makes the reader switch to raw copying. */
  lemma {:induction false} DeliversSwitch(uuid: seq<Byte>, s: Side, arrivals: seq<Read>)
    requires Tracking(s) && arrivals != [] && !Idle(s.parser) && Strips(s, arrivals[0])
    requires Unmarked(uuid, s.parser, arrivals[0].bufs)
    requires Next(uuid, s, arrivals[0]).direct
    ensures Faithful(uuid, s, arrivals) <==>
      !Derailed(s.parser, s.within, arrivals) && AllUnmarked(uuid, s.parser, arrivals)
  {
    var r := arrivals[0];
    SwitchRun(uuid, s, arrivals);
    StripsFrames(uuid, s, r);
    TooMuch(s.parser, Flat(r.bufs), r.spill + Incoming(arrivals[1..]));
    if !Derailed(s.parser, s.within, arrivals) {
      NotLookedInto(uuid, Unpad(s.parser, Flat(r.bufs)).0, arrivals[1..]);
    }
  }

  lemma {:induction false} NotLookedInto(uuid: seq<Byte>, p: Parser, arrivals: seq<Read>)
    requires ValidParser(p) && ((Idle(p) && p.command == DIRECT) || Incoming(arrivals) == [])
    ensures AllUnmarked(uuid, p, arrivals)
    decreases |arrivals|
  {
    if arrivals != [] {
      if Incoming(arrivals) == [] {
        NothingUnmarked(uuid, p, arrivals[0].bufs);
        assert Unpad(p, []).0 == p;
      }
      NotLookedInto(uuid, p, arrivals[1..]);
    }
  }

  lemma {:induction false} DerailedOn(uuid: seq<Byte>, s: Side, arrivals: seq<Read>)
    requires Tracking(s) && arrivals != [] && !Idle(s.parser) && Strips(s, arrivals[0])
    requires Unmarked(uuid, s.parser, arrivals[0].bufs)
    requires !Next(uuid, s, arrivals[0]).direct
    ensures var t := Next(uuid, s, arrivals[0]);
      Derailed(s.parser, s.within, arrivals) <==> Derailed(t.parser, t.within, arrivals[1..])
  {
    StripsFrames(uuid, s, arrivals[0]);
  }

  lemma {:induction false} FaithfulOn(uuid: seq<Byte>, s: Side, arrivals: seq<Read>)
    requires Tracking(s) && arrivals != [] && !Idle(s.parser) && Strips(s, arrivals[0])
    requires Unmarked(uuid, s.parser, arrivals[0].bufs)
    requires !Next(uuid, s, arrivals[0]).direct
    ensures Faithful(uuid, s, arrivals) <==> Faithful(uuid, Next(uuid, s, arrivals[0]), arrivals[1..])
  {
    var r := arrivals[0];
    StripsFrames(uuid, s, r);
    var o := Run(uuid, Next(uuid, s, r), arrivals[1..]);
    SplitOff(s.parser, Flat(r.bufs), o.taken, o.delivered);
    assert Taken(uuid, s, r) == Flat(r.bufs);
    assert Delivered(uuid, s, r) == Unpad(s.parser, Flat(r.bufs)).1;
  }

  /** A read in the middle of the frames after which the reader goes on. */
  lemma {:induction false} DeliversOn(uuid: seq<Byte>, s: Side, arrivals: seq<Read>)
    requires Tracking(s) && Monotone(arrivals)
    requires arrivals != [] && !Idle(s.parser) && Strips(s, arrivals[0])
    requires Unmarked(uuid, s.parser, arrivals[0].bufs)
    requires !Next(uuid, s, arrivals[0]).direct
    ensures Faithful(uuid, s, arrivals) <==>
      !Derailed(s.parser, s.within, arrivals) && AllUnmarked(uuid, s.parser, arrivals)
    decreases |arrivals|, 0
  {
    MonotoneTail(arrivals);
    StripsFrames(uuid, s, arrivals[0]);
    DerailedOn(uuid, s, arrivals);
    FaithfulOn(uuid, s, arrivals);
    RunDelivers(uuid, Next(uuid, s, arrivals[0]), arrivals[1..]);
  }

  /** A prefix that is delivered as it should be does not change whether the rest is. */
  lemma {:induction false} SplitOff(p: Parser, flat: seq<Byte>, taken: seq<Byte>, delivered: seq<Byte>)
    requires ValidParser(p)
    ensures var (q, out) := Unpad(p, flat);
      out + delivered == Unpad(p, flat + taken).1 <==> delivered == Unpad(q, taken).1
  {
    UnpadSplit(p, flat, taken);
    SamePrefix(Unpad(p, flat).1, delivered, Unpad(Unpad(p, flat).0, taken).1);
  }

  lemma {:induction false} SamePrefix(a: seq<Byte>, x: seq<Byte>, y: seq<Byte>)
    ensures a + x == a + y <==> x == y
  {
    if a + x == a + y {
      assert x == (a + x)[|a|..] == (a + y)[|a|..] == y;
    }
  }

  // ---- The first read ------------------------------------------------------------------------

  /** A reader as NewTrafficState makes it. */
  const FRESH := Side(true, false, START)

  /** The same reader right behind the UUID. */
  const OPEN := Side(true, false, START.(header := HEADER_LENGTH))

  /** The bytes of a read without the UUID in front. */
  function WithoutUuid(r: Read): Read
    requires r.bufs != [] && |r.bufs[0]| >= UUID_LENGTH
  {
    r.(bufs := [r.bufs[0][UUID_LENGTH..]] + r.bufs[1..])
  }

  lemma {:induction false} FirstRead(uuid: seq<Byte>, r: Read)
    requires r.bufs != [] && Marked(uuid, r.bufs[0])
    ensures Next(uuid, FRESH, r) == Next(uuid, OPEN, WithoutUuid(r))
    ensures Delivered(uuid, FRESH, r) == Delivered(uuid, OPEN, WithoutUuid(r))
    ensures Taken(uuid, FRESH, r) == uuid + Taken(uuid, OPEN, WithoutUuid(r))
  {
    var b, bs := r.bufs[0], r.bufs[1..];
    var w := WithoutUuid(r).bufs;
    assert r.bufs == [b] + bs && w[0] == b[UUID_LENGTH..] && w[1..] == bs;
    assert b == uuid + b[UUID_LENGTH..];
    assert Flat(r.bufs) == uuid + Flat(w);
  }

  /** What a fresh reader needs: the UUID and a header in the first buffer, no read that is cut short so as
      to derail it, and behind the last frame no buffer that it looks into and takes for a new stream. */
  predicate ReadsWell(uuid: seq<Byte>, arrivals: seq<Read>) {
    && arrivals != [] && arrivals[0].bufs != [] && |arrivals[0].bufs[0]| >= UUID_LENGTH + HEADER_LENGTH
    && var behind := [WithoutUuid(arrivals[0])] + arrivals[1..];
    !Derailed(OPEN.parser, true, behind) && AllUnmarked(uuid, OPEN.parser, behind)
  }

  /** A first buffer that is too short is not met by a later one that begins with the UUID (see
      ShortFirstExample). */
  predicate NoSecondChance(uuid: seq<Byte>, arrivals: seq<Read>)
    requires arrivals != [] && arrivals[0].bufs != []
  {
    |arrivals[0].bufs[0]| < UUID_LENGTH + HEADER_LENGTH ==> AllUnmarked(uuid, START, arrivals)
  }

  /** The stream that a writer has produced (see VisionWriter.Valid), read by a fresh reader: what is
      delivered is what was written if and only if it reads well. */
  lemma {:induction false} StreamDelivers(uuid: seq<Byte>, frames: seq<Frame>, tail: seq<Byte>, raw: seq<Byte>,
                                          arrivals: seq<Read>)
    requires |uuid| == UUID_LENGTH
    requires frames != [] && Proper(frames, tail) && (raw != [] ==> Ended(frames))
    requires arrivals != [] && arrivals[0].bufs != [] && Monotone(arrivals) && NoSecondChance(uuid, arrivals)
    requires Run(uuid, FRESH, arrivals).taken == W.WireBytes(uuid, frames, tail) + raw
    ensures Run(uuid, FRESH, arrivals).delivered == Contents(frames) + tail + raw <==> ReadsWell(uuid, arrivals)
  {
    if |arrivals[0].bufs[0]| < UUID_LENGTH + HEADER_LENGTH {
      ShortFirst(uuid, frames, tail, raw, arrivals);
    } else {
      LongFirst(uuid, frames, tail, raw, arrivals);
    }
  }

  /** Nothing is stripped, so more is delivered than was written. */
  lemma {:induction false} ShortFirst(uuid: seq<Byte>, frames: seq<Frame>, tail: seq<Byte>, raw: seq<Byte>,
                                      arrivals: seq<Read>)
    requires |uuid| == UUID_LENGTH && frames != [] && Monotone(arrivals) && AllUnmarked(uuid, START, arrivals)
    requires Run(uuid, FRESH, arrivals).taken == W.WireBytes(uuid, frames, tail) + raw
    ensures Run(uuid, FRESH, arrivals).delivered != Contents(frames) + tail + raw
  {
    RunDelivers(uuid, FRESH, arrivals);
    ContentsShorter(frames);
  }

  lemma {:induction false} ContentsShorter(frames: seq<Frame>)
    ensures |Contents(frames)| <= |EncodeAll(frames)|
  {
    if frames != [] {
      ContentsShorter(frames[1..]);
    }
  }

  lemma {:induction false} LongFirst(uuid: seq<Byte>, frames: seq<Frame>, tail: seq<Byte>, raw: seq<Byte>,
                                     arrivals: seq<Read>)
    requires |uuid| == UUID_LENGTH
    requires frames != [] && Proper(frames, tail) && (raw != [] ==> Ended(frames))
    requires arrivals != [] && arrivals[0].bufs != [] && |arrivals[0].bufs[0]| >= UUID_LENGTH + HEADER_LENGTH
    requires Monotone(arrivals)
    requires Run(uuid, FRESH, arrivals).taken == W.WireBytes(uuid, frames, tail) + raw
    ensures Run(uuid, FRESH, arrivals).delivered == Contents(frames) + tail + raw <==> ReadsWell(uuid, arrivals)
  {
    var r := arrivals[0];
    var behind := [WithoutUuid(r)] + arrivals[1..];
    FirstBuffer(uuid, r.bufs[0], Run(uuid, FRESH, arrivals).taken, frames, tail, raw, arrivals);
    BehindUuid(uuid, arrivals);
    var taken := Run(uuid, OPEN, behind).taken;
    WireBehindUuid(uuid, frames, tail, raw, taken);
    DecodeAll(OPEN.parser, frames, tail + raw);
    Associate(Contents(frames), tail, raw);
    SameFiltering(arrivals, behind);
    RunDelivers(uuid, OPEN, behind);
  }

  lemma {:induction false} SameFiltering(a: seq<Read>, b: seq<Read>)
    requires Monotone(a) && |a| == |b| && forall i :: 0 <= i < |a| ==> a[i].filtering == b[i].filtering
    ensures Monotone(b)
  {
  }

  lemma {:induction false} BehindUuid(uuid: seq<Byte>, arrivals: seq<Read>)
    requires arrivals != [] && arrivals[0].bufs != [] && Marked(uuid, arrivals[0].bufs[0])
    ensures var behind := [WithoutUuid(arrivals[0])] + arrivals[1..];
      && Run(uuid, FRESH, arrivals).delivered == Run(uuid, OPEN, behind).delivered
      && Run(uuid, FRESH, arrivals).taken == uuid + Run(uuid, OPEN, behind).taken
  {
    FirstRead(uuid, arrivals[0]);
    var behind := [WithoutUuid(arrivals[0])] + arrivals[1..];
    assert behind[0] == WithoutUuid(arrivals[0]) && behind[1..] == arrivals[1..];
    Associate(uuid, Taken(uuid, OPEN, behind[0]), Run(uuid, Next(uuid, OPEN, behind[0]), behind[1..]).taken);
  }

  lemma {:induction false} WireBehindUuid(uuid: seq<Byte>, frames: seq<Frame>, tail: seq<Byte>, raw: seq<Byte>,
                                          taken: seq<Byte>)
    requires frames != [] && uuid + taken == W.WireBytes(uuid, frames, tail) + raw
    ensures taken == EncodeAll(frames) + (tail + raw)
  {
    Associate(uuid, EncodeAll(frames), tail);
    Associate(EncodeAll(frames), tail, raw);
    Associate(uuid, EncodeAll(frames) + tail, raw);
    SamePrefix(uuid, taken, EncodeAll(frames) + (tail + raw));
  }

  lemma {:induction false} FirstBuffer(uuid: seq<Byte>, b: Buffer, taken: seq<Byte>, frames: seq<Frame>,
                                       tail: seq<Byte>, raw: seq<Byte>,
                    arrivals: seq<Read>)
    requires |uuid| == UUID_LENGTH && frames != []
    requires arrivals != [] && arrivals[0].bufs != [] && arrivals[0].bufs[0] == b && |b| >= UUID_LENGTH + HEADER_LENGTH
    requires taken == Run(uuid, FRESH, arrivals).taken == W.WireBytes(uuid, frames, tail) + raw
    ensures Marked(uuid, b)
  {
    assert taken[..UUID_LENGTH] == uuid;
    var rest := Run(uuid, Next(uuid, FRESH, arrivals[0]), arrivals[1..]).taken;
    assert taken == Taken(uuid, FRESH, arrivals[0]) + rest;
    assert taken[..UUID_LENGTH] == b[..UUID_LENGTH];
  }

  /** The same for a writer at any moment of its life, after any calls: what its callers handed over
      is what a fresh reader delivers from the bytes that the writer has sent. */
  lemma {:induction false} WriterToReader(w: W.VisionWriter, arrivals: seq<Read>)
    requires w.Valid() && w.outer != []
    requires arrivals != [] && arrivals[0].bufs != [] && Monotone(arrivals)
    requires NoSecondChance(w.trafficState.userUUID, arrivals)
    requires Run(w.trafficState.userUUID, FRESH, arrivals).taken == w.outer + w.raw
    ensures Run(w.trafficState.userUUID, FRESH, arrivals).delivered == w.written <==>
      ReadsWell(w.trafficState.userUUID, arrivals)
  {
    StreamDelivers(w.trafficState.userUUID, w.frames, w.tail, w.raw, arrivals);
  }

  /** Why a second chance is left out: the UUID, the header and the content arrive in buffers of their
      own, none of which is stripped but the last, and the content is such that what comes out is the
      content. */
  lemma {:induction false} ShortFirstExample(uuid: seq<Byte>, header: seq<Byte>)
    requires |uuid| == UUID_LENGTH && header == [END, 0, 21, 0, 0]
    ensures var f := Frame(END, uuid + header, []);
      var arrivals := [Read([uuid, header, uuid + header], true, [])];
      && Run(uuid, FRESH, arrivals).taken == uuid + Encode(f)
      && Run(uuid, FRESH, arrivals).delivered == f.content
  {
    var b: Buffer := uuid + header;
    var r := Read([uuid, header, b], true, []);
    FlatThree(uuid, header, b);
    ShortFirstFeeds(uuid, header, b);
    FlatTwo(uuid, header);
    assert [r][1..] == [];
  }

  lemma {:induction false} ShortFirstFeeds(uuid: seq<Byte>, header: Buffer, b: Buffer)
    requires |uuid| == UUID_LENGTH && header == [END, 0, 21, 0, 0] && b == uuid + header
    ensures var (q, out) := FeedAll(uuid, START, [uuid, header, b]); q == Parser(END, 0, 21, 0) && out == [uuid, header]
  {
    var q := Parser(END, 0, 21, 0);
    assert b[UUID_LENGTH..] == header && b[..UUID_LENGTH] == uuid;
    HeaderSteps(OPEN.parser, END, 0, 21, 0, 0, []);
    assert [END] + ([0] + ([21] + ([0] + ([0] + [])))) == header;
    assert Unpad(OPEN.parser, header) == (q, []);
    FeedFirst(uuid, START, b, []);
    FeedFirst(uuid, START, header, [b]);
    FeedFirst(uuid, START, uuid, [header, b]);
  }

  lemma {:induction false} FeedFirst(uuid: seq<Byte>, p: Parser, b: Buffer, bs: seq<Buffer>)
    requires ValidParser(p)
    ensures var (q, out) := Feed(uuid, p, b); var (r, more) := FeedAll(uuid, q, bs);
      && FeedAll(uuid, p, [b] + bs).0 == r
      && FeedAll(uuid, p, [b] + bs).1 == (if |out| > 0 then [out] else []) + more
  {
    assert ([b] + bs)[1..] == bs;
  }

  lemma {:induction false} FlatTwo(a: Buffer, b: Buffer)
    ensures Flat([a, b]) == a + b
  {
    assert [a, b][1..] == [b] && [b][1..] == [];
    assert Flat([b]) == b + Flat([b][1..]) == b;
  }

  lemma {:induction false} FlatThree(a: Buffer, b: Buffer, c: Buffer)
    ensures Flat([a, b, c]) == a + (b + c)
  {
    assert [a, b, c][1..] == [b, c];
    FlatTwo(b, c);
  }

  // ---- Reads that end outside headers --------------------------------------------------------

  /** No read ends inside a header. */
  predicate CutsOutsideHeaders(p: Parser, arrivals: seq<Read>)
    requires ValidParser(p)
    decreases |arrivals|
  {
    arrivals == [] || (
      var q := Unpad(p, Flat(arrivals[0].bufs)).0;
      (q.header <= 0 || q.header == HEADER_LENGTH) && CutsOutsideHeaders(q, arrivals[1..]))
  }

  lemma {:induction false} NotDerailed(p: Parser, arrivals: seq<Read>)
    requires ValidParser(p) && Continues(p) && CutsOutsideHeaders(p, arrivals)
    ensures !Derailed(p, true, arrivals)
    decreases |arrivals|
  {
    if arrivals != [] {
      var part := Flat(arrivals[0].bufs);
      UnpadContinues(p, part);
      NotDerailed(Unpad(p, part).0, arrivals[1..]);
    }
  }

  /** So with no read that ends inside a header, everything written is delivered, in order, whatever
      the fragments and wherever the switch to raw copying falls, if and only if no plain buffer is taken
      for a new stream. */
  lemma {:induction false} AllIsDelivered(w: W.VisionWriter, arrivals: seq<Read>)
    requires w.Valid() && w.outer != []
    requires arrivals != [] && arrivals[0].bufs != [] && Monotone(arrivals)
    requires |arrivals[0].bufs[0]| >= UUID_LENGTH + HEADER_LENGTH
    requires Run(w.trafficState.userUUID, FRESH, arrivals).taken == w.outer + w.raw
    requires CutsOutsideHeaders(OPEN.parser, [WithoutUuid(arrivals[0])] + arrivals[1..])
    ensures Run(w.trafficState.userUUID, FRESH, arrivals).delivered == w.written <==>
      AllUnmarked(w.trafficState.userUUID, OPEN.parser, [WithoutUuid(arrivals[0])] + arrivals[1..])
  {
    WriterToReader(w, arrivals);
    NotDerailed(OPEN.parser, [WithoutUuid(arrivals[0])] + arrivals[1..]);
  }

  // ---- When a read is cut short --------------------------------------------------------------

  /** Reads that end between frames, in the content or in the padding never do harm. What does is a
      read that ends behind the command byte of a last frame, in its header, as long as the length
      bytes before the cut are zero. */
  lemma {:induction false} CutShortExactly(p: Parser, fs: seq<Frame>, f: Frame, n: nat)
    requires AtFrame(p) && p.content <= 0 && p.padding <= 0 && p.command == CONTINUE
    requires Proper(fs, []) && !Ended(fs) && Fits(f) && f.command <= DIRECT && n <= |Encode(f)|
    ensures CutShort(Unpad(p, EncodeAll(fs) + Encode(f)[..n]).0) <==>
      0 < n < HEADER_LENGTH && f.command != CONTINUE && ZerosUpTo(Header(f), n)
  {
    var part := Encode(f)[..n];
    var q := BehindFrames(p, fs, part);
    if n < HEADER_LENGTH {
      WithinHeader(q, f, n);
    } else {
      BehindHeader(q, f, n);
    }
  }

  lemma {:induction false} WithinHeader(q: Parser, f: Frame, n: nat)
    requires AtFrame(q) && q.content <= 0 && q.padding <= 0 && q.command == CONTINUE
    requires Fits(f) && f.command <= DIRECT && n < HEADER_LENGTH
    ensures CutShort(Unpad(q, Encode(f)[..n]).0) <==> 0 < n && f.command != CONTINUE && ZerosUpTo(Header(f), n)
  {
    assert Encode(f)[..n] == Header(f)[..n];
    HeaderSoFar(q, Header(f), n);
  }

  lemma {:induction false} BehindHeader(q: Parser, f: Frame, n: nat)
    requires AtFrame(q) && Fits(f) && HEADER_LENGTH <= n <= |Encode(f)|
    ensures !CutShort(Unpad(q, Encode(f)[..n]).0)
  {
    var body := (f.content + f.padding)[..n - HEADER_LENGTH];
    assert Encode(f)[..n] == Header(f) + body;
    DecodeHeader(q, f, body);
    PartialBody(f, n - HEADER_LENGTH);
  }

  /** The length bytes among the first n bytes of a header are zero. */
  predicate ZerosUpTo(header: seq<Byte>, n: nat)
    requires |header| == HEADER_LENGTH
  {
    (n >= 2 ==> header[1] == 0) && (n >= 3 ==> header[2] == 0) && (n >= 4 ==> header[3] == 0)
  }

  lemma {:induction false} BehindFrames(p: Parser, fs: seq<Frame>, part: seq<Byte>) returns (q: Parser)
    requires AtFrame(p) && p.content <= 0 && p.padding <= 0 && p.command == CONTINUE
    requires Proper(fs, []) && !Ended(fs)
    ensures AtFrame(q) && q.content <= 0 && q.padding <= 0 && q.command == CONTINUE
    ensures Unpad(p, EncodeAll(fs) + part).0 == Unpad(q, part).0
  {
    DecodeAll(p, fs, []);
    assert EncodeAll(fs) + [] == EncodeAll(fs);
    UnpadSplit(p, EncodeAll(fs), part);
    q := AfterAll(p, fs);
  }

  /** The state after some bytes of a header, spelt out. */
  lemma {:induction false} HeaderSoFar(q: Parser, h: seq<Byte>, n: nat)
    requires AtFrame(q) && |h| == HEADER_LENGTH && n < HEADER_LENGTH
    ensures Unpad(q, h[..n]).0 == Parser(
      if n >= 1 then h[0] else q.command,
      HEADER_LENGTH - n,
      if n >= 3 then Be16(h[1], h[2]) else if n == 2 then Be16(h[1], 0) else q.content,
      if n >= 4 then Be16(h[3], 0) else q.padding)
    decreases n
  {
    if n > 0 {
      HeaderSoFar(q, h, n - 1);
      assert h[..n] == h[..n - 1] + [h[n - 1]];
      UnpadSplit(q, h[..n - 1], [h[n - 1]]);
      var p := Unpad(q, h[..n - 1]).0;
      HeaderStep(p, h[n - 1], []);
      assert [h[n - 1]] + [] == [h[n - 1]];
    }
  }

  lemma {:induction false} PartialBody(f: Frame, n: nat)
    requires Fits(f) && n <= |f.content + f.padding|
    ensures ValidParser(Settle(Parser(f.command, 0, |f.content|, |f.padding|)))
    ensures var q := Settle(Parser(f.command, 0, |f.content|, |f.padding|));
      !CutShort(Unpad(q, (f.content + f.padding)[..n]).0)
  {
    var body := (f.content + f.padding)[..n];
    var c := if n < |f.content| then n else |f.content|;
    assert body == body[..c] + body[c..];
    DecodeStart(Settle(Parser(f.command, 0, |f.content|, |f.padding|)), body[..c], |f.content|, |f.padding|, body[c..]);
    if c < n {
      DecodeRest(Settle(Parser(f.command, 0, 0, |f.padding|)), body[c..], |f.padding|);
    }
  }

  /** The first bytes of a content. */
  lemma {:induction false} DecodeStart(q: Parser, start: seq<Byte>, content: nat, padding: nat, rest: seq<Byte>)
    requires ValidParser(q) && q == Settle(Parser(q.command, 0, content, padding)) && |start| <= content
    ensures var r := Settle(Parser(q.command, 0, content - |start|, padding));
      ValidParser(r) && Unpad(q, start + rest).0 == Unpad(r, rest).0
  {
    if start == [] {
      assert start + rest == rest;
    } else {
      ContentRun(q, start + rest, |start|);
      assert (start + rest)[|start|..] == rest;
    }
  }

  /** The first bytes of a padding. */
  lemma {:induction false} DecodeRest(q: Parser, start: seq<Byte>, padding: nat)
    requires ValidParser(q) && q == Settle(Parser(q.command, 0, 0, padding)) && 0 < |start| <= padding
    ensures Unpad(q, start).0 == Settle(Parser(q.command, 0, 0, padding - |start|))
  {
    PaddingRun(q, start, |start|);
    assert start[|start|..] == [];
  }

  /** For example: a read ends behind the command byte of a Direct frame, whatever that frame holds. The
      reader goes raw one header too early, and the rest of the frame is delivered as it is. */
  lemma {:induction false} DerailedExample(uuid: seq<Byte>, first: Frame, last: Frame)
    requires |uuid| == UUID_LENGTH && Fits(first) && Fits(last)
    requires first.command == CONTINUE && last.command == DIRECT
    requires UUID_LENGTH + |Encode(first)| + 1 <= SIZE && |Encode(last)| <= SIZE
    ensures var cut := Encode(last)[1..];
      var arrivals := [Read([uuid + Encode(first) + [DIRECT]], true, []), Read([cut], true, [])];
      && Proper([first, last], [])
      && Run(uuid, FRESH, arrivals).taken == uuid + Encode(first) + Encode(last)
      && Run(uuid, FRESH, arrivals).delivered == first.content + cut != first.content + last.content
  {
    var cut: Buffer := Encode(last)[1..];
    var r1, r2 := Read([uuid + Encode(first) + [DIRECT]], true, []), Read([cut], true, []);
    DerailedFirst(uuid, first, r1);
    PlainForever(uuid, Next(uuid, FRESH, r1), [r2]);
    OneRead(r2, cut);
    assert [r1, r2][1..] == [r2];
    CutFrame(uuid + Encode(first), last, cut);
    SamePrefix(first.content, cut, last.content);
  }

  lemma {:induction false} OneRead(r: Read, b: Buffer)
    requires r.bufs == [b]
    ensures Incoming([r]) == b
  {
    assert [r][1..] == [] && r.bufs[1..] == [];
    assert Flat(r.bufs) == b + Flat(r.bufs[1..]) == b;
  }

  lemma {:induction false} CutFrame(before: seq<Byte>, last: Frame, cut: seq<Byte>)
    requires cut == Encode(last)[1..]
    ensures before + [last.command] + cut == before + Encode(last) && |cut| > |last.content|
  {
    assert Encode(last) == [last.command] + cut;
  }

  lemma {:induction false} DerailedFirst(uuid: seq<Byte>, first: Frame, r: Read)
    requires |uuid| == UUID_LENGTH && Fits(first) && first.command == CONTINUE
    requires UUID_LENGTH + |Encode(first)| + 1 <= SIZE
    requires r == Read([uuid + Encode(first) + [DIRECT]], true, [])
    ensures Next(uuid, FRESH, r).direct && Delivered(uuid, FRESH, r) == first.content
    ensures Taken(uuid, FRESH, r) == r.bufs[0]
  {
    FirstBytes(uuid, first, r);
    FirstRead(uuid, r);
    DecodeFrame(OPEN.parser, first, [DIRECT]);
    HeaderStep(After(first), DIRECT, []);
    assert [DIRECT] + [] == [DIRECT] && first.content + [] == first.content;
    StripsFrames(uuid, OPEN, WithoutUuid(r));
  }

  lemma {:induction false} FirstBytes(uuid: seq<Byte>, first: Frame, r: Read)
    requires |uuid| == UUID_LENGTH && UUID_LENGTH + |Encode(first)| + 1 <= SIZE
    requires r == Read([uuid + Encode(first) + [DIRECT]], true, [])
    ensures Marked(uuid, r.bufs[0]) && Flat(r.bufs) == r.bufs[0]
    ensures var w := WithoutUuid(r);
      w.bufs == [Encode(first) + [DIRECT]] && w.bufs[1..] == [] && Flat(w.bufs) == w.bufs[0]
  {
    var b := r.bufs[0];
    assert Flat(r.bufs) == b + Flat(r.bufs[1..]) == b;
    assert b[..UUID_LENGTH] == uuid && b[UUID_LENGTH..] == Encode(first) + [DIRECT];
    var w := WithoutUuid(r);
    assert w.bufs[1..] == [];
    assert Flat(w.bufs) == w.bufs[0] + Flat(w.bufs[1..]) == w.bufs[0];
  }
}
