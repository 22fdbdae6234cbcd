/** VisionWriter: pads what it is given until the traffic tells it to stop, then steps aside. */
module VisionWriter {
  import opened Bytes
  import opened Detector
  import opened Framing
  import opened Padding
  import opened Switching
  import opened Traffic
  import opened Sequences
  import Records

  /** A multi-buffer as callers hand it over: one nil entry stands for a bare header. */
  type Input = seq<Option<Buffer>>

  predicate BareHeader(mb: Input) {
    |mb| == 1 && mb[0] == None
  }

  /** A nil entry next to others would be dereferenced by IsCompleteRecord. */
  predicate Usable(mb: Input) {
    BareHeader(mb) || forall o :: o in mb ==> o.Some?
  }

  /** The entries that are not nil. */
  function Buffers(mb: Input): seq<Buffer> {
    if mb == [] then []
    else (if mb[0].Some? then [mb[0].value] else []) + Buffers(mb[1..])
  }

  /** The bytes a padded stream has put on the wire. */
  function WireBytes(uuid: seq<Byte>, frames: seq<Frame>, tail: seq<Byte>): seq<Byte> {
    (if frames == [] then [] else uuid) + EncodeAll(frames) + tail
  }

  predicate EndedDirect(fs: seq<Frame>) {
    fs != [] && fs[|fs| - 1].command == DIRECT
  }

  /** The frames carry these commands and the leading pieces, in order. */
  ghost predicate Carry(fs: seq<Frame>, commands: seq<Byte>, pieces: seq<Buffer>) {
    && |fs| == |commands| <= |pieces|
    && forall i :: 0 <= i < |fs| ==> fs[i].command == commands[i] && fs[i].content == pieces[i] && Fits(fs[i])
  }

  /** What the frames look like on the wire, and what is left of the UUID. */
  ghost predicate Emitted(mb: seq<Byte>, uuid: seq<Byte>, unwritten: seq<Byte>, fs: seq<Frame>) {
    && mb == (if fs == [] then [] else uuid) + EncodeAll(fs)
    && unwritten == (if fs == [] then uuid else [])
  }

  lemma {:induction false} EmitNext(mb: seq<Byte>, uuid: seq<Byte>, unwritten: seq<Byte>, fs: seq<Frame>, f: Frame)
    requires Emitted(mb, uuid, unwritten, fs)
    ensures Emitted(mb + (unwritten + Encode(f)), uuid, [], fs + [f])
  {
    FramesSnoc(fs, f);
  }

  lemma {:induction false} TakeAll(s: seq<Byte>, i: nat)
    requires i == |s|
    ensures s[..i] == s
  {
  }

  lemma {:induction false} CarryNext(fs: seq<Frame>, commands: seq<Byte>, pieces: seq<Buffer>, f: Frame)
    requires Carry(fs, commands, pieces) && |fs| < |pieces|
    requires Fits(f) && f.content == pieces[|fs|]
    ensures Carry(fs + [f], commands + [f.command], pieces)
  {
  }

  lemma {:induction false} CarriedContent(fs: seq<Frame>, commands: seq<Byte>, pieces: seq<Buffer>)
    requires Carry(fs, commands, pieces)
    ensures Contents(fs) + Flat(pieces[|fs|..]) == Flat(pieces)
  {
    if fs == [] {
      assert pieces[0..] == pieces;
    } else {
      CarriedContent(fs[1..], commands[1..], pieces[1..]);
      assert pieces[1..][|fs[1..]|..] == pieces[|fs|..];
    }
  }

  /** What has become of a connection's outgoing side, apart from the traffic state. */
  ghost predicate Consistent(uuid: seq<Byte>, link: Link, rawConn: bool, unwritten: seq<Byte>,
                             frames: seq<Frame>, tail: seq<Byte>)
  {
    && Proper(frames, tail)
    && unwritten == (if frames == [] then uuid else [])
    && (link.isPadding <==> !Ended(frames))
    && (Ended(frames) ==> frames[|frames| - 1].command == END || EndedDirect(frames))
    && (EndedDirect(frames) <==> link.writeDirect || rawConn)
    && !(link.writeDirect && rawConn)
    && (EndedDirect(frames) ==> tail == [])
  }

  lemma {:induction false} GrowContent(frames: seq<Frame>, fs: seq<Frame>, commands: seq<Byte>, pieces: seq<Buffer>)
    requires Carry(fs, commands, pieces)
    ensures Contents(frames + fs) + Flat(pieces[|fs|..]) == Contents(frames) + Flat(pieces)
  {
    CarriedContent(fs, commands, pieces);
    FramesAppend(frames, fs);
    var tail := Flat(pieces[|fs|..]);
    assert Contents(frames) + (Contents(fs) + tail) == Contents(frames) + Contents(fs) + tail;
  }

  lemma {:induction false} GrowProper(frames: seq<Frame>, fs: seq<Frame>, plan: Plan, pieces: seq<Buffer>)
    requires Proper(frames, []) && !Ended(frames)
    requires Agreed(plan, pieces) && Carry(fs, plan.commands, pieces)
    ensures Proper(frames + fs, Flat(pieces[|fs|..]))
  {
    var all := frames + fs;
    forall i | 0 <= i < |all| - 1
      ensures all[i].command == CONTINUE
    {
      if i < |frames| {
        assert all[i] == frames[i];
        assert i < |frames| - 1 || frames[|frames| - 1].command == CONTINUE;
      } else {
        assert all[i] == fs[i - |frames|];
      }
    }
    forall f | f in all
      ensures Fits(f)
    {
      assert f in frames || f in fs;
    }
    if fs != [] {
      assert all[|all| - 1] == fs[|fs| - 1];
    }
  }

  /** The ledger: what was handed over is what the frames, the plain rest and the raw bytes hold. */
  ghost predicate Holds(uuid: seq<Byte>, link: Link, rawConn: bool, unwritten: seq<Byte>, frames: seq<Frame>,
                        tail: seq<Byte>, outer: seq<Byte>, raw: seq<Byte>, written: seq<Byte>)
  {
    && Consistent(uuid, link, rawConn, unwritten, frames, tail)
    && outer == WireBytes(uuid, frames, tail)
    && (raw != [] ==> rawConn)
    && written == Contents(frames) + tail + raw
  }

  /** A padded call carries on a stream: what the plan says about the commands is all it needs. */
  lemma {:induction false} GrowStream(frames: seq<Frame>, fs: seq<Frame>, plan: Plan, pieces: seq<Buffer>)
    requires Proper(frames, []) && !Ended(frames)
    requires Agreed(plan, pieces) && Carry(fs, plan.commands, pieces)
    ensures plan.isPadding <==> !Ended(frames + fs)
    ensures Ended(frames + fs) ==> (frames + fs)[|frames + fs| - 1].command == END || EndedDirect(frames + fs)
    ensures EndedDirect(frames + fs) <==> plan.direct
    ensures plan.direct ==> Flat(pieces[|fs|..]) == []
  {
    var all := frames + fs;
    if fs == [] {
      assert all == frames;
    } else {
      assert all[|all| - 1] == fs[|fs| - 1];
      assert fs[|fs| - 1].command == Last(plan.commands);
    }
  }

  lemma {:induction false} GrowWire(uuid: seq<Byte>, frames: seq<Frame>, fs: seq<Frame>, out: seq<Byte>,
                                    rest: seq<Byte>, tail: seq<Byte>)
    requires Emitted(out, if frames == [] then uuid else [], rest, fs)
    ensures WireBytes(uuid, frames, []) + out + tail == WireBytes(uuid, frames + fs, tail)
    ensures rest == if frames + fs == [] then uuid else []
  {
    FramesAppend(frames, fs);
    if frames == [] {
      assert frames + fs == fs;
    } else if fs == [] {
      assert frames + fs == frames;
    }
  }

  /** While padding there is nothing but frames. */
  lemma {:induction false} OnlyFrames(uuid: seq<Byte>, link: Link, rawConn: bool, unwritten: seq<Byte>,
                                      frames: seq<Frame>, tail: seq<Byte>, outer: seq<Byte>, raw: seq<Byte>,
                                      written: seq<Byte>)
    requires Holds(uuid, link, rawConn, unwritten, frames, tail, outer, raw, written) && link.isPadding
    ensures !rawConn && tail == [] && raw == [] && written == Contents(frames)
  {
    assert Contents(frames) + [] + [] == Contents(frames);
  }

  /** All of it together: a padded call keeps the ledger. */
  lemma {:induction false} GrowAll(uuid: seq<Byte>, link: Link, rawConn: bool, unwritten: seq<Byte>,
                                   frames: seq<Frame>, tail: seq<Byte>, outer: seq<Byte>, raw: seq<Byte>,
                                   written: seq<Byte>, plan: Plan, pieces: seq<Buffer>, fs: seq<Frame>,
                                   out: seq<Byte>, rest: seq<Byte>)
    requires Holds(uuid, link, rawConn, unwritten, frames, tail, outer, raw, written) && link.isPadding
    requires Agreed(plan, pieces) && Carry(fs, plan.commands, pieces)
    requires Emitted(out, unwritten, rest, fs)
    ensures var plain := Flat(pieces[|fs|..]);
      Holds(uuid, link.(isPadding := plan.isPadding, writeDirect := plan.direct), rawConn, rest, frames + fs, plain,
            outer + out + plain, raw, written + Flat(pieces))
  {
    OnlyFrames(uuid, link, rawConn, unwritten, frames, tail, outer, raw, written);
    GrowContent(frames, fs, plan.commands, pieces);
    GrowProper(frames, fs, plan, pieces);
    GrowStream(frames, fs, plan, pieces);
    GrowWire(uuid, frames, fs, out, rest, Flat(pieces[|fs|..]));
  }

  /** What a padded call decides about the multi-buffer it is given. */
  ghost function WritePlan(d: Detection, mb: seq<Buffer>): Plan {
    PlanFrom(d, Records.WholeRecords(Flat(mb)), Reshaped(mb), true)
  }

  /** The padding of these frames, made of the leading pieces, is long or short as it should be. */
  ghost predicate PaddedWell(seed: seq<nat>, d: Detection, complete: bool, pieces: seq<Buffer>, fs: seq<Frame>)
    requires Drawable(seed)
  {
    |fs| <= |pieces| && forall k :: 0 <= k < |fs| ==> PaddedAs(seed, LongAt(d, complete, pieces, k), fs[k])
  }

  lemma {:induction false} PaddedNext(seed: seq<nat>, d: Detection, complete: bool, pieces: seq<Buffer>,
                                      fs: seq<Frame>, more: seq<Frame>)
    requires Drawable(seed) && PaddedWell(seed, d, complete, pieces, fs)
    requires |more| == |fs| + 1 <= |pieces| && more[..|fs|] == fs
    requires PaddedAs(seed, LongAt(d, complete, pieces, |fs|), more[|fs|])
    ensures PaddedWell(seed, d, complete, pieces, more)
  {
    assert forall k :: 0 <= k < |fs| ==> more[k] == more[..|fs|][k];
  }

  /** What a padded call does: one long empty frame for a bare header, otherwise frames as planned, long
      or short as they should be; the link changes as the plan says. */
  ghost predicate FramedAs(seed: seq<nat>, d: Detection, mb: Input, fs: seq<Frame>, before: Link, after: Link)
    requires Drawable(seed)
  {
    if BareHeader(mb) then
      && |fs| == 1 && fs[0].command == CONTINUE && fs[0].content == [] && PaddedAs(seed, true, fs[0])
      && after == before.(writeDirect := false)
    else
      var plan := WritePlan(d, Buffers(mb));
      && Carry(fs, plan.commands, Reshaped(Buffers(mb)))
      && PaddedWell(seed, d, Records.WholeRecords(Flat(Buffers(mb))), Reshaped(Buffers(mb)), fs)
      && after == before.(isPadding := plan.isPadding, writeDirect := plan.direct)
  }

  /** The two steps in front of the loop. */
  method Prepare(d: Detection, mb: seq<Buffer>, ghost plan: Plan) returns (pieces: seq<Buffer>, isComplete: bool)
    requires Sound(d) && plan == WritePlan(d, mb)
    ensures pieces == Reshaped(mb) && Flat(pieces) == Flat(mb)
    ensures isComplete == Records.WholeRecords(Flat(mb))
    ensures forall b :: b in pieces ==> |b| <= SIZE - RESERVED
    ensures Agreed(plan, pieces) && Settled(plan, d, isComplete, pieces, 0, true, false)
  {
    isComplete := Records.IsCompleteRecord(Flat(mb));
    pieces := ReshapeMultiBuffer(mb);
    ReshapeKeeps(mb);
    SwitchAgreement(d, isComplete, pieces);
    assert pieces[0..] == pieces;
  }

  /** No piece so far has put an end to the long padding. */
  ghost predicate StillLong(d: Detection, complete: bool, pieces: seq<Buffer>, i: nat)
    requires i <= |pieces|
  {
    d.isTls && forall j :: 0 <= j < i ==> !(complete && ApplicationData(pieces[j]))
  }

  /** The three-way choice in the loop below: the command of piece i, whether it is padded at length,
      and what has changed; last tells that the loop is left and the other pieces stay plain. */
  method NextCommand(d: Detection, isComplete: bool, pieces: seq<Buffer>, i: nat, isPadding: bool,
                     longPadding: bool, switchToDirectCopy: bool, ghost plan: Plan)
    returns (command: Byte, long: bool, isPadding': bool, longPadding': bool, switchToDirectCopy': bool, last: bool)
    requires Settled(plan, d, isComplete, pieces, i, isPadding, switchToDirectCopy) && i < |pieces|
    requires longPadding == StillLong(d, isComplete, pieces, i)
    ensures long == LongAt(d, isComplete, pieces, i)
    ensures last || longPadding' == StillLong(d, isComplete, pieces, i + 1)
    ensures i < |plan.commands| && plan.commands[i] == command
    ensures !last ==> Settled(plan, d, isComplete, pieces, i + 1, isPadding', switchToDirectCopy')
    ensures last ==> |plan.commands| == i + 1 && plan.isPadding == isPadding' && plan.direct == switchToDirectCopy'
  {
    SettleNext(plan, d, isComplete, pieces, i, isPadding, switchToDirectCopy);
    EndsAtData(d, isComplete, pieces[i]);
    command, long, last := CONTINUE, longPadding, false;
    isPadding', longPadding', switchToDirectCopy' := isPadding, longPadding, switchToDirectCopy;
    if EndsAt(d, isComplete, pieces[i]) {
      if d.enableXtls {
        switchToDirectCopy' := true;
      }
      if i == |pieces| - 1 {
        command := Terminator(d);
      }
      long := true;
      isPadding' := false;
      longPadding' := false;
    } else if EndsEarly(d) {
      isPadding' := false;
      command := END;
      last := true;
    } else if i == |pieces| - 1 && !isPadding {
      command := Terminator(d);
    }
  }

  /** In front of piece i. */
  ghost predicate InLoop(seed: seq<nat>, plan: Plan, d: Detection, complete: bool, pieces: seq<Buffer>, i: nat,
                         isPadding: bool, longPadding: bool, direct: bool, fs: seq<Frame>)
    requires Drawable(seed)
  {
    && Settled(plan, d, complete, pieces, i, isPadding, direct)
    && |fs| == i && Carry(fs, plan.commands[..i], pieces)
    && PaddedWell(seed, d, complete, pieces, fs)
    && longPadding == StillLong(d, complete, pieces, i)
  }

  /** Behind the loop. */
  ghost predicate Done(seed: seq<nat>, plan: Plan, d: Detection, complete: bool, pieces: seq<Buffer>,
                       isPadding: bool, direct: bool, fs: seq<Frame>)
    requires Drawable(seed)
  {
    && Carry(fs, plan.commands, pieces) && PaddedWell(seed, d, complete, pieces, fs)
    && isPadding == plan.isPadding && direct == plan.direct
  }

  lemma {:induction false} LoopDone(seed: seq<nat>, plan: Plan, d: Detection, complete: bool, pieces: seq<Buffer>,
                                    isPadding: bool, longPadding: bool, direct: bool, fs: seq<Frame>)
    requires Drawable(seed)
    requires InLoop(seed, plan, d, complete, pieces, |pieces|, isPadding, longPadding, direct, fs)
    ensures Done(seed, plan, d, complete, pieces, isPadding, direct, fs)
  {
    SettledAll(plan, d, complete, pieces, isPadding, direct);
    TakeAll(plan.commands, |pieces|);
  }

  class VisionWriter {
    const trafficState: TrafficState
    const isUplink: bool
    const testseed: seq<nat>
    var writeOnceUserUUID: seq<Byte>
    var rawConn: bool        // Writer is the raw connection
    var outer: seq<Byte>     // what has gone through the writer of the outer connection
    var raw: seq<Byte>       // what has gone to the raw connection
    ghost var frames: seq<Frame>
    ghost var tail: seq<Byte>     // unpadded bytes behind the last frame on the outer connection
    ghost var written: seq<Byte>  // everything the callers handed over

    /** The ledger holds; it is compared with true so that a method proves it as one fact. */
    ghost predicate Valid()
      reads this, trafficState
    {
      && trafficState.Valid()
      && Drawable(testseed) && Balanced(testseed)
      && Holds(trafficState.userUUID, trafficState.WriterLink(isUplink), rawConn, writeOnceUserUUID, frames, tail,
               outer, raw, written) == true
    }

    constructor (trafficState: TrafficState, isUplink: bool, testseed: seq<nat>)
      requires trafficState.Valid()
      requires trafficState.WriterLink(isUplink).isPadding && !trafficState.WriterLink(isUplink).writeDirect
      requires |testseed| >= 4 ==> Drawable(testseed) && Balanced(testseed)
      ensures Valid() && this.trafficState == trafficState && this.isUplink == isUplink
      ensures written == outer == raw == [] && frames == [] && tail == []
      ensures this.testseed == if |testseed| < 4 then [900, 500, 900, 256] else testseed
    {
      this.trafficState := trafficState;
      this.isUplink := isUplink;
      this.testseed := if |testseed| < 4 then DEFAULT_SEED else testseed;
      writeOnceUserUUID := trafficState.userUUID;
      rawConn := false;
      outer, raw := [], [];
      frames, tail, written := [], [], [];
    }

    /** Pads the next piece, with the UUID in front if it has not been written yet. */
    method PadPiece(b: Buffer, command: Byte, long: bool, mb: seq<Byte>,
                    ghost pieces: seq<Buffer>, ghost commands: seq<Byte>, ghost uuid: seq<Byte>, ghost fs: seq<Frame>)
      returns (mb': seq<Byte>, ghost fs': seq<Frame>)
      requires Drawable(testseed) && Balanced(testseed) && |uuid| <= UUID_LENGTH
      requires |fs| < |pieces| && pieces[|fs|] == b && |b| <= SIZE - RESERVED
      requires |fs| < |commands| && commands[|fs|] == command && Carry(fs, commands[..|fs|], pieces)
      requires Emitted(mb, uuid, writeOnceUserUUID, fs)
      modifies this`writeOnceUserUUID
      ensures |fs'| == |fs| + 1 && Carry(fs', commands[..|fs'|], pieces)
      ensures fs'[..|fs|] == fs && PaddedAs(testseed, long, fs'[|fs|])
      ensures Emitted(mb', uuid, writeOnceUserUUID, fs')
    {
      ghost var i := |fs|;
      var frame: Buffer;
      ghost var f;
      frame, f := XtlsPadding(b, command, writeOnceUserUUID, long, testseed);
      EmitNext(mb, uuid, writeOnceUserUUID, fs, f);
      CarryNext(fs, commands[..i], pieces, f);
      TakeNext(commands, i);
      writeOnceUserUUID := [];
      mb', fs' := mb + frame, fs + [f];
    }

    /** One turn of the loop below. */
    method PadNext(d: Detection, pieces: seq<Buffer>, isComplete: bool, i: nat, isPadding: bool, longPadding: bool,
                   switchToDirectCopy: bool, mb: seq<Byte>, ghost plan: Plan, ghost uuid: seq<Byte>,
                   ghost fs: seq<Frame>)
      returns (mb': seq<Byte>, isPadding': bool, longPadding': bool, switchToDirectCopy': bool, last: bool,
               ghost fs': seq<Frame>)
      requires Drawable(testseed) && Balanced(testseed) && |uuid| <= UUID_LENGTH
      requires i < |pieces| && |pieces[i]| <= SIZE - RESERVED
      requires InLoop(testseed, plan, d, isComplete, pieces, i, isPadding, longPadding, switchToDirectCopy, fs)
      requires Emitted(mb, uuid, writeOnceUserUUID, fs)
      modifies this`writeOnceUserUUID
      ensures Emitted(mb', uuid, writeOnceUserUUID, fs') && |fs'| == i + 1
      ensures last || InLoop(testseed, plan, d, isComplete, pieces, i + 1, isPadding', longPadding',
                             switchToDirectCopy', fs')
      ensures !last || Done(testseed, plan, d, isComplete, pieces, isPadding', switchToDirectCopy', fs')
    {
      var command, long;
      command, long, isPadding', longPadding', switchToDirectCopy', last :=
        NextCommand(d, isComplete, pieces, i, isPadding, longPadding, switchToDirectCopy, plan);
      mb', fs' := PadPiece(pieces[i], command, long, mb, pieces, plan.commands, uuid, fs);
      PaddedNext(testseed, d, isComplete, pieces, fs, fs');
      if last {
        TakeAll(plan.commands, i + 1);
      }
    }

    /** The loop over the pieces of a padded call. */
    method PadPieces(d: Detection, pieces: seq<Buffer>, isComplete: bool, ghost plan: Plan)
      returns (mb: seq<Byte>, framed: nat, isPadding: bool, switchToDirectCopy: bool, ghost fs: seq<Frame>)
      requires Drawable(testseed) && Balanced(testseed)
      requires |writeOnceUserUUID| <= UUID_LENGTH
      requires forall b :: b in pieces ==> |b| <= SIZE - RESERVED
      requires Settled(plan, d, isComplete, pieces, 0, true, false)
      modifies this`writeOnceUserUUID
      ensures Carry(fs, plan.commands, pieces) && framed == |fs|
      ensures PaddedWell(testseed, d, isComplete, pieces, fs)
      ensures isPadding == plan.isPadding && switchToDirectCopy == plan.direct
      ensures Emitted(mb, old(writeOnceUserUUID), writeOnceUserUUID, fs)
    {
      ghost var uuid := writeOnceUserUUID;
      var longPadding := d.isTls;
      isPadding, switchToDirectCopy := true, false;
      mb, fs := [], [];
      var last := false;  // the rest of the pieces goes out as it is
      var i := 0;
      while i < |pieces| && !last
        invariant i == |fs| <= |pieces|
        invariant Emitted(mb, uuid, writeOnceUserUUID, fs)
        invariant last || InLoop(testseed, plan, d, isComplete, pieces, i, isPadding, longPadding,
                                 switchToDirectCopy, fs)
        invariant !last || Done(testseed, plan, d, isComplete, pieces, isPadding, switchToDirectCopy, fs)
        decreases |pieces| - i
      {
        mb, isPadding, longPadding, switchToDirectCopy, last, fs :=
          PadNext(d, pieces, isComplete, i, isPadding, longPadding, switchToDirectCopy, mb, plan, uuid, fs);
        i := i + 1;
      }
      if !last {
        LoopDone(testseed, plan, d, isComplete, pieces, isPadding, longPadding, switchToDirectCopy, fs);
      }
      framed := i;
    }

    /** Everything as it was, but for the UUID, which may have gone out with the frames at hand. */
    ghost predicate ValidBefore(unwritten: seq<Byte>)
      reads this, trafficState
    {
      && trafficState.Valid()
      && Drawable(testseed) && Balanced(testseed)
      && trafficState.WriterLink(isUplink).isPadding
      && Holds(trafficState.userUUID, trafficState.WriterLink(isUplink), rawConn, unwritten,
               frames, tail, outer, raw, written)
    }

    /** Hands the frames and the plain rest of a padded call to the outer connection. */
    method Emit(out: seq<Byte>, plain: seq<Byte>, isPadding: bool, switchToDirectCopy: bool,
                ghost unwritten: seq<Byte>, ghost fs: seq<Frame>, ghost plan: Plan, ghost pieces: seq<Buffer>)
      requires ValidBefore(unwritten)
      requires Agreed(plan, pieces) && Carry(fs, plan.commands, pieces)
      requires Emitted(out, unwritten, writeOnceUserUUID, fs)
      requires plain == Flat(pieces[|fs|..])
      requires isPadding == plan.isPadding && switchToDirectCopy == plan.direct
      modifies trafficState, this`outer, this`frames, this`tail, this`written
      ensures Valid() && written == old(written) + Flat(pieces) && frames == old(frames) + fs
      ensures trafficState.Seen() == old(trafficState.Seen())
      ensures trafficState.ReaderLink(isUplink) == old(trafficState.ReaderLink(isUplink))
      ensures trafficState.WriterLink(isUplink) ==
        old(trafficState.WriterLink(isUplink)).(isPadding := isPadding, writeDirect := switchToDirectCopy)
    {
      var link := trafficState.WriterLink(isUplink);
      GrowAll(trafficState.userUUID, link, rawConn, unwritten, frames, tail, outer, raw, written, plan, pieces, fs, out,
              writeOnceUserUUID);
      outer := outer + out + plain;
      frames := frames + fs;
      tail := plain;
      written := written + Flat(pieces);
      trafficState.SetReaderLink(!isUplink, link.(isPadding := isPadding, writeDirect := switchToDirectCopy));
    }

    /** The padded branch of WriteMultiBuffer for anything but a bare header. */
    method WritePadded(mb: seq<Buffer>) returns (ghost fs: seq<Frame>)
      requires Valid() && trafficState.WriterLink(isUplink).isPadding
      modifies trafficState, this`writeOnceUserUUID, this`outer, this`frames, this`tail, this`written
      ensures Valid() && written == old(written) + Flat(mb)
      ensures trafficState.Seen() == old(trafficState.Seen())
      ensures trafficState.ReaderLink(isUplink) == old(trafficState.ReaderLink(isUplink))
      ensures var plan := WritePlan(trafficState.Seen(), mb);
        && trafficState.WriterLink(isUplink) ==
           old(trafficState.WriterLink(isUplink)).(isPadding := plan.isPadding, writeDirect := plan.direct)
        && frames == old(frames) + fs && Carry(fs, plan.commands, Reshaped(mb))
      ensures PaddedWell(testseed, trafficState.Seen(), Records.WholeRecords(Flat(mb)), Reshaped(mb), fs)
    {
      var d := trafficState.Seen();
      ghost var plan := WritePlan(d, mb);
      var pieces, isComplete := Prepare(d, mb, plan);
      fs := PadAndEmit(d, pieces, isComplete, plan);
    }

    method PadAndEmit(d: Detection, pieces: seq<Buffer>, isComplete: bool,
                      ghost plan: Plan) returns (ghost fs: seq<Frame>)
      requires Valid() && trafficState.WriterLink(isUplink).isPadding
      requires forall b :: b in pieces ==> |b| <= SIZE - RESERVED
      requires Agreed(plan, pieces) && Settled(plan, d, isComplete, pieces, 0, true, false)
      modifies trafficState, this`writeOnceUserUUID, this`outer, this`frames, this`tail, this`written
      ensures Valid() && written == old(written) + Flat(pieces)
      ensures trafficState.Seen() == old(trafficState.Seen())
      ensures trafficState.ReaderLink(isUplink) == old(trafficState.ReaderLink(isUplink))
      ensures trafficState.WriterLink(isUplink) ==
        old(trafficState.WriterLink(isUplink)).(isPadding := plan.isPadding, writeDirect := plan.direct)
      ensures frames == old(frames) + fs && Carry(fs, plan.commands, pieces)
      ensures PaddedWell(testseed, d, isComplete, pieces, fs)
    {
      ghost var unwritten := writeOnceUserUUID;
      var out, framed, isPadding, switchToDirectCopy;
      out, framed, isPadding, switchToDirectCopy, fs := PadPieces(d, pieces, isComplete, plan);
      Emit(out, Flat(pieces[framed..]), isPadding, switchToDirectCopy, unwritten, fs, plan, pieces);
    }

    /** One long frame without content, to hide the size of the request header. */
    method WriteHeader() returns (ghost f: Frame)
      requires Valid() && trafficState.WriterLink(isUplink).isPadding
      modifies trafficState, this`writeOnceUserUUID, this`outer, this`frames, this`tail, this`written
      ensures Valid() && written == old(written)
      ensures trafficState.Seen() == old(trafficState.Seen())
      ensures trafficState.ReaderLink(isUplink) == old(trafficState.ReaderLink(isUplink))
      ensures trafficState.WriterLink(isUplink) == old(trafficState.WriterLink(isUplink))
      ensures frames == old(frames) + [f] && f.command == CONTINUE && f.content == []
      ensures PaddedAs(testseed, true, f)
    {
      ghost var unwritten := writeOnceUserUUID;
      ghost var fs: seq<Frame> := [];
      ghost var pieces: seq<Buffer> := [[]];
      var out: seq<Byte> := [];
      out, fs := PadPiece([], CONTINUE, true, out, pieces, [CONTINUE], unwritten, fs);
      assert [CONTINUE][..1] == [CONTINUE];
      assert Flat(pieces) == [] && pieces[1..] == [];
      Emit(out, [], true, false, unwritten, fs, Plan([CONTINUE], true, false), pieces);
      f := fs[0];
      assert fs == [f];
    }

    /** The connection to the peer is replaced by the raw one once a Direct frame has gone out. */
    method TakeRawConn()
      requires Valid()
      modifies trafficState, this`rawConn
      ensures Valid()
      ensures trafficState.Seen() == old(trafficState.Seen())
      ensures trafficState.ReaderLink(isUplink) == old(trafficState.ReaderLink(isUplink))
      ensures trafficState.WriterLink(isUplink) == old(trafficState.WriterLink(isUplink)).(writeDirect := false)
    {
      var link := trafficState.WriterLink(isUplink);
      if link.writeDirect {
        rawConn := true;
        trafficState.SetReaderLink(!isUplink, link.(writeDirect := false));
      }
    }

    /** Bytes that go out as they are. */
    method WritePlain(bytes: seq<Byte>)
      requires Valid()
      requires !trafficState.WriterLink(isUplink).isPadding && !trafficState.WriterLink(isUplink).writeDirect
      modifies this`outer, this`raw, this`tail, this`written
      ensures Valid() && written == old(written) + bytes
      ensures EndedDirect(frames) ==> raw == old(raw) + bytes && outer == old(outer)
      ensures !EndedDirect(frames) ==> outer == old(outer) + bytes && raw == old(raw)
    {
      if rawConn {
        raw := raw + bytes;
      } else {
        outer := outer + bytes;
        tail := tail + bytes;
      }
      written := written + bytes;
    }

    /** What comes first in every call. */
    method Begin(bs: seq<Buffer>, stale: Leftovers)
      requires Valid()
      modifies trafficState, this`rawConn
      ensures Valid()
      ensures trafficState.Seen() == Observe(old(trafficState.Seen()), bs, stale)
      ensures trafficState.ReaderLink(isUplink) == old(trafficState.ReaderLink(isUplink))
      ensures trafficState.WriterLink(isUplink) == old(trafficState.WriterLink(isUplink)).(writeDirect := false)
    {
      TakeRawConn();
      if trafficState.numberOfPacketToFilter > 0 {
        trafficState.XtlsFilterTls(bs, stale);
      }
    }

    /** A call while padding goes on. */
    method WriteFramed(mb: Input) returns (ghost fs: seq<Frame>)
      requires Valid() && Usable(mb) && trafficState.WriterLink(isUplink).isPadding
      modifies trafficState, this`writeOnceUserUUID, this`outer, this`frames, this`tail, this`written
      ensures Valid() && written == old(written) + Flat(Buffers(mb))
      ensures trafficState.Seen() == old(trafficState.Seen())
      ensures trafficState.ReaderLink(isUplink) == old(trafficState.ReaderLink(isUplink))
      ensures frames == old(frames) + fs
      ensures FramedAs(testseed, trafficState.Seen(), mb, fs, old(trafficState.WriterLink(isUplink)),
                       trafficState.WriterLink(isUplink))
    {
      if |mb| == 1 && mb[0] == None {
        ghost var f := WriteHeader();
        fs := [f];
        assert Buffers(mb) == [];
      } else {
        fs := WritePadded(Buffers(mb));
      }
    }

    /** The rest of every call. */
    method Proceed(mb: Input) returns (ghost fs: seq<Frame>)
      requires Valid() && Usable(mb) && !trafficState.WriterLink(isUplink).writeDirect
      modifies trafficState, this`writeOnceUserUUID, this`outer, this`raw, this`frames, this`tail, this`written
      ensures Valid() && written == old(written) + Flat(Buffers(mb))
      ensures trafficState.Seen() == old(trafficState.Seen())
      ensures trafficState.ReaderLink(isUplink) == old(trafficState.ReaderLink(isUplink))
      ensures frames == old(frames) + fs
      ensures old(trafficState.WriterLink(isUplink)).isPadding ==>
        && FramedAs(testseed, trafficState.Seen(), mb, fs, old(trafficState.WriterLink(isUplink)),
                    trafficState.WriterLink(isUplink))
        && raw == old(raw)
      ensures !old(trafficState.WriterLink(isUplink)).isPadding ==>
        && fs == []
        && trafficState.WriterLink(isUplink) == old(trafficState.WriterLink(isUplink))
        && (EndedDirect(frames) ==> raw == old(raw) + Flat(Buffers(mb)) && outer == old(outer))
        && (!EndedDirect(frames) ==> outer == old(outer) + Flat(Buffers(mb)) && raw == old(raw))
    {
      if trafficState.WriterLink(isUplink).isPadding {
        fs := WriteFramed(mb);
      } else {
        fs := [];
        WritePlain(Flat(Buffers(mb)));
      }
    }

    method WriteMultiBuffer(mb: Input, stale: Leftovers) returns (ghost fs: seq<Frame>)
      requires Valid() && Usable(mb)
      modifies trafficState, this
      ensures Valid() && written == old(written) + Flat(Buffers(mb))
      ensures trafficState.Seen() == Observe(old(trafficState.Seen()), Buffers(mb), stale)
      ensures trafficState.ReaderLink(isUplink) == old(trafficState.ReaderLink(isUplink))
      ensures frames == old(frames) + fs
      // while padding: frames as the plan has it, and nothing past the outer connection
      ensures old(trafficState.WriterLink(isUplink)).isPadding ==>
        && FramedAs(testseed, trafficState.Seen(), mb, fs, old(trafficState.WriterLink(isUplink)),
                    trafficState.WriterLink(isUplink))
        && raw == old(raw)
      // afterwards: no more frames, and the connection that the last frame has announced
      ensures !old(trafficState.WriterLink(isUplink)).isPadding ==>
        && fs == []
        && (EndedDirect(frames) ==> raw == old(raw) + Flat(Buffers(mb)) && outer == old(outer))
        && (!EndedDirect(frames) ==> outer == old(outer) + Flat(Buffers(mb)) && raw == old(raw))
    {
      Begin(Buffers(mb), stale);
      fs := Proceed(mb);
    }
  }
}
