/** Cutting buffers to size and turning each piece into a padded frame. */
module Padding {
  import opened Bytes
  import opened Framing
  import opened Traffic
  import Records

  /** Room for the UUID and a header. */
  const RESERVED := 21

  const DEFAULT_SEED: seq<nat> := [900, 500, 900, 256]

  // ---- ReshapeMultiBuffer --------------------------------------------------------------------

  predicate TooLong(b: Buffer) {
    |b| >= SIZE - RESERVED
  }

  /** Where an over-long buffer is cut: at the last record header, if that is a sensible place. */
  function CutAt(b: Buffer): (index: int)
    requires TooLong(b)
    ensures RESERVED <= index <= SIZE - RESERVED && |b| - index <= SIZE - RESERVED
    ensures index != SIZE / 2 ==> StartsWith(b[index..], Records.APPLICATION_DATA)
  {
    var last := LastIndex(b, Records.APPLICATION_DATA);
    if last < RESERVED || last > SIZE - RESERVED then SIZE / 2 else last
  }

  function Pieces(b: Buffer): seq<Buffer> {
    if TooLong(b) then [b[..CutAt(b)], b[CutAt(b)..]] else [b]
  }

  function Reshaped(mb: seq<Buffer>): seq<Buffer> {
    if mb == [] then [] else Pieces(mb[0]) + Reshaped(mb[1..])
  }

  lemma {:induction false} ReshapedAppend(a: seq<Buffer>, b: seq<Buffer>)
    ensures Reshaped(a + b) == Reshaped(a) + Reshaped(b)
  {
    if a == [] {
      assert a + b == b;
    } else {
      assert (a + b)[1..] == a[1..] + b;
      ReshapedAppend(a[1..], b);
    }
  }

  /** Reshaping moves no byte and leaves room for UUID and header in every piece. */
  lemma {:induction false} ReshapeKeeps(mb: seq<Buffer>)
    ensures Flat(Reshaped(mb)) == Flat(mb)
    ensures forall b :: b in Reshaped(mb) ==> |b| <= SIZE - RESERVED
  {
    if mb != [] {
      ReshapeKeeps(mb[1..]);
      var ps := Pieces(mb[0]);
      FlatAppend(ps, Reshaped(mb[1..]));
      if TooLong(mb[0]) {
        assert ps[1..] == [ps[1]];
        assert Flat(ps) == ps[0] + (ps[1] + Flat([]));
        assert ps[0] + ps[1] == mb[0];
      } else {
        assert ps[1..] == [];
      }
    }
  }

  /** What becomes of one buffer: it is cut in two if it leaves no room, at its last application data header
      if that is neither too early nor too late, otherwise in the middle. */
  lemma {:induction false} ReshapedOne(b: Buffer, last: int)
    requires OccursLast(b, [0x17, 0x03, 0x03], last)
    ensures var cut := if 21 <= last <= SIZE - 21 then last else SIZE / 2;
      Reshaped([b]) == if |b| < SIZE - 21 then [b] else [b[..cut], b[cut..]]
  {
    LastIndexIsLast(b, Records.APPLICATION_DATA);
    OneLast(b, Records.APPLICATION_DATA, last, LastIndex(b, Records.APPLICATION_DATA));
    assert [b][1..] == [];
  }

  lemma {:induction false} NothingTooLong(mb: seq<Buffer>)
    requires forall b :: b in mb ==> !TooLong(b)
    ensures Reshaped(mb) == mb
  {
    if mb != [] {
      NothingTooLong(mb[1..]);
    }
  }

  method ReshapeMultiBuffer(mb: seq<Buffer>) returns (mb2: seq<Buffer>)
    ensures mb2 == Reshaped(mb)
  {
    var needReshape := 0;
    for i := 0 to |mb|
      invariant needReshape >= 0
      invariant needReshape == 0 ==> forall k :: 0 <= k < i ==> !TooLong(mb[k])
    {
      if |mb[i]| >= SIZE - 21 {
        needReshape := needReshape + 1;
      }
    }
    if needReshape == 0 {
      NothingTooLong(mb);
      return mb;
    }
    mb2 := [];
    for i := 0 to |mb|
      invariant mb2 == Reshaped(mb[..i])
    {
      var buffer1 := mb[i];
      assert mb[..i + 1] == mb[..i] + [buffer1];
      ReshapedAppend(mb[..i], [buffer1]);
      assert Reshaped(mb[..i + 1]) == Reshaped(mb[..i]) + Pieces(buffer1) by {
        assert Reshaped([buffer1]) == Pieces(buffer1) + Reshaped([]);
      }
      if |buffer1| >= SIZE - 21 {
        var index := LastIndex(buffer1, Records.APPLICATION_DATA);
        if index < 21 || index > SIZE - 21 {
          index := SIZE / 2;
        }
        var buffer2 := Write([], buffer1[index..]);
        buffer1 := buffer1[..index];
        assert buffer2 == mb[i][index..];
        mb2 := mb2 + [buffer1, buffer2];
      } else {
        mb2 := mb2 + [buffer1];
      }
    }
    assert mb[..|mb|] == mb;
  }

  // ---- XtlsPadding ---------------------------------------------------------------------------

  function Int32(x: int): int {
    var m := x % 0x1_0000_0000;
    if m < 0x8000_0000 then m else m - 0x1_0000_0000
  }

  /** Four seeds whose draws exist and stay within an int32. */
  predicate Drawable(seed: seq<nat>) {
    && |seed| >= 4
    && 0 < seed[1] && 0 < seed[3] <= 0x8000_0000
    && seed[0] < 0x8000_0000 && seed[1] + seed[2] <= 0x8000_0000
  }

  /** The long form pads up to a common size, the short one adds a little noise. */
  predicate PadsLong(seed: seq<nat>, contentLen: nat, longPadding: bool)
    requires Drawable(seed)
  {
    contentLen < Int32(seed[0]) && longPadding
  }

  /** The exclusive upper bound of the random draw. */
  function DrawBound(seed: seq<nat>, contentLen: nat, longPadding: bool): nat
    requires Drawable(seed)
  {
    if PadsLong(seed, contentLen, longPadding) then seed[1] else seed[3]
  }

  function PaddingLength(seed: seq<nat>, contentLen: nat, longPadding: bool, draw: nat): int
    requires Drawable(seed)
  {
    var wanted := if PadsLong(seed, contentLen, longPadding)
                  then Int32(Int32(draw) + Int32(seed[2]) - contentLen)
                  else Int32(draw);
    if wanted > SIZE - RESERVED - contentLen then SIZE - RESERVED - contentLen else wanted
  }

  /** No content and no draw can make the padding negative. */
  ghost predicate NeverNegative(seed: seq<nat>)
    requires Drawable(seed)
  {
    forall contentLen: nat, longPadding: bool, draw: nat ::
      contentLen <= SIZE - RESERVED && draw < DrawBound(seed, contentLen, longPadding)
      ==> PaddingLength(seed, contentLen, longPadding, draw) >= 0
  }

  /** A test on the seeds alone: content just short of the first seed is still reached by the third. */
  predicate Balanced(seed: seq<nat>)
    requires Drawable(seed)
  {
    seed[0] <= seed[2] + 1 || SIZE - RESERVED <= seed[2]
  }

  /** A negative length makes Extend cut the slice backwards, which stops the program. It happens
      for some content if and only if the seeds are not balanced. */
  lemma {:induction false} NegativePaddingExactly(seed: seq<nat>)
    requires Drawable(seed)
    ensures NeverNegative(seed) <==> Balanced(seed)
  {
    if Balanced(seed) {
      forall contentLen: nat, longPadding: bool, draw: nat
        | contentLen <= SIZE - RESERVED && draw < DrawBound(seed, contentLen, longPadding)
        ensures PaddingLength(seed, contentLen, longPadding, draw) >= 0
      {
        BalancedSuffices(seed, contentLen, longPadding, draw);
      }
    } else {
      var contentLen := if seed[0] - 1 <= SIZE - RESERVED then seed[0] - 1 else SIZE - RESERVED;
      NoWrap(seed[0]);
      NoWrap(0);
      NoWrap(seed[2]);
      NoWrap(seed[2] - contentLen);
      assert PaddingLength(seed, contentLen, true, 0) < 0;
    }
  }

  lemma {:induction false} NoWrap(x: int)
    requires -0x8000_0000 <= x < 0x8000_0000
    ensures Int32(x) == x
  {
  }

  lemma {:induction false} BalancedSuffices(seed: seq<nat>, contentLen: nat, longPadding: bool, draw: nat)
    requires Drawable(seed) && Balanced(seed)
    requires contentLen <= SIZE - RESERVED && draw < DrawBound(seed, contentLen, longPadding)
    ensures PaddingLength(seed, contentLen, longPadding, draw) >= 0
  {
    NoWrap(seed[0]);
    NoWrap(draw);
    if contentLen < seed[0] && longPadding {
      NoWrap(seed[2]);
      NoWrap(draw + seed[2] - contentLen);
    }
  }

  /** For example. */
  lemma {:induction false} NegativeExample()
    ensures Drawable([900, 1, 0, 256]) && PaddingLength([900, 1, 0, 256], 899, true, 0) == -899
  {
  }

  lemma {:induction false} DefaultSeed()
    ensures Drawable(DEFAULT_SEED) && Balanced(DEFAULT_SEED)
  {
  }

  /** Some draw gives this length. */
  ghost predicate Drawn(seed: seq<nat>, contentLen: nat, longPadding: bool, paddingLen: nat)
    requires Drawable(seed)
  {
    exists draw: nat :: draw < DrawBound(seed, contentLen, longPadding)
                     && paddingLen == PaddingLength(seed, contentLen, longPadding, draw)
  }

  ghost predicate PaddedAs(seed: seq<nat>, longPadding: bool, f: Frame)
    requires Drawable(seed)
  {
    Drawn(seed, |f.content|, longPadding, |f.padding|)
  }

  function Min(a: int, b: int): int {
    if a <= b then a else b
  }

  /** What that is without the draws: a long frame hides the length of a content that is shorter than the
      first seed in a range of the second seed's width, from the third seed on; any other frame gets less
      noise than the fourth seed; and no frame outgrows its buffer. */
  lemma {:induction false} PaddedExactly(seed: seq<nat>, longPadding: bool, f: Frame)
    requires Drawable(seed) && Balanced(seed) && |f.content| <= SIZE - 21
    ensures PaddedAs(seed, longPadding, f) <==>
      var total := |f.content| + |f.padding|;
      if longPadding && |f.content| < seed[0] then
        Min(seed[2], SIZE - 21) <= total <= Min(seed[1] + seed[2] - 1, SIZE - 21)
      else
        total <= Min(|f.content| + seed[3] - 1, SIZE - 21)
  {
    var contentLen, total := |f.content|, |f.content| + |f.padding|;
    NoWrap(seed[0]);
    if longPadding && contentLen < seed[0] {
      NoWrap(seed[2]);
      forall draw: nat | draw < seed[1]
        ensures contentLen + PaddingLength(seed, contentLen, longPadding, draw) == Min(draw + seed[2], SIZE - 21)
      {
        NoWrap(draw);
        NoWrap(draw + seed[2] - contentLen);
      }
      if Min(seed[2], SIZE - 21) <= total <= Min(seed[1] + seed[2] - 1, SIZE - 21) {
        var draw: nat := if seed[2] <= total then total - seed[2] else 0;
        assert contentLen + PaddingLength(seed, contentLen, longPadding, draw) == total;
      }
    } else {
      forall draw: nat | draw < seed[3]
        ensures contentLen + PaddingLength(seed, contentLen, longPadding, draw) == Min(contentLen + draw, SIZE - 21)
      {
        NoWrap(draw);
      }
      if total <= Min(contentLen + seed[3] - 1, SIZE - 21) {
        var draw: nat := total - contentLen;
        assert contentLen + PaddingLength(seed, contentLen, longPadding, draw) == total;
      }
    }
  }

  function Zeros(n: nat): (z: seq<Byte>)
    ensures |z| == n
  {
    seq(n, _ => 0)
  }

  /** Wraps one piece of content into a frame, behind the UUID if that is still to be written. */
  method XtlsPadding(content: Buffer, command: Byte, userUUID: seq<Byte>, longPadding: bool, testseed: seq<nat>)
    returns (newbuffer: Buffer, ghost frame: Frame)
    requires |content| <= SIZE - RESERVED && |userUUID| <= UUID_LENGTH
    requires Drawable(testseed) && Balanced(testseed)
    ensures frame.command == command && frame.content == content
    ensures |frame.content| + |frame.padding| <= SIZE - RESERVED
    ensures newbuffer == userUUID + Encode(frame)
    ensures PaddedAs(testseed, longPadding, frame)
    ensures OnWire(newbuffer, userUUID, command, content) && |newbuffer| <= SIZE
  {
    var contentLen := |content|;
    var paddingLen := DrawLength(contentLen, longPadding, testseed);
    newbuffer := Write([], userUUID);
    newbuffer := Write(newbuffer, [command, HighByte(contentLen), LowByte(contentLen),
                                   HighByte(paddingLen), LowByte(paddingLen)]);
    newbuffer := Write(newbuffer, content);
    newbuffer := newbuffer + Zeros(paddingLen);  // Extend
    frame := Frame(command, content, Zeros(paddingLen));
    FrameOnWire(userUUID, frame);
  }

  /** The bytes: UUID, command, both lengths with the high byte first, content, padding. */
  ghost predicate OnWire(b: seq<Byte>, uuid: seq<Byte>, command: Byte, content: seq<Byte>) {
    var u := |uuid|;
    && |b| >= u + 5 + |content|
    && var c1: int, c0: int, p1: int, p0: int := b[u + 1], b[u + 2], b[u + 3], b[u + 4];
    && b[..u] == uuid && b[u] == command
    && c1 * 0x100 + c0 == |content|
    && p1 * 0x100 + p0 == |b| - u - 5 - |content|
    && b[u + 5..u + 5 + |content|] == content
  }

  lemma {:induction false} FrameOnWire(uuid: seq<Byte>, f: Frame)
    requires Fits(f)
    ensures OnWire(uuid + Encode(f), uuid, f.command, f.content)
  {
    TwoBytes(|f.content|);
    TwoBytes(|f.padding|);
    var h := Header(f);
    assert uuid + Encode(f) == uuid + h + f.content + f.padding;
  }

  /** The random part: the length of the padding. */
  method DrawLength(contentLen: nat, longPadding: bool, testseed: seq<nat>) returns (paddingLen: nat)
    requires Drawable(testseed) && Balanced(testseed) && contentLen <= SIZE - RESERVED
    ensures Drawn(testseed, contentLen, longPadding, paddingLen) && contentLen + paddingLen <= SIZE - RESERVED
  {
    var draw: nat;
    var wanted;
    if contentLen < Int32(testseed[0]) && longPadding {
      draw :| 0 <= draw < testseed[1];
      wanted := Int32(Int32(draw) + Int32(testseed[2]) - contentLen);
    } else {
      draw :| 0 <= draw < testseed[3];
      wanted := Int32(draw);
    }
    if wanted > SIZE - 21 - contentLen {
      wanted := SIZE - 21 - contentLen;
    }
    BalancedSuffices(testseed, contentLen, longPadding, draw);
    assert wanted == PaddingLength(testseed, contentLen, longPadding, draw);
    paddingLen := wanted;
  }
}
