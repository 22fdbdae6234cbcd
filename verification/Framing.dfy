/** The frame format and the byte-level parser that strips it again. */
module Framing {
  import opened Bytes
  import opened Sequences

  const CONTINUE: Byte := 0x00
  const END: Byte := 0x01
  const DIRECT: Byte := 0x02

  const UUID_LENGTH := 16
  const HEADER_LENGTH := 5

  // ---- Frames --------------------------------------------------------------------------------

  datatype Frame = Frame(command: Byte, content: seq<Byte>, padding: seq<Byte>)

  /** Both lengths survive their two bytes. */
  predicate Fits(f: Frame) {
    |f.content| < 0x10000 && |f.padding| < 0x10000
  }

  function Header(f: Frame): (h: seq<Byte>)
    ensures |h| == HEADER_LENGTH
  {
    [f.command, HighByte(|f.content|), LowByte(|f.content|), HighByte(|f.padding|), LowByte(|f.padding|)]
  }

  function Encode(f: Frame): seq<Byte> {
    Header(f) + f.content + f.padding
  }

  function EncodeAll(fs: seq<Frame>): seq<Byte> {
    if fs == [] then [] else Encode(fs[0]) + EncodeAll(fs[1..])
  }

  function Contents(fs: seq<Frame>): seq<Byte> {
    if fs == [] then [] else fs[0].content + Contents(fs[1..])
  }

  lemma {:induction false} EncodeAppend(a: seq<Frame>, b: seq<Frame>)
    ensures EncodeAll(a + b) == EncodeAll(a) + EncodeAll(b)
  {
    if a == [] {
      assert a + b == b;
    } else {
      assert (a + b)[1..] == a[1..] + b;
      EncodeAppend(a[1..], b);
      Associate(Encode(a[0]), EncodeAll(a[1..]), EncodeAll(b));
    }
  }

  lemma {:induction false} ContentsAppend(a: seq<Frame>, b: seq<Frame>)
    ensures Contents(a + b) == Contents(a) + Contents(b)
  {
    if a == [] {
      assert a + b == b;
    } else {
      assert (a + b)[1..] == a[1..] + b;
      ContentsAppend(a[1..], b);
      Associate(a[0].content, Contents(a[1..]), Contents(b));
    }
  }

  lemma {:induction false} FramesAppend(a: seq<Frame>, b: seq<Frame>)
    ensures EncodeAll(a + b) == EncodeAll(a) + EncodeAll(b)
    ensures Contents(a + b) == Contents(a) + Contents(b)
  {
    EncodeAppend(a, b);
    ContentsAppend(a, b);
  }

  lemma {:induction false} FramesSnoc(a: seq<Frame>, f: Frame)
    ensures EncodeAll(a + [f]) == EncodeAll(a) + Encode(f)
    ensures Contents(a + [f]) == Contents(a) + f.content
  {
    FramesAppend(a, [f]);
    assert [f][1..] == [];
  }

  /** A padded stream goes on while its frames say so; only the last frame may end it. */
  predicate Proper(fs: seq<Frame>, tail: seq<Byte>) {
    && (forall f :: f in fs ==> Fits(f))
    && (forall i :: 0 <= i < |fs| - 1 ==> fs[i].command == CONTINUE)
    && (tail != [] ==> Ended(fs))
  }

  predicate Ended(fs: seq<Frame>) {
    fs != [] && fs[|fs| - 1].command != CONTINUE
  }

  // ---- The parser ----------------------------------------------------------------------------

  /** CurrentCommand, RemainingCommand, RemainingContent, RemainingPadding. */
  datatype Parser = Parser(command: Byte, header: int, content: int, padding: int)

  const START := Parser(0, -1, -1, -1)

  /** Before the first frame, and again after the last one. */
  predicate Idle(p: Parser) {
    p.header == -1 && p.content == -1 && p.padding == -1
  }

  /** Every state a reader can be in; outside Idle some byte is always still expected. */
  predicate ValidParser(p: Parser) {
    Idle(p) || (InBlock(p) && (p.header > 0 || p.content > 0 || p.padding > 0))
  }

  predicate InBlock(p: Parser) {
    && 0 <= p.header <= HEADER_LENGTH
    && -1 <= p.content < 0x10000 && -1 <= p.padding < 0x10000
    && (p.header <= 3 ==> 0 <= p.content) && (p.header <= 1 ==> 0 <= p.padding)
    && (p.header == 3 ==> p.content % 0x100 == 0) && (p.header == 1 ==> p.padding % 0x100 == 0)
  }

  /** The check at the bottom of the loop: is this block done, and was it the last one? */
  function Settle(p: Parser): (r: Parser)
    ensures InBlock(p) ==> ValidParser(r)
  {
    if p.header <= 0 && p.content <= 0 && p.padding <= 0 then
      if p.command == CONTINUE then p.(header := HEADER_LENGTH)
      else Parser(p.command, -1, -1, -1)
    else p
  }

  /** The five cases of a header byte. */
  function HeaderByte(p: Parser, data: Byte): (r: Parser)
    requires 0 < p.header <= HEADER_LENGTH
    ensures InBlock(p) ==> InBlock(r)
  {
    (match p.header
     case 5 => p.(command := data)
     case 4 => p.(content := Be16(data, 0))
     case 3 => p.(content := p.content + data)
     case 2 => p.(padding := Be16(data, 0))
     case _ => p.(padding := p.padding + data)).(header := p.header - 1)
  }

  /** One byte, in any state but Idle: the next state and what is delivered. */
  function Step(p: Parser, data: Byte): (r: (Parser, seq<Byte>))
    requires ValidParser(p) && !Idle(p)
    ensures ValidParser(r.0)
  {
    if p.header > 0 then (Settle(HeaderByte(p, data)), [])
    else if p.content > 0 then (Settle(p.(content := p.content - 1)), [data])
    else (Settle(p.(padding := p.padding - 1)), [])
  }

  /** The reference parser: byte after byte, and everything behind the last frame as it is. */
  function Unpad(p: Parser, s: seq<Byte>): (r: (Parser, seq<Byte>))
    requires ValidParser(p)
    ensures ValidParser(r.0)
    decreases |s|
  {
    if s == [] || Idle(p) then (p, s)
    else
      var (q, out) := Step(p, s[0]);
      var (r, more) := Unpad(q, s[1..]);
      (r, out + more)
  }

  /** Cutting the stream anywhere makes no difference. */
  lemma {:induction false} UnpadSplit(p: Parser, a: seq<Byte>, b: seq<Byte>)
    requires ValidParser(p)
    ensures var (q, x) := Unpad(p, a); var (r, y) := Unpad(q, b);
      Unpad(p, a + b) == (r, x + y)
    decreases |a|
  {
    if a == [] {
      assert a + b == b;
      assert [] + Unpad(p, b).1 == Unpad(p, b).1;
    } else if !Idle(p) {
      var (p1, out) := Step(p, a[0]);
      assert (a + b)[1..] == a[1..] + b;
      UnpadSplit(p1, a[1..], b);
      var (q, x) := Unpad(p1, a[1..]);
      var y := Unpad(q, b).1;
      assert out + (x + y) == (out + x) + y;
    }
  }

  /** A byte that belongs to a header is never delivered, so something is lost on the way. */
  lemma {:induction false} UnpadShrinks(p: Parser, s: seq<Byte>)
    requires ValidParser(p)
    ensures |Unpad(p, s).1| <= |s|
    ensures !Idle(p) && p.header > 0 && s != [] ==> |Unpad(p, s).1| < |s|
    decreases |s|
  {
    if s != [] && !Idle(p) {
      UnpadShrinks(Step(p, s[0]).0, s[1..]);
    }
  }

  /** The content that fits in one go may be taken in one go ... */
  lemma {:induction false} ContentRun(p: Parser, s: seq<Byte>, n: nat)
    requires ValidParser(p) && !Idle(p) && p.header <= 0
    requires 0 < n <= p.content && n <= |s|
    ensures var q := Settle(p.(content := p.content - n)); var (r, out) := Unpad(q, s[n..]);
      ValidParser(q) && Unpad(p, s) == (r, s[..n] + out)
    decreases n
  {
    var q := Step(p, s[0]).0;
    if n > 1 {
      assert q == p.(content := p.content - 1);
      ContentRun(q, s[1..], n - 1);
      OneByte(s, n, Unpad(Settle(p.(content := p.content - n)), s[n..]).1);
    } else {
      assert s[..1] == [s[0]];
    }
  }

  lemma {:induction false} OneByte(s: seq<Byte>, n: nat, out: seq<Byte>)
    requires 0 < n <= |s|
    ensures s[1..][n - 1..] == s[n..]
    ensures [s[0]] + (s[1..][..n - 1] + out) == s[..n] + out
  {
    assert s[..n] == [s[0]] + s[1..][..n - 1];
  }

  /** Header and padding bytes deliver nothing. */
  lemma {:induction false} SilentStep(p: Parser, s: seq<Byte>)
    requires ValidParser(p) && !Idle(p) && s != []
    requires p.header > 0 || p.content <= 0
    ensures Unpad(p, s) == Unpad(Step(p, s[0]).0, s[1..])
  {
    var more := Unpad(Step(p, s[0]).0, s[1..]).1;
    assert [] + more == more;
  }

  /** ... and so may the padding. */
  lemma {:induction false} PaddingRun(p: Parser, s: seq<Byte>, n: nat)
    requires ValidParser(p) && !Idle(p) && p.header <= 0 && p.content <= 0
    requires 0 < n <= p.padding && n <= |s|
    ensures var q := Settle(p.(padding := p.padding - n));
      ValidParser(q) && Unpad(p, s) == Unpad(q, s[n..])
    decreases n
  {
    var q := Step(p, s[0]).0;
    SilentStep(p, s);
    if n > 1 {
      PaddingRun(q, s[1..], n - 1);
      assert s[1..][n - 1..] == s[n..];
    }
  }

  // ---- Printer and parser undo each other ----------------------------------------------------

  /** Where the parser stands between two frames. */
  predicate AtFrame(p: Parser) {
    ValidParser(p) && p.header == HEADER_LENGTH
  }

  lemma {:induction false} HeaderStep(p: Parser, data: Byte, rest: seq<Byte>)
    requires ValidParser(p) && p.header > 0
    ensures ValidParser(Settle(HeaderByte(p, data)))
    ensures Unpad(p, [data] + rest) == Unpad(Settle(HeaderByte(p, data)), rest)
  {
    var s := [data] + rest;
    assert s[0] == data && s[1..] == rest;
    SilentStep(p, s);
  }

  /** Five header bytes in a row. */
  lemma {:induction false} HeaderSteps(p: Parser, c: Byte, ch: Byte, cl: Byte, ph: Byte, pl: Byte, rest: seq<Byte>)
    requires AtFrame(p)
    ensures var q := Settle(Parser(c, 0, Be16(ch, cl), Be16(ph, pl)));
      ValidParser(q) && Unpad(p, [c] + ([ch] + ([cl] + ([ph] + ([pl] + rest))))) == Unpad(q, rest)
  {
    var p1 := Settle(HeaderByte(p, c));
    HeaderStep(p, c, [ch] + ([cl] + ([ph] + ([pl] + rest))));
    assert p1 == Parser(c, 4, p.content, p.padding);
    HeaderStep(p1, ch, [cl] + ([ph] + ([pl] + rest)));
    HeaderStep(Parser(c, 3, Be16(ch, 0), p.padding), cl, [ph] + ([pl] + rest));
    HeaderStep(Parser(c, 2, Be16(ch, cl), p.padding), ph, [pl] + rest);
    HeaderStep(Parser(c, 1, Be16(ch, cl), Be16(ph, 0)), pl, rest);
  }

  lemma {:induction false} DecodeHeader(p: Parser, f: Frame, rest: seq<Byte>)
    requires AtFrame(p) && Fits(f)
    ensures var q := Settle(Parser(f.command, 0, |f.content|, |f.padding|));
      ValidParser(q) && Unpad(p, Header(f) + rest) == Unpad(q, rest)
  {
    TwoBytes(|f.content|);
    TwoBytes(|f.padding|);
    var h := Header(f);
    HeaderSteps(p, h[0], h[1], h[2], h[3], h[4], rest);
    FiveBytes(h, rest);
  }

  lemma {:induction false} FiveBytes(h: seq<Byte>, rest: seq<Byte>)
    requires |h| == 5
    ensures h + rest == [h[0]] + ([h[1]] + ([h[2]] + ([h[3]] + ([h[4]] + rest))))
  {
  }

  /** The state after a whole frame. */
  function After(f: Frame): Parser {
    Settle(Parser(f.command, 0, 0, 0))
  }

  lemma {:induction false} DecodePadding(q: Parser, padding: seq<Byte>, rest: seq<Byte>)
    requires ValidParser(q) && q == Settle(Parser(q.command, 0, 0, |padding|))
    ensures Unpad(q, padding + rest) == Unpad(Settle(Parser(q.command, 0, 0, 0)), rest)
  {
    if |padding| > 0 {
      PaddingRun(q, padding + rest, |padding|);
      assert (padding + rest)[|padding|..] == rest;
    } else {
      assert padding + rest == rest;
    }
  }

  lemma {:induction false} DecodeContent(q: Parser, content: seq<Byte>, padding: nat, rest: seq<Byte>)
    requires ValidParser(q) && q == Settle(Parser(q.command, 0, |content|, padding))
    ensures ValidParser(Settle(Parser(q.command, 0, 0, padding)))
    ensures var (r, out) := Unpad(Settle(Parser(q.command, 0, 0, padding)), rest);
      Unpad(q, content + rest) == (r, content + out)
  {
    if |content| > 0 {
      ContentRun(q, content + rest, |content|);
      assert (content + rest)[|content|..] == rest && (content + rest)[..|content|] == content;
    } else {
      assert content + rest == rest;
      var out := Unpad(q, rest).1;
      assert content + out == out;
    }
  }

  /** A frame followed by anything: its content comes out, the rest is parsed from the next state. */
  lemma {:induction false} DecodeFrame(p: Parser, f: Frame, rest: seq<Byte>)
    requires AtFrame(p) && Fits(f)
    ensures ValidParser(After(f))
    ensures var (q, out) := Unpad(After(f), rest);
      Unpad(p, Encode(f) + rest) == (q, f.content + out)
  {
    var body := f.content + (f.padding + rest);
    FrameParts(f, rest);
    DecodeHeader(p, f, body);
    DecodeContent(Settle(Parser(f.command, 0, |f.content|, |f.padding|)), f.content, |f.padding|, f.padding + rest);
    DecodePadding(Settle(Parser(f.command, 0, 0, |f.padding|)), f.padding, rest);
  }

  lemma {:induction false} FrameParts(f: Frame, rest: seq<Byte>)
    requires Fits(f)
    ensures Encode(f) + rest == Header(f) + (f.content + (f.padding + rest))
  {
  }

  /** The state after a run of frames. */
  function AfterAll(p: Parser, fs: seq<Frame>): Parser {
    if fs == [] then p else After(fs[|fs| - 1])
  }

  /** The round trip: the contents come back in order, followed by the bytes behind the last frame. */
  lemma {:induction false} DecodeAll(p: Parser, fs: seq<Frame>, tail: seq<Byte>)
    requires AtFrame(p) && Proper(fs, tail)
    ensures ValidParser(AfterAll(p, fs))
    ensures Unpad(p, EncodeAll(fs) + tail) == (AfterAll(p, fs), Contents(fs) + tail)
    ensures Ended(fs) <==> Idle(AfterAll(p, fs))
    decreases |fs|
  {
    if fs == [] {
      assert EncodeAll(fs) + tail == [];
    } else {
      ProperRest(fs, tail);
      FirstFrame(fs, tail);
      DecodeFrame(p, fs[0], EncodeAll(fs[1..]) + tail);
      if fs[1..] == [] {
        NoFrame(After(fs[0]), tail);
      } else {
        DecodeAll(After(fs[0]), fs[1..], tail);
      }
    }
  }

  lemma {:induction false} NoFrame(p: Parser, tail: seq<Byte>)
    requires ValidParser(p) && (Idle(p) || tail == [])
    ensures Unpad(p, EncodeAll([]) + tail) == (p, tail) && Contents([]) + tail == tail
  {
    assert EncodeAll([]) + tail == tail && Contents([]) + tail == tail;
  }

  lemma {:induction false} ProperRest(fs: seq<Frame>, tail: seq<Byte>)
    requires Proper(fs, tail) && fs != []
    ensures Fits(fs[0])
    ensures fs[1..] == [] ==> (Ended(fs) <==> Idle(After(fs[0]))) && (Idle(After(fs[0])) || tail == [])
    ensures fs[1..] != [] ==> AtFrame(After(fs[0])) && Proper(fs[1..], tail) && (Ended(fs) <==> Ended(fs[1..]))
    ensures forall p :: AfterAll(p, fs) == AfterAll(After(fs[0]), fs[1..])
  {
    assert fs[1..] != [] ==> fs[1..][|fs| - 2] == fs[|fs| - 1];
    if fs[1..] != [] {
      assert fs[0].command == CONTINUE;
      forall i | 0 <= i < |fs| - 2 ensures fs[1..][i].command == CONTINUE {
        assert fs[1..][i] == fs[i + 1];
      }
    }
  }

  lemma {:induction false} FirstFrame(fs: seq<Frame>, tail: seq<Byte>)
    requires fs != []
    ensures EncodeAll(fs) + tail == Encode(fs[0]) + (EncodeAll(fs[1..]) + tail)
    ensures Contents(fs) + tail == fs[0].content + (Contents(fs[1..]) + tail)
  {
    Associate(Encode(fs[0]), EncodeAll(fs[1..]), tail);
    Associate(fs[0].content, Contents(fs[1..]), tail);
  }

  // ---- What XtlsUnpadding makes of one buffer ------------------------------------------------

  /** The test for the one-time UUID. */
  predicate Marked(uuid: seq<Byte>, b: seq<Byte>) {
    |b| >= UUID_LENGTH + HEADER_LENGTH && b[..UUID_LENGTH] == uuid
  }

  function Feed(uuid: seq<Byte>, p: Parser, b: seq<Byte>): (r: (Parser, seq<Byte>))
    requires ValidParser(p)
    ensures ValidParser(r.0)
  {
    if Idle(p) && Marked(uuid, b) then Unpad(p.(header := HEADER_LENGTH), b[UUID_LENGTH..])
    else Unpad(p, b)
  }

  /** A stream may be cut into two buffers behind its first 21 bytes, and the two buffers give what
      the whole gives if and only if the second does not look like a new stream after the end. */
  lemma {:induction false} FeedSplit(uuid: seq<Byte>, p: Parser, a: seq<Byte>, b: seq<Byte>)
    requires ValidParser(p)
    requires Idle(p) ==> |a| >= UUID_LENGTH + HEADER_LENGTH
    ensures var (q, x) := Feed(uuid, p, a); var (r, y) := Feed(uuid, q, b);
      Feed(uuid, p, a + b) == (r, x + y) <==> !(Idle(q) && Marked(uuid, b))
  {
    var (q, x) := Feed(uuid, p, a);
    if Idle(p) && Marked(uuid, a) {
      assert (a + b)[UUID_LENGTH..] == a[UUID_LENGTH..] + b;
      assert (a + b)[..UUID_LENGTH] == a[..UUID_LENGTH];
      UnpadSplit(p.(header := HEADER_LENGTH), a[UUID_LENGTH..], b);
    } else {
      assert Idle(p) ==> (a + b)[..UUID_LENGTH] == a[..UUID_LENGTH];
      UnpadSplit(p, a, b);
    }
    if Idle(q) && Marked(uuid, b) {
      UnpadShrinks(q.(header := HEADER_LENGTH), b[UUID_LENGTH..]);
      assert Feed(uuid, p, a + b).1 == x + b;
      assert |x + Feed(uuid, q, b).1| < |x + b|;
    }
  }

  /** A buffer met outside the padded phase goes through untouched if and only if it does not begin
      with the UUID (or is shorter than 21 bytes). */
  lemma {:induction false} OutsideIsUntouched(uuid: seq<Byte>, p: Parser, b: seq<Byte>)
    requires Idle(p)
    ensures Feed(uuid, p, b) == (p, b) <==> !Marked(uuid, b)
  {
    if Marked(uuid, b) {
      UnpadShrinks(p.(header := HEADER_LENGTH), b[UUID_LENGTH..]);
    }
  }
}
