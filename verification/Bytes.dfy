/** Bytes, buffers and the few slice operations of the Go library that the proxy relies on. */
module Bytes {

  type Byte = x: int | 0 <= x < 0x100

  /** Capacity of a managed buffer. */
  const SIZE := 8192

  /** The readable content of a managed buffer. */
  type Buffer = b: seq<Byte> | |b| <= SIZE

  /** The content of a multi-buffer, end to end. */
  function Flat(bs: seq<seq<Byte>>): seq<Byte> {
    if bs == [] then [] else bs[0] + Flat(bs[1..])
  }

  lemma {:induction false} FlatAppend(a: seq<seq<Byte>>, b: seq<seq<Byte>>)
    ensures Flat(a + b) == Flat(a) + Flat(b)
  {
    if a == [] {
      assert a + b == b;
    } else {
      assert (a + b)[1..] == a[1..] + b;
      FlatAppend(a[1..], b);
    }
  }

  predicate StartsWith(s: seq<Byte>, pattern: seq<Byte>) {
    |pattern| <= |s| && s[..|pattern|] == pattern
  }

  /** bytes.Contains */
  predicate Contains(s: seq<Byte>, pattern: seq<Byte>) {
    exists i :: 0 <= i <= |s| && StartsWith(s[i..], pattern)
  }

  lemma {:induction false} ContainsExactly(s: seq<Byte>, pattern: seq<Byte>)
    ensures Contains(s, pattern) <==> exists before, behind :: s == before + pattern + behind
  {
    if Contains(s, pattern) {
      var i :| 0 <= i <= |s| && StartsWith(s[i..], pattern);
      assert s == s[..i] + pattern + s[i + |pattern|..];
    }
    forall before, behind | s == before + pattern + behind
      ensures Contains(s, pattern)
    {
      assert s[|before|..] == pattern + behind && StartsWith(s[|before|..], pattern);
    }
  }

  /** bytes.LastIndex */
  function LastIndex(s: seq<Byte>, pattern: seq<Byte>): (i: int)
    requires pattern != []
    ensures -1 <= i
    ensures 0 <= i ==> i + |pattern| <= |s| && StartsWith(s[i..], pattern)
  {
    if |s| < |pattern| then -1
    else
      var later := LastIndex(s[1..], pattern);
      if later >= 0 then
        assert s[1..][later..] == s[later + 1..];
        later + 1
      else if StartsWith(s, pattern) then
        assert s[0..] == s;
        0
      else -1
  }


  /** k is where the pattern occurs last in s, or -1. */
  ghost predicate OccursLast(s: seq<Byte>, pattern: seq<Byte>, k: int) {
    && -1 <= k <= |s|
    && (k >= 0 ==> StartsWith(s[k..], pattern))
    && forall j :: k < j <= |s| ==> !StartsWith(s[j..], pattern)
  }

  lemma {:induction false} LastIndexIsLast(s: seq<Byte>, pattern: seq<Byte>)
    requires pattern != []
    ensures OccursLast(s, pattern, LastIndex(s, pattern))
  {
    if |s| >= |pattern| {
      LastIndexIsLast(s[1..], pattern);
      forall j | LastIndex(s, pattern) < j <= |s|
        ensures !StartsWith(s[j..], pattern)
      {
        if j == 0 {
          assert s[0..] == s;
        } else {
          assert s[j..] == s[1..][j - 1..];
        }
      }
    }
  }

  lemma {:induction false} OneLast(s: seq<Byte>, pattern: seq<Byte>, a: int, b: int)
    requires OccursLast(s, pattern, a) && OccursLast(s, pattern, b)
    ensures a == b
  {
  }
  /** A 16-bit length or version on the wire, most significant byte first. */
  function Be16(hi: Byte, lo: Byte): int {
    (hi as int) * 0x100 + lo
  }

  /** byte(n >> 8) and byte(n): the two low-order bytes of an int32, whatever its sign. */
  function HighByte(n: int): Byte {
    n / 0x100 % 0x100
  }

  function LowByte(n: int): Byte {
    n % 0x100
  }

  /** Both bytes together lose nothing exactly for the numbers that fit in sixteen bits. */
  lemma {:induction false} TwoBytes(n: int)
    ensures Be16(HighByte(n), LowByte(n)) == n <==> 0 <= n < 0x10000
  {
  }
}
