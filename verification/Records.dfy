/** IsCompleteRecord: does a multi-buffer hold whole TLS application data records and nothing else? */
module Records {
  import opened Bytes

  const APPLICATION_DATA: seq<Byte> := [0x17, 0x03, 0x03]

  /** One record: the header of section 5.2 of RFC 8446 and its payload. */
  function Record(payload: seq<Byte>): seq<Byte>
  {
    APPLICATION_DATA + [HighByte(|payload|), LowByte(|payload|)] + payload
  }

  predicate Payload(p: seq<Byte>) {
    0 < |p| < 0x10000
  }

  predicate Payloads(ps: seq<seq<Byte>>) {
    forall p :: p in ps ==> Payload(p)
  }

  function Join(ps: seq<seq<Byte>>): seq<Byte> {
    if ps == [] then [] else Record(ps[0]) + Join(ps[1..])
  }

  /** The parse that the byte loop performs, one record at a time. */
  predicate Complete(s: seq<Byte>) {
    s == [] || (
      && |s| >= 5
      && s[..3] == APPLICATION_DATA
      && var n := Be16(s[3], s[4]);
      && 0 < n <= |s| - 5
      && Complete(s[5 + n..]))
  }

  /** The buffer is a run of whole, non-empty records. */
  ghost predicate WholeRecords(s: seq<Byte>) {
    exists ps :: Payloads(ps) && s == Join(ps)
  }

  /** The same parse by position, which is how the loop goes through the bytes. */
  predicate CompleteFrom(b: seq<Byte>, i: nat)
    requires i <= |b|
    decreases |b| - i
  {
    i == |b| || (
      && i + 5 <= |b|
      && b[i] == 0x17 && b[i + 1] == 0x03 && b[i + 2] == 0x03
      && var n := Be16(b[i + 3], b[i + 4]);
      && 0 < n <= |b| - i - 5
      && CompleteFrom(b, i + 5 + n))
  }

  lemma {:induction false} FromIsComplete(b: seq<Byte>, i: nat)
    requires i <= |b|
    ensures CompleteFrom(b, i) <==> Complete(b[i..])
    decreases |b| - i
  {
    if i + 5 <= |b| {
      HeaderAt(b, i);
      var n := Be16(b[i + 3], b[i + 4]);
      if 0 < n <= |b| - i - 5 {
        assert b[i..][5 + n..] == b[i + 5 + n..];
        FromIsComplete(b, i + 5 + n);
      }
    }
  }

  lemma {:induction false} HeaderAt(b: seq<Byte>, i: nat)
    requires i + 5 <= |b|
    ensures b[i..][..3] == APPLICATION_DATA <==> b[i] == 0x17 && b[i + 1] == 0x03 && b[i + 2] == 0x03
    ensures b[i..][3] == b[i + 3] && b[i..][4] == b[i + 4]
  {
    assert b[i..][..3] == [b[i], b[i + 1], b[i + 2]];
  }

  lemma {:induction false} AcceptsWholeRecords(b: seq<Byte>)
    ensures CompleteFrom(b, 0) <==> WholeRecords(b)
  {
    FromIsComplete(b, 0);
    assert b[0..] == b;
    CompleteIffRecords(b);
  }

  /** The loop of the source: five header bytes counted down, then the payload skipped in one go. */
  method IsCompleteRecord(b: seq<Byte>) returns (complete: bool)
    ensures complete <==> WholeRecords(b)
  {
    AcceptsWholeRecords(b);
    var headerLen := 5;
    var recordLen := 0;
    ghost var start := 0;  // where the current record begins
    var i := 0;
    while i < |b|
      invariant 0 <= start <= i <= |b| && 0 <= headerLen <= 5
      invariant i == start + 5 - headerLen
      invariant CompleteFrom(b, 0) == CompleteFrom(b, start)
      invariant headerLen < 5 ==> b[start] == 0x17
      invariant headerLen < 4 ==> b[start + 1] == 0x03
      invariant headerLen < 3 ==> b[start + 2] == 0x03
      invariant headerLen >= 2 ==> recordLen == 0
      invariant headerLen == 1 ==> recordLen == Be16(b[start + 3], 0)
      invariant headerLen == 0 ==> recordLen == Be16(b[start + 3], b[start + 4])
    {
      if headerLen > 0 {
        var data := b[i];
        i := i + 1;
        match headerLen {
        case 5 => if data != 0x17 { return false; }
        case 4 => if data != 0x03 { return false; }
        case 3 => if data != 0x03 { return false; }
        case 2 => recordLen := Be16(data, 0);
        case _ => recordLen := recordLen + data;  // the low byte of recordLen is zero here, so | is +
        }
        headerLen := headerLen - 1;
      } else if recordLen > 0 {
        var remaining := |b| - i;
        if remaining < recordLen {
          return false;
        }
        i := i + recordLen;
        recordLen := 0;
        headerLen := 5;
        start := i;
      } else {
        return false;
      }
    }
    complete := headerLen == 5 && recordLen == 0;
  }

  lemma {:induction false} RecordAt(p: seq<Byte>, rest: seq<Byte>)
    requires Payload(p)
    ensures var s := Record(p) + rest;
      && |s| >= 5 && s[..3] == APPLICATION_DATA && Be16(s[3], s[4]) == |p|
      && s[5..5 + |p|] == p && s[5 + |p|..] == rest
  {
    TwoBytes(|p|);
  }

  lemma {:induction false} JoinIsComplete(ps: seq<seq<Byte>>)
    requires Payloads(ps)
    ensures Complete(Join(ps))
  {
    if ps != [] {
      RecordAt(ps[0], Join(ps[1..]));
      JoinIsComplete(ps[1..]);
    }
  }

  lemma {:induction false} CompleteIsJoin(s: seq<Byte>) returns (ps: seq<seq<Byte>>)
    requires Complete(s)
    ensures Payloads(ps) && Join(ps) == s
  {
    if s == [] {
      ps := [];
    } else {
      var n := Be16(s[3], s[4]);
      var rest := CompleteIsJoin(s[5 + n..]);
      FirstRecord(s, n);
      ps := [s[5..5 + n]] + rest;
      assert ps[0] == s[5..5 + n] && ps[1..] == rest;
    }
  }

  lemma {:induction false} FirstRecord(s: seq<Byte>, n: int)
    requires |s| >= 5 && s[..3] == APPLICATION_DATA && n == Be16(s[3], s[4]) && 0 < n <= |s| - 5
    ensures Payload(s[5..5 + n]) && s == Record(s[5..5 + n]) + s[5 + n..]
  {
    var p := s[5..5 + n];
    assert HighByte(n) == s[3] && LowByte(n) == s[4] && |p| == n;
    assert s == s[..3] + [s[3], s[4]] + p + s[5 + n..];
  }

  /** A buffer is accepted exactly when it is a run of whole, non-empty records ... */
  lemma {:induction false} CompleteIffRecords(s: seq<Byte>)
    ensures Complete(s) <==> WholeRecords(s)
  {
    if Complete(s) {
      var ps := CompleteIsJoin(s);
    }
    forall ps | Payloads(ps) && s == Join(ps)
      ensures Complete(s)
    {
      JoinIsComplete(ps);
    }
  }

  /** ... and it can be cut into records in one way only. */
  lemma {:induction false} RecordsAreUnique(ps: seq<seq<Byte>>, qs: seq<seq<Byte>>)
    requires Payloads(ps) && Payloads(qs) && Join(ps) == Join(qs)
    ensures ps == qs
  {
    if ps == [] || qs == [] {
      assert Join(ps) == [] || Join(qs) == [];
    } else {
      RecordAt(ps[0], Join(ps[1..]));
      RecordAt(qs[0], Join(qs[1..]));
      RecordsAreUnique(ps[1..], qs[1..]);
      assert ps == [ps[0]] + ps[1..];
    }
  }
}
