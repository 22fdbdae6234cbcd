/** Counting the source addresses of an access log that keeps growing. */
module AccessLog {
  import opened Sequences

  // ---- bufio.Scanner -------------------------------------------------------------------------

  /** A line of this length, or more, does not fit the scanner's buffer. */
  const MAX_LINE := 0x10_0000

  /** The first line break, or the end. */
  function LineEnd(s: string): (e: nat)
    ensures e <= |s| && (e < |s| ==> s[e] == '\n') && forall i :: 0 <= i < e ==> s[i] != '\n'
  {
    if s == [] || s[0] == '\n' then 0 else 1 + LineEnd(s[1..])
  }

  function DropCR(line: string): string {
    if line != [] && line[|line| - 1] == '\r' then line[..|line| - 1] else line
  }

  /** What is left behind the first line. */
  function Rest(s: string): (r: string)
    ensures s != [] ==> |r| < |s|
  {
    if LineEnd(s) < |s| then s[LineEnd(s) + 1..] else []
  }

  function Lines(s: string): seq<string>
    decreases |s|
  {
    if s == [] then [] else [DropCR(s[..LineEnd(s)])] + Lines(Rest(s))
  }

  /** No line is too long. */
  predicate Fits(s: string)
    decreases |s|
  {
    s == [] || (LineEnd(s) < MAX_LINE && Fits(Rest(s)))
  }

  /** The lines in front of the first one that is too long. */
  function LinesThatFit(s: string): seq<string>
    decreases |s|
  {
    if s == [] || LineEnd(s) >= MAX_LINE then [] else [DropCR(s[..LineEnd(s)])] + LinesThatFit(Rest(s))
  }

  lemma {:induction false} AllFit(s: string)
    requires Fits(s)
    ensures LinesThatFit(s) == Lines(s)
    decreases |s|
  {
    if s != [] {
      AllFit(Rest(s));
    }
  }

  predicate Terminated(s: string) {
    s == [] || s[|s| - 1] == '\n'
  }

  lemma {:induction false} LineEndAppend(a: string, b: string)
    ensures LineEnd(a + b) == if LineEnd(a) < |a| then LineEnd(a) else |a| + LineEnd(b)
  {
    if a == [] {
      assert a + b == b;
    } else {
      assert (a + b)[1..] == a[1..] + b;
      if a[0] != '\n' {
        LineEndAppend(a[1..], b);
      }
    }
  }

  lemma {:induction false} RestOfClosed(a: string, b: string)
    requires LineEnd(a) < |a|
    ensures LineEnd(a + b) == LineEnd(a) && Rest(a + b) == Rest(a) + b
    ensures (a + b)[..LineEnd(a)] == a[..LineEnd(a)]
  {
    LineEndAppend(a, b);
    assert (a + b)[LineEnd(a) + 1..] == a[LineEnd(a) + 1..] + b;
  }

  lemma {:induction false} RestOfOpen(a: string, b: string)
    requires LineEnd(a) == |a|
    ensures Rest(a) == [] && Rest(a + b) == Rest(b)
  {
    LineEndAppend(a, b);
    if LineEnd(b) < |b| {
      assert (a + b)[|a| + LineEnd(b) + 1..] == b[LineEnd(b) + 1..];
    }
  }

  lemma {:induction false} RestTerminated(a: string)
    requires a != []
    ensures Terminated(a) <==> LineEnd(a) < |a| && Terminated(Rest(a))
  {
    if LineEnd(a) < |a| {
      assert Rest(a) != [] ==> Rest(a)[|Rest(a)| - 1] == a[|a| - 1];
    }
  }

  lemma {:induction false} LinesStep(s: string)
    requires s != []
    ensures Lines(s) == [DropCR(s[..LineEnd(s)])] + Lines(Rest(s))
    ensures |Lines(s)| == 1 + |Lines(Rest(s))|
  {
  }

  /** A line that ends in front of the cut is the first one with or without what follows the cut. */
  lemma {:induction false} ClosedLine(a: string, b: string)
    requires a != [] && LineEnd(a) < |a|
    ensures exists first :: Lines(a) == [first] + Lines(Rest(a)) && Lines(a + b) == [first] + Lines(Rest(a) + b)
  {
    RestOfClosed(a, b);
    LinesStep(a);
    LinesStep(a + b);
  }

  /** A line that goes on behind the cut. */
  lemma {:induction false} OpenLine(a: string, b: string)
    requires a != [] && b != [] && LineEnd(a) == |a|
    ensures |Lines(a)| == 1 && |Lines(a + b)| == |Lines(b)|
  {
    RestOfOpen(a, b);
    LinesStep(a);
    LinesStep(b);
    LinesStep(a + b);
  }

  /** Reading a stretch of the log in two goes gives the same lines if the cut is at a line break; a
      cut inside a line makes two of it. */
  lemma {:induction false} LinesAppend(a: string, b: string)
    ensures Terminated(a) || b == [] ==> Lines(a + b) == Lines(a) + Lines(b)
    ensures !Terminated(a) && b != [] ==> |Lines(a + b)| == |Lines(a)| + |Lines(b)| - 1
    decreases |a|
  {
    if a == [] {
      assert a + b == b;
      NothingAdded(Lines(b));
    } else if b == [] {
      assert a + b == a;
    } else if LineEnd(a) < |a| {
      RestTerminated(a);
      LinesAppend(Rest(a), b);
      ClosedLine(a, b);
      var first :| Lines(a) == [first] + Lines(Rest(a)) && Lines(a + b) == [first] + Lines(Rest(a) + b);
      Associate([first], Lines(Rest(a)), Lines(b));
    } else {
      RestTerminated(a);
      OpenLine(a, b);
    }
  }

  /** The cut makes no difference if and only if it is at a line break, or at either end. */
  lemma {:induction false} CutExactly(a: string, b: string)
    ensures Lines(a + b) == Lines(a) + Lines(b) <==> Terminated(a) || b == []
  {
    LinesAppend(a, b);
  }

  /** A line as a log holds it: no line break in it, and no carriage return at its end. */
  predicate PlainLine(line: string) {
    '\n' !in line && (line != [] ==> line[|line| - 1] != '\r')
  }

  function Written(lines: seq<string>, end: string): string {
    if lines == [] then [] else lines[0] + end + Written(lines[1..], end)
  }

  /** What was written line by line is read line by line, with either kind of line end. */
  lemma {:induction false} LinesAsWritten(lines: seq<string>, end: string)
    requires (end == "\n" || end == "\r\n") && forall l :: l in lines ==> PlainLine(l)
    ensures Lines(Written(lines, end)) == lines
  {
    if lines != [] {
      LinesAsWritten(lines[1..], end);
      assert lines[0] in lines;
      PlainWritten(lines[0], end, Written(lines[1..], end));
      assert lines == [lines[0]] + lines[1..];
    }
  }

  lemma {:induction false} PlainWritten(line: string, end: string, more: string)
    requires (end == "\n" || end == "\r\n") && PlainLine(line)
    ensures Lines(line + end + more) == [line] + Lines(more)
  {
    if end == "\n" {
      OneWritten(line, more);
    } else {
      assert line + end + more == (line + "\r") + "\n" + more;
      assert (line + "\r")[..|line|] == line;
      OneWritten(line + "\r", more);
    }
  }

  lemma {:induction false} OneWritten(line: string, more: string)
    requires '\n' !in line
    ensures Lines(line + "\n" + more) == [DropCR(line)] + Lines(more)
  {
    var s := line + "\n" + more;
    EndIs(s, |line|);
    LinesStep(s);
    assert s[|line| + 1..] == more && s[..|line|] == line;
  }

  lemma {:induction false} EndIs(s: string, e: nat)
    requires e < |s| && s[e] == '\n' && forall i :: 0 <= i < e ==> s[i] != '\n'
    ensures LineEnd(s) == e
  {
    assert LineEnd(s) <= e;
  }

  /** The lines fit if and only if no stretch without a line break is too long. */
  lemma {:induction false} FitsExactly(s: string)
    ensures Fits(s) <==> forall i, j :: 0 <= i <= j <= |s| && '\n' !in s[i..j] ==> j - i < 0x10_0000
    decreases |s|
  {
    var e := LineEnd(s);
    assert '\n' !in s[0..e];
    if s != [] && e < MAX_LINE {
      FitsExactly(Rest(s));
      if e < |s| {
        RestStretches(s);
      }
    }
  }

  lemma {:induction false} RestStretches(s: string)
    requires LineEnd(s) < |s| && LineEnd(s) < 0x10_0000
    ensures (forall i, j :: 0 <= i <= j <= |s| && '\n' !in s[i..j] ==> j - i < 0x10_0000) <==>
            (forall i, j :: 0 <= i <= j <= |Rest(s)| && '\n' !in Rest(s)[i..j] ==> j - i < 0x10_0000)
  {
    var e, t := LineEnd(s), Rest(s);
    forall i, j | 0 <= i <= j <= |t|
      ensures t[i..j] == s[i + e + 1..j + e + 1]
    {
    }
    forall i, j | 0 <= i <= j <= |s| && '\n' !in s[i..j] && j - i >= 0x10_0000
      ensures i > e && t[i - e - 1..j - e - 1] == s[i..j]
    {
      if i <= e < j {
        InStretch(s, i, j, e);
      }
    }
  }

  lemma {:induction false} InStretch(s: string, i: nat, j: nat, k: nat)
    requires i <= k < j <= |s|
    ensures s[k] in s[i..j]
  {
    assert s[i..j][k - i] == s[k];
  }

  /** Reading stops in front of the first line that is too long. */
  lemma {:induction false} StopsAtLongLine(a: string, b: string)
    requires Fits(a) && Terminated(a) && b != [] && LineEnd(b) >= 0x10_0000
    ensures LinesThatFit(a + b) == Lines(a)
    decreases |a|
  {
    if a == [] {
      assert a + b == b;
    } else {
      RestTerminated(a);
      RestOfClosed(a, b);
      StopsAtLongLine(Rest(a), b);
    }
  }

  // ---- The records ---------------------------------------------------------------------------

  type Key = (string, int)

  datatype Event = Event(sourceIP: string, port: int, seenAt: int)

  datatype Record = Record(hitCount: nat, firstSeen: int, lastSeen: int)

  type Table = map<Key, Record>

  function KeyOf(e: Event): Key {
    (e.sourceIP, e.port)
  }

  /** upsertRecord on one record. */
  function Hit(r: Record, seenAt: int): Record {
    Record(r.hitCount + 1,
           if r.firstSeen == 0 || seenAt < r.firstSeen then seenAt else r.firstSeen,
           if seenAt >= r.lastSeen then seenAt else r.lastSeen)
  }

  function Upsert(t: Table, e: Event): Table {
    var k := KeyOf(e);
    t[k := if k in t then Hit(t[k], e.seenAt) else Record(1, e.seenAt, e.seenAt)]
  }

  function Fold(t: Table, es: seq<Event>): Table {
    if es == [] then t else Upsert(Fold(t, es[..|es| - 1]), es[|es| - 1])
  }

  lemma {:induction false} FoldAppend(t: Table, a: seq<Event>, b: seq<Event>)
    ensures Fold(t, a + b) == Fold(Fold(t, a), b)
  {
    if b == [] {
      assert a + b == a;
    } else {
      var n := |b| - 1;
      assert (a + b)[..|a + b| - 1] == a + b[..n];
      FoldAppend(t, a, b[..n]);
    }
  }

  /** The accepted events of some lines; parse stands for parseAccessIPLine. */
  function Events(parse: string -> Option<Event>, lines: seq<string>): seq<Event> {
    if lines == [] then []
    else (match parse(lines[0]) case Some(e) => [e] case None => []) + Events(parse, lines[1..])
  }

  /** Each line gives its event, or none; EventsAppend says that the order is kept. */
  lemma {:induction false} EventOfLine(parse: string -> Option<Event>, line: string)
    ensures Events(parse, [line]) == match parse(line) case Some(e) => [e] case None => []
  {
    assert [line][1..] == [] && Events(parse, []) == [];
  }

  lemma {:induction false} EventsAppend(parse: string -> Option<Event>, a: seq<string>, b: seq<string>)
    ensures Events(parse, a + b) == Events(parse, a) + Events(parse, b)
    decreases |a|
  {
    if a == [] {
      assert a + b == b;
    } else {
      assert (a + b)[1..] == a[1..] + b;
      EventsAppend(parse, a[1..], b);
    }
  }

  // ---- What a record says --------------------------------------------------------------------

  /** When the events with this key were seen, in the order of the log. */
  function Times(es: seq<Event>, k: Key): seq<int> {
    if es == [] then []
    else
      var n := |es| - 1;
      Times(es[..n], k) + (if es[n].sourceIP == k.0 && es[n].port == k.1 then [es[n].seenAt] else [])
  }

  function First(ts: seq<int>): int
    requires ts != []
  {
    var n := |ts| - 1;
    if n == 0 then ts[0]
    else
      var f := First(ts[..n]);
      if f == 0 || ts[n] < f then ts[n] else f
  }

  function Last(ts: seq<int>): int
    requires ts != []
  {
    var n := |ts| - 1;
    if n == 0 then ts[0]
    else
      var l := Last(ts[..n]);
      if ts[n] >= l then ts[n] else l
  }

  /** One pass over all events: every key that occurs has a record of its own events, no other has one. */
  lemma {:induction false} FoldRecords(es: seq<Event>, k: Key)
    ensures k in Fold(map[], es) <==> Times(es, k) != []
    ensures Times(es, k) != [] ==>
      var ts := Times(es, k); Fold(map[], es)[k] == Record(|ts|, First(ts), Last(ts))
  {
    if es != [] {
      var n := |es| - 1;
      FoldRecords(es[..n], k);
      var ts := Times(es[..n], k);
      if KeyOf(es[n]) == k {
        assert (ts + [es[n].seenAt])[..|ts|] == ts;
      } else {
        assert Times(es, k) == ts;
      }
    }
  }

  ghost predicate IsMin(m: int, ts: seq<int>) {
    m in ts && forall t :: t in ts ==> m <= t
  }

  ghost predicate IsMax(m: int, ts: seq<int>) {
    m in ts && forall t :: t in ts ==> t <= m
  }

  lemma {:induction false} LastIsMax(ts: seq<int>)
    requires ts != []
    ensures IsMax(Last(ts), ts)
  {
    var n := |ts| - 1;
    assert ts == ts[..n] + [ts[n]];
    if n > 0 {
      LastIsMax(ts[..n]);
    }
  }

  /** A first time of zero counts as not set. So FirstSeen is the minimum if and only if zero is not
      the minimum, or is also the time of the last event. */
  lemma {:induction false} FirstIsMinExactly(ts: seq<int>, m: int)
    requires ts != [] && IsMin(m, ts)
    ensures First(ts) == m <==> m != 0 || ts[|ts| - 1] == 0
    ensures m == 0 ==> First(ts) >= 0
  {
    var n := |ts| - 1;
    assert ts == ts[..n] + [ts[n]];
    if n > 0 {
      var l := MinOf(ts[..n]);
      FirstIsMinExactly(ts[..n], l);
      assert IsMin(if ts[n] < l then ts[n] else l, ts);
      OneMin(m, if ts[n] < l then ts[n] else l, ts);
    }
  }

  /** For example: an event at time zero is forgotten at the next one. */
  lemma {:induction false} FirstExample()
    ensures First([0, 5]) == 5 && IsMin(0, [0, 5])
  {
    assert [0, 5][..1] == [0];
  }

  lemma {:induction false} OneMin(a: int, b: int, ts: seq<int>)
    requires IsMin(a, ts) && IsMin(b, ts)
    ensures a == b
  {
    assert a <= b && b <= a;
  }

  lemma {:induction false} MinOf(ts: seq<int>) returns (m: int)
    requires ts != []
    ensures IsMin(m, ts)
  {
    var n := |ts| - 1;
    assert ts == ts[..n] + [ts[n]];
    m := ts[n];
    if n > 0 {
      var l := MinOf(ts[..n]);
      m := if ts[n] < l then ts[n] else l;
    }
  }

  // ---- The service ---------------------------------------------------------------------------

  /** The table of records, and how far the log has been read. */
  datatype State = State(records: Table, offset: nat)

  function From(offset: nat, log: string): string {
    log[if |log| < offset then 0 else offset..]
  }

  /** ProcessAccessLog on an existing log, with aggregation on. */
  function Processed(parse: string -> Option<Event>, st: State, log: string): State {
    var unread := From(st.offset, log);
    State(Fold(st.records, Events(parse, LinesThatFit(unread))), if Fits(unread) then |log| else st.offset)
  }

  lemma {:induction false} OneMoreLine(parse: string -> Option<Event>, t: Table, s: string)
    requires s != [] && LineEnd(s) < MAX_LINE
    ensures Fits(s) == Fits(Rest(s))
    ensures Fold(t, Events(parse, LinesThatFit(s)))
         == Fold(match parse(DropCR(s[..LineEnd(s)])) case Some(e) => Upsert(t, e) case None => t,
                 Events(parse, LinesThatFit(Rest(s))))
  {
    var line := DropCR(s[..LineEnd(s)]);
    EventsAppend(parse, [line], LinesThatFit(Rest(s)));
    FoldAppend(t, Events(parse, [line]), Events(parse, LinesThatFit(Rest(s))));
    assert Events(parse, [line]) == match parse(line) case Some(e) => [e] case None => [];
    if parse(line).Some? {
      var e := parse(line).value;
      assert [e][..0] == [];
      assert Fold(t, [e]) == Upsert(t, e);
    }
  }

  class AccessIPService {
    const parse: string -> Option<Event>
    const aggregation: bool
    var records: Table
    var offset: nat

    constructor (parse: string -> Option<Event>, aggregation: bool)
      ensures this.parse == parse && this.aggregation == aggregation && St() == State(map[], 0)
    {
      this.parse := parse;
      this.aggregation := aggregation;
      records := map[];
      offset := 0;
    }

    ghost function St(): State
      reads this
    {
      State(records, offset)
    }

    method UpsertRecord(event: Event)
      modifies this`records
      ensures records == Upsert(old(records), event)
    {
      var key := KeyOf(event);
      if key !in records {
        records := records[key := Record(1, event.seenAt, event.seenAt)];
      } else {
        var record := records[key];
        record := record.(hitCount := record.hitCount + 1);
        if record.firstSeen == 0 || event.seenAt < record.firstSeen {
          record := record.(firstSeen := event.seenAt);
        }
        if event.seenAt >= record.lastSeen {
          record := record.(lastSeen := event.seenAt);
        }
        records := records[key := record];
      }
    }

    /** The scanning loop. */
    method ScanLines(text: string) returns (ok: bool)
      modifies this`records
      ensures ok == Fits(text)
      ensures records == Fold(old(records), Events(parse, LinesThatFit(text)))
    {
      var left := text;
      while left != []
        invariant Fits(text) == Fits(left)
        invariant Fold(old(records), Events(parse, LinesThatFit(text)))
               == Fold(records, Events(parse, LinesThatFit(left)))
        decreases |left|
      {
        var e := LineEnd(left);
        if e >= MAX_LINE {
          return false;
        }
        OneMoreLine(parse, records, left);
        match parse(DropCR(left[..e])) {
          case Some(event) => UpsertRecord(event);
          case None =>
        }
        left := Rest(left);
      }
      return true;
    }

    /** log is None while there is no log file. An error leaves what was counted, but the log will be
        read again from the old place. */
    method ProcessAccessLog(log: Option<string>) returns (ok: bool)
      modifies this
      ensures !aggregation || log.None? ==> ok && St() == old(St())
      // a log that has become shorter is read from its start
      ensures aggregation && log.Some? ==>
        var unread := if |log.value| < old(offset) then log.value else log.value[old(offset)..];
        && ok == Fits(unread)
        && records == Fold(old(records), Events(parse, LinesThatFit(unread)))
        && offset == (if ok then |log.value| else old(offset))
        && St() == Processed(parse, old(St()), log.value)
    {
      if !aggregation || log.None? {
        return true;
      }
      var start := if |log.value| < offset then 0 else offset;
      ok := ScanLines(log.value[start..]);
      if ok {
        offset := |log.value|;
      }
    }

    method ClearAccessIPRecords(log: Option<string>)
      modifies this
      ensures St() == State(map[], if log.Some? then |log.value| else 0)
    {
      records := map[];
      SkipCurrentAccessLog(log);
    }

    method SkipCurrentAccessLog(log: Option<string>)
      modifies this`offset
      ensures offset == if log.Some? then |log.value| else 0
    {
      offset := match log { case Some(text) => |text| case None => 0 };
    }
  }

  // ---- Many runs over one growing log --------------------------------------------------------

  /** What the panel asks for, with the log as it is at that time. */
  datatype Call = Process(log: string) | Clear(log: string) | Skip(log: string)

  function Next(parse: string -> Option<Event>, st: State, c: Call): State {
    match c
    case Process(log) => Processed(parse, st, log)
    case Clear(log) => State(map[], |log|)
    case Skip(log) => State(st.records, |log|)
  }

  function After(parse: string -> Option<Event>, calls: seq<Call>): State {
    if calls == [] then State(map[], 0) else Next(parse, After(parse, calls[..|calls| - 1]), calls[|calls| - 1])
  }

  function LogAfter(calls: seq<Call>): string {
    if calls == [] then [] else calls[|calls| - 1].log
  }

  /** The log grows, by whole lines that are not too long, or it has been replaced by a shorter one. */
  ghost predicate Proceeds(calls: seq<Call>) {
    calls != [] ==>
      var before := calls[..|calls| - 1];
      Proceeds(before) && Continues(LogAfter(before), LogAfter(calls))
  }

  ghost predicate Continues(was: string, log: string) {
    Terminated(log) && if |log| < |was| then Fits(log) else was <= log && Fits(log[|was|..])
  }

  /** The part of the logs that the calls leave counted: what came since the last Clear, without what
      came in front of a Skip and had not been processed. */
  function Counted(calls: seq<Call>): string {
    if calls == [] then []
    else
      var before := calls[..|calls| - 1];
      match calls[|calls| - 1]
      case Process(log) => Counted(before) + Appended(LogAfter(before), log)
      case Clear(_) => []
      case Skip(_) => Counted(before)
  }

  /** What is new in the log. */
  function Appended(was: string, log: string): string {
    if was <= log then log[|was|..] else log
  }

  /** However the log was cut into runs, and whenever it was replaced, the table is the one a single pass
      over the counted part gives. */
  lemma {:induction false} OnePass(parse: string -> Option<Event>, calls: seq<Call>)
    requires Proceeds(calls)
    ensures Terminated(Counted(calls)) && After(parse, calls).offset == |LogAfter(calls)|
    ensures After(parse, calls).records == Fold(map[], Events(parse, Lines(Counted(calls))))
  {
    if calls != [] {
      var before := calls[..|calls| - 1];
      OnePass(parse, before);
      if calls[|calls| - 1].Process? {
        var was, log := LogAfter(before), LogAfter(calls);
        OneRun(parse, After(parse, before), was, log);
        StillTerminated(Counted(before), was, log);
        CountMore(parse, map[], Counted(before), Appended(was, log));
      }
    }
  }

  lemma {:induction false} OneRun(parse: string -> Option<Event>, st: State, was: string, log: string)
    requires st.offset == |was| && Continues(was, log)
    ensures Processed(parse, st, log) == State(Fold(st.records, Events(parse, Lines(Appended(was, log)))), |log|)
  {
    assert From(st.offset, log) == Appended(was, log);
    AllFit(Appended(was, log));
  }

  lemma {:induction false} StillTerminated(a: string, was: string, log: string)
    requires Terminated(a) && Terminated(log)
    ensures Terminated(a + Appended(was, log))
  {
    if Appended(was, log) == [] {
      assert a + Appended(was, log) == a;
    }
  }

  lemma {:induction false} CountMore(parse: string -> Option<Event>, t: Table, a: string, b: string)
    requires Terminated(a)
    ensures Fold(t, Events(parse, Lines(a + b))) == Fold(Fold(t, Events(parse, Lines(a))), Events(parse, Lines(b)))
  {
    LinesAppend(a, b);
    EventsAppend(parse, Lines(a), Lines(b));
    FoldAppend(t, Events(parse, Lines(a)), Events(parse, Lines(b)));
  }

  /** Runs only, and each finds the log of the one before it, with more behind. */
  ghost predicate OnlyGrows(was: string, runs: seq<Call>) {
    runs != [] ==>
      var n := |runs| - 1;
      OnlyGrows(was, runs[..n]) && runs[n].Process? && LastLog(was, runs[..n]) <= runs[n].log
  }

  function LastLog(was: string, runs: seq<Call>): string {
    if runs == [] then was else runs[|runs| - 1].log
  }

  /** Nothing is counted twice and nothing is left out: such runs count all that has come since. */
  lemma {:induction false} CountedSince(calls: seq<Call>, runs: seq<Call>)
    requires OnlyGrows(LogAfter(calls), runs)
    ensures var log := LogAfter(calls + runs);
            log == LastLog(LogAfter(calls), runs) && LogAfter(calls) <= log
            && Counted(calls + runs) == Counted(calls) + log[|LogAfter(calls)|..]
  {
    var was := LogAfter(calls);
    if runs == [] {
      assert calls + runs == calls && was[|was|..] == [];
      NothingAdded(Counted(calls));
    } else {
      var n := |runs| - 1;
      CountedSince(calls, runs[..n]);
      var before, log := calls + runs[..n], runs[n].log;
      assert (calls + runs)[..|calls + runs| - 1] == before && (calls + runs)[|calls + runs| - 1] == runs[n];
      TailGrows(was, LogAfter(before), log);
      Associate(Counted(calls), LogAfter(before)[|was|..], log[|LogAfter(before)|..]);
    }
  }

  lemma {:induction false} TailGrows(base: string, mid: string, log: string)
    requires base <= mid <= log
    ensures base <= log && mid[|base|..] + log[|mid|..] == log[|base|..]
  {
  }

  /** With runs only, since a Clear at base, the counted part is everything behind base. */
  lemma {:induction false} SinceClear(calls: seq<Call>, runs: seq<Call>, base: string)
    requires OnlyGrows(base, runs)
    ensures var all := calls + [Clear(base)] + runs;
            base <= LogAfter(all) && Counted(all) == LogAfter(all)[|base|..]
  {
    AfterClear(calls, base);
    CountedSince(calls + [Clear(base)], runs);
    NothingAdded(LogAfter(calls + [Clear(base)] + runs)[|base|..]);
  }

  lemma {:induction false} AfterClear(calls: seq<Call>, base: string)
    ensures Counted(calls + [Clear(base)]) == [] && LogAfter(calls + [Clear(base)]) == base
  {
  }

  /** With runs only, since the first one that has found the log replaced by a shorter one, that is all of
      the new log in addition to what was counted of the old one. */
  lemma {:induction false} SinceRotation(calls: seq<Call>, runs: seq<Call>, log: string)
    requires |log| < |LogAfter(calls)| && OnlyGrows(log, runs)
    ensures var all := calls + [Process(log)] + runs;
            Counted(all) == Counted(calls) + LogAfter(all)
  {
    var first := calls + [Process(log)];
    assert first[..|calls|] == calls;
    CountedSince(first, runs);
    var now := LogAfter(first + runs);
    assert log + now[|log|..] == now;
    Associate(Counted(calls), log, now[|log|..]);
  }

  /** So each record holds the number of its events behind base, and their times. */
  lemma {:induction false} RecordsSinceClear(parse: string -> Option<Event>, calls: seq<Call>, runs: seq<Call>,
                                             base: string, k: Key)
    requires Proceeds(calls + [Clear(base)] + runs) && OnlyGrows(base, runs)
    ensures var all := calls + [Clear(base)] + runs;
            var table := After(parse, all).records;
            base <= LogAfter(all)
            && var ts := Times(Events(parse, Lines(LogAfter(all)[|base|..])), k);
            (k in table <==> ts != [])
            && (ts != [] ==> Counts(table[k], ts))
  {
    var all := calls + [Clear(base)] + runs;
    SinceClear(calls, runs, base);
    OnePass(parse, all);
    FoldRecords(Events(parse, Lines(Counted(all))), k);
    var ts := Times(Events(parse, Lines(Counted(all))), k);
    if ts != [] {
      Counting(ts);
    }
  }

  /** r holds the number of these times, the latest and, but for zero, the earliest. */
  ghost predicate Counts(r: Record, ts: seq<int>)
    requires ts != []
  {
    r.hitCount == |ts| && IsMax(r.lastSeen, ts)
    && forall m :: IsMin(m, ts) ==> (r.firstSeen == m <==> m != 0 || ts[|ts| - 1] == 0)
  }

  lemma {:induction false} Counting(ts: seq<int>)
    requires ts != []
    ensures Counts(Record(|ts|, First(ts), Last(ts)), ts)
  {
    LastIsMax(ts);
    forall m | IsMin(m, ts) ensures First(ts) == m <==> m != 0 || ts[|ts| - 1] == 0 {
      FirstIsMinExactly(ts, m);
    }
  }

  // ---- A cut inside a line -------------------------------------------------------------------

  lemma {:induction false} OneOpenLine(x: string)
    requires x != [] && LineEnd(x) == |x|
    ensures Lines(x) == [DropCR(x)]
  {
    LinesStep(x);
    assert x[..|x|] == x && Rest(x) == [] && Lines([]) == [];
  }

  lemma {:induction false} JoinedLine(x: string, b: string)
    requires x != [] && LineEnd(x) == |x| && b != []
    ensures Lines(x + b) == [DropCR(x + b[..LineEnd(b)])] + Lines(Rest(b))
  {
    LinesStep(x + b);
    RestOfOpen(x, b);
    LineEndAppend(x, b);
    assert (x + b)[..|x| + LineEnd(b)] == x + b[..LineEnd(b)];
  }

  /** The lines around a cut between x and b, where x is the beginning of a line behind whole lines. */
  lemma {:induction false} CutInLine(whole: string, x: string, b: string)
    requires Terminated(whole) && x != [] && LineEnd(x) == |x| && b != []
    ensures Lines(whole + x) == Lines(whole) + [DropCR(x)]
    ensures Lines(b) == [DropCR(b[..LineEnd(b)])] + Lines(Rest(b))
    ensures Lines(whole + (x + b)) == Lines(whole) + ([DropCR(x + b[..LineEnd(b)])] + Lines(Rest(b)))
  {
    LinesAppend(whole, x);
    LinesAppend(whole, x + b);
    OneOpenLine(x);
    LinesStep(b);
    JoinedLine(x, b);
  }

  /** How many events with this key some lines hold. */
  function EventsWith(parse: string -> Option<Event>, lines: seq<string>, k: Key): nat {
    |Times(Events(parse, lines), k)|
  }

  lemma {:induction false} TimesAppend(a: seq<Event>, b: seq<Event>, k: Key)
    ensures Times(a + b, k) == Times(a, k) + Times(b, k)
  {
    if b == [] {
      assert a + b == a;
    } else {
      var n := |b| - 1;
      assert (a + b)[..|a + b| - 1] == a + b[..n];
      TimesAppend(a, b[..n], k);
      Associate(Times(a, k), Times(b[..n], k), if KeyOf(b[n]) == k then [b[n].seenAt] else []);
    }
  }

  lemma {:induction false} HitsOfLines(parse: string -> Option<Event>, t: Table, a: seq<string>, b: seq<string>, k: Key)
    ensures Hits(Fold(t, Events(parse, a + b)), k) == Hits(t, k) + EventsWith(parse, a, k) + EventsWith(parse, b, k)
  {
    EventsAppend(parse, a, b);
    FoldHits(t, Events(parse, a) + Events(parse, b), k);
    TimesAppend(Events(parse, a), Events(parse, b), k);
  }

  /** A run that ends inside a line miscounts a key if and only if the two halves of that line do not
      hold as many of its events as the whole line. */
  lemma {:induction false} CutMiscountsExactly(parse: string -> Option<Event>, t: Table, whole: string, x: string,
                                               b: string, k: Key)
    requires Terminated(whole) && x != [] && LineEnd(x) == |x| && b != []
    ensures var twice := Fold(Fold(t, Events(parse, Lines(whole + x))), Events(parse, Lines(b)));
            var once := Fold(t, Events(parse, Lines(whole + (x + b))));
            var y := b[..LineEnd(b)];
            Hits(twice, k) == Hits(once, k) <==>
              EventsWith(parse, [DropCR(x)], k) + EventsWith(parse, [DropCR(y)], k)
                == EventsWith(parse, [DropCR(x + y)], k)
  {
    CutInLine(whole, x, b);
    var y := b[..LineEnd(b)];
    var first := Fold(t, Events(parse, Lines(whole + x)));
    HitsOfLines(parse, t, Lines(whole), [DropCR(x)], k);
    HitsOfLines(parse, first, [DropCR(y)], Lines(Rest(b)), k);
    HitsOfLines(parse, t, Lines(whole), [DropCR(x + y)] + Lines(Rest(b)), k);
    HitsOfLines(parse, map[], [DropCR(x + y)], Lines(Rest(b)), k);
    FoldHits(map[], Events(parse, [DropCR(x + y)] + Lines(Rest(b))), k);
  }

  /** For example. */
  lemma {:induction false} CutExample()
    ensures Lines("a" + "b") == ["ab"] && Lines("a") + Lines("b") == ["a", "b"]
  {
    assert forall s: string :: s in ["a", "b", "ab"] ==> forall c :: c in s ==> c != '\n';
    assert "a" + "b" == "ab" && ["a"] + ["b"] == ["a", "b"];
    OneOpenLine("ab");
    OneOpenLine("a");
    OneOpenLine("b");
  }

  // ---- A line that is too long ---------------------------------------------------------------

  function Hits(t: Table, k: Key): nat {
    if k in t then t[k].hitCount else 0
  }

  lemma {:induction false} FoldHits(t: Table, es: seq<Event>, k: Key)
    ensures Hits(Fold(t, es), k) == Hits(t, k) + |Times(es, k)|
  {
    if es != [] {
      FoldHits(t, es[..|es| - 1], k);
    }
  }

  function Iterate(step: State -> State, st: State, n: nat): State {
    if n == 0 then st else step(Iterate(step, st, n - 1))
  }

  /** n runs over the same log. */
  function Again(parse: string -> Option<Event>, st: State, log: string, n: nat): State {
    Iterate((was: State) => Processed(parse, was, log), st, n)
  }

  lemma {:induction false} HitsOfOneRun(parse: string -> Option<Event>, st: State, log: string, k: Key)
    ensures var unread := From(st.offset, log);
            Hits(Processed(parse, st, log).records, k)
              == Hits(st.records, k) + |Times(Events(parse, LinesThatFit(unread)), k)|
  {
    FoldHits(st.records, Events(parse, LinesThatFit(From(st.offset, log))), k);
  }

  lemma {:induction false} NothingNew(parse: string -> Option<Event>, st: State, log: string)
    requires st.offset == |log|
    ensures Processed(parse, st, log) == st
  {
    assert From(st.offset, log) == [];
  }

  lemma {:induction false} OnceIsEnough(parse: string -> Option<Event>, st: State, log: string, n: nat)
    requires n > 0 && Fits(From(st.offset, log))
    ensures Again(parse, st, log, n) == Processed(parse, st, log)
  {
    if n == 1 {
      assert Again(parse, st, log, 0) == st;
    } else {
      OnceIsEnough(parse, st, log, n - 1);
      NothingNew(parse, Again(parse, st, log, n - 1), log);
    }
  }

  lemma {:induction false} OnceMore(parse: string -> Option<Event>, st: State, was: State, log: string, k: Key)
    requires !Fits(From(st.offset, log)) && was.offset == st.offset
    ensures var now := Processed(parse, was, log);
            now.offset == st.offset
            && Hits(now.records, k) == Hits(was.records, k) + NewHits(parse, st, log, k)
  {
    HitsOfOneRun(parse, was, log, k);
  }

  /** How many events with this key are in the part not read yet. */
  function NewHits(parse: string -> Option<Event>, st: State, log: string, k: Key): nat {
    |Times(Events(parse, LinesThatFit(From(st.offset, log))), k)|
  }

  lemma {:induction false} Accumulates(step: State -> State, st: State, n: nat, k: Key, hits: nat)
    requires forall was: State :: was.offset == st.offset ==>
      step(was).offset == st.offset && Hits(step(was).records, k) == Hits(was.records, k) + hits
    ensures var now := Iterate(step, st, n);
            now.offset == st.offset && Hits(now.records, k) == Hits(st.records, k) + Multiple(n, hits)
  {
    if n > 0 {
      Accumulates(step, st, n - 1, k, hits);
    }
  }

  lemma {:induction false} EveryTimeAgain(parse: string -> Option<Event>, st: State, log: string, n: nat, k: Key)
    requires !Fits(From(st.offset, log))
    ensures var now := Again(parse, st, log, n);
            now.offset == st.offset
            && Hits(now.records, k) == Hits(st.records, k) + Multiple(n, NewHits(parse, st, log, k))
  {
    forall was: State | was.offset == st.offset
      ensures var now := Processed(parse, was, log);
              now.offset == st.offset && Hits(now.records, k) == Hits(was.records, k) + NewHits(parse, st, log, k)
    {
      OnceMore(parse, st, was, log, k);
    }
    Accumulates((was: State) => Processed(parse, was, log), st, n, k, NewHits(parse, st, log, k));
  }

  /** n times m, as a sum. */
  function Multiple(n: nat, m: nat): nat {
    if n == 0 then 0 else Multiple(n - 1, m) + m
  }

  lemma {:induction false} MultipleIsProduct(n: nat, m: nat)
    ensures Multiple(n, m) == n * m
  {
    if n > 0 {
      MultipleIsProduct(n - 1, m);
      assert n * m == (n - 1) * m + m;
    }
  }

  /** Processing an unchanged log again counts nothing if and only if the new part had no line that was
      too long; with such a line, every run counts the events in front of it once more. */
  lemma {:induction false} CountedAgain(parse: string -> Option<Event>, st: State, log: string, n: nat, k: Key)
    requires n > 0
    ensures Hits(Again(parse, st, log, n).records, k)
         == Hits(st.records, k) + (if Fits(From(st.offset, log)) then 1 else n) * NewHits(parse, st, log, k)
    ensures Again(parse, st, log, n).offset == if Fits(From(st.offset, log)) then |log| else st.offset
  {
    if Fits(From(st.offset, log)) {
      OnceIsEnough(parse, st, log, n);
      HitsOfOneRun(parse, st, log, k);
    } else {
      EveryTimeAgain(parse, st, log, n, k);
      MultipleIsProduct(n, NewHits(parse, st, log, k));
    }
  }
}
