/** The scheduler at work: queueWatcher and flushSchedulerQueue on the shared variables. */
module Flush {
  import opened Scheduler
  import opened Sequences

  /** What happens to a watcher: it is queued, the cursor reaches it, it is run. Dropped is the end of a
      flush that was broken off, which forgets all who wait. */
  datatype Event = Queued(id: Id) | Taken(id: Id) | Ran(id: Id) | Dropped

  /** The watchers that have been queued, and since then neither run nor dropped. */
  ghost function Waiting(log: seq<Event>): set<Id> {
    if log == [] then {} else Heard(Waiting(log[..|log| - 1]), log[|log| - 1])
  }

  ghost function Heard(waiting: set<Id>, e: Event): set<Id> {
    match e
    case Queued(id) => waiting + {id}
    case Taken(_) => waiting
    case Ran(id) => waiting - {id}
    case Dropped => {}
  }

  lemma {:induction false} WaitingSnoc(log: seq<Event>, e: Event)
    ensures Waiting(log + [e]) == Heard(Waiting(log), e)
  {
    assert (log + [e])[..|log|] == log;
  }

  predicate Settles(e: Event, id: Id) {
    e == Ran(id) || e == Dropped
  }

  /** Queued at i, and nothing has come of it. */
  predicate OpenAt(log: seq<Event>, id: Id, i: int) {
    0 <= i < |log| && log[i] == Queued(id) && forall j :: i < j < |log| ==> !Settles(log[j], id)
  }

  lemma {:induction false} OpenSnoc(log: seq<Event>, id: Id, i: int, e: Event)
    requires 0 <= i < |log|
    ensures OpenAt(log + [e], id, i) <==> OpenAt(log, id, i) && !Settles(e, id)
  {
    var longer := log + [e];
    assert longer[|log|] == e;
    assert forall j :: 0 <= j < |log| ==> longer[j] == log[j];
  }

  /** Nobody waits if and only if every queueing is followed by a run, or dropped. */
  lemma {:induction false} NobodyWaits(log: seq<Event>, id: Id)
    ensures id in Waiting(log) <==> exists i :: OpenAt(log, id, i)
  {
    if log != [] {
      var n := |log| - 1;
      var earlier := log[..n];
      assert log == earlier + [log[n]];
      NobodyWaits(earlier, id);
      forall i | 0 <= i < n
        ensures OpenAt(log, id, i) <==> OpenAt(earlier, id, i) && !Settles(log[n], id)
      {
        OpenSnoc(earlier, id, i, log[n]);
      }
      if log[n] == Queued(id) {
        assert OpenAt(log, id, n);
      }
    }
  }

  // ---- The order of the runs -----------------------------------------------------------------

  ghost predicate Least(id: Id, waiting: set<Id>) {
    id in waiting && forall other :: other in waiting ==> id <= other
  }

  /** The run at k is of the watcher that was the least of all who waited when the cursor reached it, at
      i; in between it has only queued others. */
  ghost predicate InTurn(log: seq<Event>, i: int, k: int) {
    && 0 <= i < k < |log| && log[k].Ran? && log[i] == Taken(log[k].id)
    && Least(log[k].id, Waiting(log[..i]))
    && forall j :: i < j < k ==> log[j].Queued?
  }

  ghost predicate Orderly(log: seq<Event>) {
    forall k :: 0 <= k < |log| && log[k].Ran? ==> exists i :: InTurn(log, i, k)
  }

  lemma {:induction false} InTurnStays(log: seq<Event>, more: seq<Event>, i: int, k: int)
    requires InTurn(log, i, k)
    ensures InTurn(log + more, i, k)
  {
    assert (log + more)[..i] == log[..i];
  }

  lemma {:induction false} OrderlyMore(log: seq<Event>, more: seq<Event>)
    requires Orderly(log) && forall e :: e in more ==> !e.Ran?
    ensures Orderly(log + more)
  {
    var all := log + more;
    forall k | |log| <= k < |all|
      ensures !all[k].Ran?
    {
      assert all[k] == more[k - |log|];
    }
    forall k | 0 <= k < |all| && all[k].Ran?
      ensures exists i :: InTurn(all, i, k)
    {
      var i :| InTurn(log, i, k);
      InTurnStays(log, more, i, k);
    }
  }

  /** What a turn adds to the log. */
  function Queuings(ids: seq<Id>): (es: seq<Event>)
    ensures |es| == |ids| && forall i :: 0 <= i < |ids| ==> es[i] == Queued(ids[i])
  {
    if ids == [] then [] else [Queued(ids[0])] + Queuings(ids[1..])
  }

  /** A whole turn: the watcher at the cursor runs, with what is queued before and during its run. */
  function TurnEvents(id: Id, t: Turn): seq<Event> {
    [Taken(id)] + Queuings(t.before) + [Ran(id)] + Queuings(t.run)
  }

  lemma {:induction false} TurnLog(log: seq<Event>, id: Id, t: Turn)
    ensures log + [Taken(id)] + Queuings(t.before) + [Ran(id)] + Queuings(t.run) == log + TurnEvents(id, t)
  {
  }

  lemma {:induction false} OrderlyTurn(log: seq<Event>, id: Id, before: seq<Id>)
    requires Orderly(log) && Least(id, Waiting(log))
    ensures Orderly(log + [Taken(id)] + Queuings(before) + [Ran(id)])
  {
    OrderlyMore(log, [Taken(id)]);
    OrderlyMore(log + [Taken(id)], Queuings(before));
    var earlier := log + [Taken(id)] + Queuings(before);
    var all := earlier + [Ran(id)];
    forall k | 0 <= k < |all| && all[k].Ran?
      ensures exists i :: InTurn(all, i, k)
    {
      if k == |earlier| {
        assert all[..|log|] == log;
        assert forall j :: |log| < j < k ==> all[j] in Queuings(before);
        assert InTurn(all, |log|, k);
      } else {
        var i :| InTurn(earlier, i, k);
        InTurnStays(earlier, [Ran(id)], i, k);
      }
    }
  }

  /** More has happened, but nothing was dropped. */
  ghost predicate Goes(was: seq<Event>, now: seq<Event>) {
    was <= now && forall j :: |was| <= j < |now| ==> now[j] != Dropped
  }

  lemma {:induction false} QueuingsGo(log: seq<Event>, ids: seq<Id>)
    ensures Goes(log, log + Queuings(ids))
  {
    var now := log + Queuings(ids);
    forall j | |log| <= j < |now|
      ensures now[j] != Dropped
    {
      assert now[j] in Queuings(ids);
    }
  }

  lemma {:induction false} GoesOn(was: seq<Event>, now: seq<Event>, then': seq<Event>)
    requires Goes(was, now) && Goes(now, then')
    ensures Goes(was, then')
  {
  }

  lemma {:induction false} TurnGoes(log: seq<Event>, id: Id, before: seq<Id>)
    ensures Goes(log, log + [Taken(id)] + Queuings(before) + [Ran(id)])
  {
    QueuingsGo(log + [Taken(id)], before);
    GoesOn(log, log + [Taken(id)], log + [Taken(id)] + Queuings(before));
  }

  /** How a flush has ended: with nothing left to do, at the circular check, or not within the turns
      that are looked at. */
  datatype Outcome = Drained | Broken | Unfinished

  /** Searches from the end for the place of an id behind the cursor, and inserts it there. */
  method Splice(queue: seq<Id>, index: int, id: Id) returns (q: seq<Id>)
    requires 0 <= index < |queue|
    ensures q == Insert(queue, index, id)
  {
    var i := |queue| - 1;
    while i > index && queue[i] > id
      invariant index <= i < |queue|
      invariant Slot(queue, index, id, i) == Slot(queue, index, id, |queue| - 1)
    {
      i := i - 1;
    }
    q := queue[..i + 1] + [id] + queue[i + 1..];
  }

  /** No waiting watcher has a smaller id than the one at the cursor. */
  ghost predicate LeastNext(s: State)
    requires 0 <= s.index < |s.queue|
  {
    forall id :: id in s.marked ==> s.queue[s.index] <= id
  }

  lemma {:induction false} TurnStarts(s: State, t: Turn)
    requires Due(s) && LeastNext(s)
    ensures var id := s.queue[s.index];
      var u := BeforeRun(s, t).(marked := BeforeRun(s, t).marked - {id});
      && Least(id, s.marked)
      && Running(u) && AfterRun(s, t) == QueueAll(u, t.run) && Past(AfterRun(s, t))
  {
    TurnKeeps(s, t);
    QueueAllKeeps(s, t.before);
    QueueAllKeepsDue(s, t.before);
    SameEntry(s.queue, BeforeRun(s, t).queue, s.index);
    TailOf(s.queue, s.index);
  }

  lemma {:induction false} SameEntry(was: seq<Id>, now: seq<Id>, i: nat)
    requires i < |was| && i < |now| && was[..i + 1] == now[..i + 1]
    ensures was[i] == now[i]
  {
    assert was[..i + 1][i] == was[i];
  }

  class Queue {
    var queue: seq<Id>
    var has: set<Id>
    var circular: map<Id, nat>
    var waiting: bool
    var flushing: bool
    var index: int
    ghost var log: seq<Event>

    function St(): State
      reads this
    {
      State(queue, has, circular, waiting, flushing, index)
    }

    /** The marks are those who wait, and who has run has run in order. */
    ghost predicate Recorded()
      reads this
    {
      has == Waiting(log) && Orderly(log)
    }

    /** Outside a flush. */
    ghost predicate Valid()
      reads this
    {
      Gathering(St()) && Recorded()
    }

    constructor ()
      ensures Valid() && St() == IDLE && log == []
    {
      queue, has, circular := [], {}, map[];
      waiting, flushing, index := false, false, 0;
      log := [];
    }

    /** queueWatcher. In a flush the watcher is spliced in by its id; if that has gone by, it is next. */
    method QueueWatcher(id: Id)
      requires Running(St()) && Recorded()
      modifies this
      ensures St() == Scheduler.QueueWatcher(old(St()), id)
      ensures Recorded() && log == old(log) + [Queued(id)]
      ensures old(Valid()) ==> Valid()
    {
      ghost var s := St();
      if Gathering(s) {
        QueueKeepsGathering(s, id);
      }
      WaitingSnoc(log, Queued(id));
      OrderlyMore(log, [Queued(id)]);
      log := log + [Queued(id)];
      if id !in has {
        has := has + {id};
        if !flushing {
          queue := queue + [id];
        } else {
          queue := Splice(queue, index, id);
        }
        if !waiting {
          waiting := true;  // nextTick(flushSchedulerQueue)
        }
      }
    }

    /** A watcher that queues several others. */
    method QueueWatchers(ids: seq<Id>)
      requires Running(St()) && Recorded()
      modifies this
      ensures St() == QueueAll(old(St()), ids) && Running(St())
      ensures Recorded() && log == old(log) + Queuings(ids)
    {
      assert ids[0..] == ids;
      for k := 0 to |ids|
        invariant Running(St()) && Recorded()
        invariant QueueAll(old(St()), ids) == QueueAll(St(), ids[k..])
        invariant old(log) + Queuings(ids) == log + Queuings(ids[k..])
      {
        assert ids[k..][0] == ids[k] && ids[k..][1..] == ids[k + 1..];
        QueueKeepsRunning(St(), ids[k]);
        Associate(log, [Queued(ids[k])], Queuings(ids[k + 1..]));
        QueueWatcher(ids[k]);
      }
    }

    /** The run itself, of the watcher at the cursor. */
    method Take(id: Id, t: Turn)
      requires Due(St()) && Recorded() && id == queue[index] && Least(id, has)
      modifies this
      ensures St() == BeforeRun(old(St()), t).(marked := BeforeRun(old(St()), t).marked - {id})
      ensures Recorded() && Goes(old(log), log)
      ensures log == old(log) + [Taken(id)] + Queuings(t.before) + [Ran(id)]
    {
      ghost var was := log;
      Reach(id);
      QueueWatchers(t.before);
      OrderlyTurn(was, id, t.before);
      TurnGoes(was, id, t.before);
      Leave(id);
    }

    /** The cursor has reached the watcher ... */
    ghost method Reach(id: Id)
      requires Recorded()
      modifies this`log
      ensures Recorded() && log == old(log) + [Taken(id)]
    {
      WaitingSnoc(log, Taken(id));
      OrderlyMore(log, [Taken(id)]);
      log := log + [Taken(id)];
    }

    /** ... and it is run: has[id] = null. */
    method Leave(id: Id)
      requires Recorded() && Orderly(log + [Ran(id)])
      modifies this`has, this`log
      ensures Recorded() && has == old(has) - {id} && log == old(log) + [Ran(id)]
    {
      WaitingSnoc(log, Ran(id));
      log := log + [Ran(id)];
      has := has - {id};
    }

    /** Before hook and run of the watcher at the cursor. */
    method RunWatcher(t: Turn)
      requires Due(St()) && LeastNext(St()) && Recorded()
      modifies this
      ensures Past(St()) && St() == AfterRun(old(St()), t)
      ensures Recorded() && Goes(old(log), log)
      ensures log == old(log) + TurnEvents(old(queue[index]), t)
    {
      var id := queue[index];
      TurnStarts(St(), t);
      Take(id, t);
      ghost var middle := log;
      QueueWatchers(t.run);
      QueuingsGo(middle, t.run);
      GoesOn(old(log), middle, log);
      TurnLog(old(log), id, t);
    }

    /** The check for circular updates. */
    method Check() returns (broken: bool)
      requires Past(St())
      modifies this`circular
      ensures St() == Checked(old(St())).0 && broken == Checked(old(St())).1
    {
      var id := queue[index];
      broken := false;
      if id in has {
        var n := (if id in circular then circular[id] else 0) + 1;
        circular := circular[id := n];
        broken := n > MAX_UPDATE_COUNT;
      }
    }

    /** Between two turns of the loop. */
    ghost predicate Between()
      reads this
    {
      && Recorded() && 0 <= index <= |queue|
      && if index < |queue| then Due(St()) && LeastNext(St()) else has == {}
    }

    /** One turn of the flush loop, up to the next watcher. */
    method RunOne(t: Turn) returns (broken: bool)
      requires Due(St()) && LeastNext(St()) && Recorded()
      modifies this
      ensures Recorded() && Goes(old(log), log)
      ensures log == old(log) + TurnEvents(old(queue[index]), t)
      ensures broken == Checked(AfterRun(old(St()), t)).1
      ensures !broken || (St() == Checked(AfterRun(old(St()), t)).0 && has != {})
      ensures broken || (St() == Checked(AfterRun(old(St()), t)).0.(index := old(index) + 1) && Between())
    {
      RunWatcher(t);
      broken := Check();
      if !broken {
        Advance();
      }
    }

    /** The next turn along the script; was is the log at the start of the loop. */
    method RunNext(script: seq<Turn>, k: nat, ghost was: seq<Event>, ghost breaks: bool) returns (broken: bool)
      requires Between() && Goes(was, log) && index < |queue| && k < |script|
      requires breaks == Breaks(St(), script, k)
      modifies this
      ensures Recorded() && Goes(was, log)
      ensures !broken || (breaks && has != {})
      ensures broken || (Between() && breaks == Breaks(St(), script, k + 1))
    {
      ghost var now := log;
      broken := RunOne(script[k]);
      GoesOn(was, now, log);
    }

    /** index++ */
    method Advance()
      requires Past(St()) && Recorded()
      modifies this`index
      ensures St() == old(St()).(index := old(index) + 1) && Between()
    {
      ghost var s := St();
      if index + 1 < |queue| {
        NextIsLeast(s);
      } else {
        assert queue[index + 1..] == [];
      }
      index := index + 1;
      assert St() == s.(index := s.index + 1);
    }

    /** resetSchedulerState */
    method Reset()
      modifies this`index, this`queue, this`has, this`circular, this`waiting, this`flushing
      ensures St() == IDLE
    {
      index, queue := 0, [];
      has := {};
      circular := map[];
      waiting, flushing := false, false;
    }

    /** The loop of the flush, along a script of what the successive watchers queue. Every watcher that is
        run was the least of all who waited when the cursor reached it (Recorded). The loop is broken
        off if and only if the turns after which some watcher has queued itself again bring its count
        above the maximum. */
    method Drain(script: seq<Turn>) returns (outcome: Outcome)
      requires Between()
      modifies this
      ensures Recorded() && Goes(old(log), log)
      ensures outcome == Broken <==> Breaks(old(St()), script, 0)
      ensures outcome != Broken || has != {}
      ensures outcome == Broken || (Between() && (outcome == Drained <==> index == |queue|))
    {
      ghost var breaks := Breaks(St(), script, 0);
      var k, broken := 0, false;
      while !broken && index < |queue| && k < |script|
        invariant k <= |script|
        invariant Recorded() && Goes(old(log), log)
        invariant !broken || (breaks && has != {})
        invariant broken || (Between() && breaks == Breaks(St(), script, k))
        decreases |script| - k
      {
        broken := RunNext(script, k, old(log), breaks);
        k := k + 1;
      }
      outcome := if broken then Broken else if index < |queue| then Unfinished else Drained;
    }

    /** flushSchedulerQueue. It is broken off if and only if some watcher has queued itself again in more
        than the allowed number of its own turns; then somebody waits who will not be run. Otherwise it
        has run every watcher after its last queueing. Either way the scheduler is as new. */
    method Flush(script: seq<Turn>) returns (outcome: Outcome)
      requires Valid() && waiting
      modifies this
      ensures outcome != Unfinished ==> Valid() && St() == IDLE
      ensures outcome == Broken <==> TooOften(Sorted(old(St())), script)
      ensures outcome == Broken ==> log != [] && log[|log| - 1] == Dropped && Waiting(log[..|log| - 1]) != {}
      ensures outcome != Broken ==> Goes(old(log), log)
      ensures outcome == Drained ==> AllRun(old(log), log)
      ensures outcome == Unfinished ==> Due(St()) && Recorded()
    {
      Begin();
      NothingCounted(St(), script);
      outcome := Drain(script);
      if outcome == Drained {
        AllHaveRun(old(log), log);
        Reset();
      } else if outcome == Broken {
        Abandon();
        Reset();
      }
    }

    /** Sorts the queue. */
    method Begin()
      requires Valid() && waiting
      modifies this`queue, this`flushing
      ensures St() == Sorted(old(St())) && circular == map[] && Between()
    {
      if queue != [] {
        FirstIsLeast(St());
      }
      flushing := true;
      SortKeeps(queue);
      queue := Sort(queue);
    }

    /** Whoever waits is dropped. */
    ghost method Abandon()
      requires Recorded()
      modifies this`log
      ensures Orderly(log) && Waiting(log) == {}
      ensures log == old(log) + [Dropped] && log[..|log| - 1] == old(log)
    {
      WaitingSnoc(log, Dropped);
      OrderlyMore(log, [Dropped]);
      log := log + [Dropped];
    }
  }

  /** Every queueing that was not dropped in an earlier flush is followed by a run. */
  ghost predicate AllRun(was: seq<Event>, log: seq<Event>) {
    forall i, id :: 0 <= i < |log| && log[i] == Queued(id) && (forall j :: i < j < |was| ==> was[j] != Dropped) ==>
      exists j :: i < j < |log| && log[j] == Ran(id)
  }

  lemma {:induction false} AllHaveRun(was: seq<Event>, log: seq<Event>)
    requires Goes(was, log) && Waiting(log) == {}
    ensures AllRun(was, log)
  {
    forall i, id | 0 <= i < |log| && log[i] == Queued(id) && forall j :: i < j < |was| ==> was[j] != Dropped
      ensures exists j :: i < j < |log| && log[j] == Ran(id)
    {
      NobodyWaits(log, id);
      assert !OpenAt(log, id, i);
      var j :| i < j < |log| && Settles(log[j], id);
      assert log[j] != Dropped;
    }
  }

  // ---- What the circular check catches -------------------------------------------------------

  function Count(s: State, id: Id): nat {
    if id in s.circular then s.circular[id] else 0
  }

  ghost predicate CountsWithin(s: State) {
    forall id :: Count(s, id) <= MAX_UPDATE_COUNT
  }

  /** The state at the next watcher, if there is one. */
  ghost function Onward(s: State, t: Turn): State
    requires Due(s)
  {
    var r := AfterRun(s, t);
    r.(index := r.index + 1)
  }

  /** The watcher is run, and is waiting again at the end of its run. */
  ghost predicate RunsAgain(s: State, t: Turn, id: Id)
    requires Due(s)
  {
    var r := AfterRun(s, t);
    r.queue[r.index] == id && id in r.marked
  }

  /** The number of such turns along the script, from turn k on. */
  ghost function SelfTurns(s: State, script: seq<Turn>, k: nat, id: Id): nat
    decreases |script| - k
  {
    if k >= |script| || !Due(s) then 0
    else (if RunsAgain(s, script[k], id) then 1 else 0) + SelfTurns(Onward(s, script[k]), script, k + 1, id)
  }

  /** Along the script some count would go past the maximum. */
  ghost predicate Overrun(s: State, script: seq<Turn>, k: nat) {
    exists id :: Count(s, id) + SelfTurns(s, script, k, id) > MAX_UPDATE_COUNT
  }

  /** What the loop does: the check after each turn. */
  ghost predicate Breaks(s: State, script: seq<Turn>, k: nat)
    decreases |script| - k
  {
    k < |script| && Due(s) &&
    var (r, broken) := Checked(AfterRun(s, script[k]));
    broken || Breaks(r.(index := r.index + 1), script, k + 1)
  }

  lemma {:induction false} QueueAllIgnoresCounts(s: State, c: map<Id, nat>, ids: seq<Id>)
    requires Running(s)
    ensures QueueAll(s.(circular := c), ids) == QueueAll(s, ids).(circular := c)
    decreases |ids|
  {
    if ids != [] {
      QueueKeepsRunning(s, ids[0]);
      QueueAllIgnoresCounts(QueueWatcher(s, ids[0]), c, ids[1..]);
    }
  }

  lemma {:induction false} RunIgnoresCounts(s: State, c: map<Id, nat>, t: Turn)
    requires Due(s)
    ensures AfterRun(s.(circular := c), t) == AfterRun(s, t).(circular := c)
    ensures Onward(s.(circular := c), t) == Onward(s, t).(circular := c)
    ensures forall id :: RunsAgain(s.(circular := c), t, id) <==> RunsAgain(s, t, id)
  {
    QueueAllIgnoresCounts(s, c, t.before);
    QueueAllKeeps(s, t.before);
    var u := BeforeRun(s, t);
    QueueAllIgnoresCounts(u.(marked := u.marked - {u.queue[u.index]}), c, t.run);
  }

  lemma {:induction false} SelfTurnsIgnoreCounts(s: State, c: map<Id, nat>, script: seq<Turn>, k: nat, id: Id)
    ensures SelfTurns(s.(circular := c), script, k, id) == SelfTurns(s, script, k, id)
    decreases |script| - k
  {
    if k < |script| && Due(s) {
      RunIgnoresCounts(s, c, script[k]);
      SelfTurnsIgnoreCounts(Onward(s, script[k]), c, script, k + 1, id);
    }
  }

  /** The flush is broken off within the script if and only if some count, with the turns in which that
      watcher has queued itself, goes past the maximum. */
  lemma {:induction false} BreaksExactly(s: State, script: seq<Turn>, k: nat)
    requires CountsWithin(s)
    ensures Breaks(s, script, k) <==> Overrun(s, script, k)
    decreases |script| - k
  {
    if k < |script| && Due(s) {
      var (r, broken) := Checked(AfterRun(s, script[k]));
      var next := r.(index := r.index + 1);
      forall id
        ensures Count(s, id) + SelfTurns(s, script, k, id) == Count(next, id) + SelfTurns(next, script, k + 1, id)
      {
        OneTurn(s, script, k, id);
      }
      if broken {
        var x := r.queue[r.index];
        assert Count(next, x) > MAX_UPDATE_COUNT;
        assert Count(s, x) + SelfTurns(s, script, k, x) > MAX_UPDATE_COUNT;
      } else {
        BreaksExactly(next, script, k + 1);
      }
    }
  }

  /** Some watcher is run, and queues itself, too often. */
  ghost predicate TooOften(s: State, script: seq<Turn>) {
    exists id :: SelfTurns(s, script, 0, id) > MAX_UPDATE_COUNT
  }

  lemma {:induction false} NothingCounted(s: State, script: seq<Turn>)
    requires s.circular == map[]
    ensures Breaks(s, script, 0) <==> TooOften(s, script)
  {
    BreaksExactly(s, script, 0);
    if Overrun(s, script, 0) {
      var id :| Count(s, id) + SelfTurns(s, script, 0, id) > MAX_UPDATE_COUNT;
      assert SelfTurns(s, script, 0, id) > MAX_UPDATE_COUNT;
    }
    if TooOften(s, script) {
      var id :| SelfTurns(s, script, 0, id) > MAX_UPDATE_COUNT;
      assert Count(s, id) + SelfTurns(s, script, 0, id) > MAX_UPDATE_COUNT;
    }
  }

  /** The check moves a turn from those to come to those counted. */
  lemma {:induction false} OneTurn(s: State, script: seq<Turn>, k: nat, id: Id)
    requires k < |script| && Due(s)
    ensures var r := Checked(AfterRun(s, script[k])).0;
      var next := r.(index := r.index + 1);
      Count(s, id) + SelfTurns(s, script, k, id) == Count(next, id) + SelfTurns(next, script, k + 1, id)
  {
    var c := Checked(AfterRun(s, script[k])).0.circular;
    SelfTurnsIgnoreCounts(Onward(s, script[k]), c, script, k + 1, id);
    CheckCounts(AfterRun(s, script[k]), id);
  }

  lemma {:induction false} CheckCounts(r: State, id: Id)
    requires Running(r) && r.flushing
    ensures Count(Checked(r).0, id) == Count(r, id) + if r.queue[r.index] == id && id in r.marked then 1 else 0
  {
  }

  // ---- What the circular check does not catch ------------------------------------------------

  /** The only waiting watcher is at the cursor, which is at the end. */
  ghost predicate Alone(s: State, x: Id) {
    && s.flushing && s.waiting && s.circular == map[]
    && 0 <= s.index == |s.queue| - 1 && s.queue[s.index] == x && s.marked == {x}
  }

  /** Whose turn it is. */
  function Player(a: Id, b: Id, n: nat): Id {
    if n % 2 == 0 then a else b
  }

  lemma {:induction false} OtherPlayer(a: Id, b: Id, n: nat)
    requires a != b
    ensures Player(a, b, n) != Player(a, b, n + 1)
  {
  }

  /** The flush after n turns in which a and b have taken turns at queueing each other. */
  ghost function PingPong(a: Id, b: Id, n: nat): (s: State)
    requires a != b
    ensures Alone(s, Player(a, b, n))
  {
    if n == 0 then State([a], {a}, map[], true, true, 0)
    else
      var s := PingPong(a, b, n - 1);
      OtherPlayer(a, b, n - 1);
      QueueOther(s, Player(a, b, n - 1), Player(a, b, n));
      AfterRun(s, Turn([], [Player(a, b, n)])).(index := s.index + 1)
  }

  lemma {:induction false} QueueOther(s: State, x: Id, y: Id)
    requires Alone(s, x) && x != y
    ensures AfterRun(s, Turn([], [y])) == s.(queue := s.queue + [y], marked := {y})
  {
    var u := s.(marked := {});
    assert s.marked - {x} == {};
    assert [y][1..] == [];
    assert QueueAll(u, [y]) == QueueWatcher(u, y);
    assert Insert(u.queue, u.index, y) == s.queue + [y];
  }

  lemma {:induction false} AloneIsDue(s: State, x: Id)
    requires Alone(s, x)
    ensures Due(s)
  {
    assert s.queue[s.index + 1..] == [] && s.queue[s.index..] == [x];
  }

  /** The check looks only for a watcher that has queued itself: after any number of turns of such a
      flush no count has been kept, the check does not fire, and there is another turn to come. */
  lemma {:induction false} PingPongGoesOn(a: Id, b: Id, n: nat)
    requires a != b
    ensures var s := PingPong(a, b, n);
      && Due(s)
      && var r := AfterRun(s, Turn([], [Player(a, b, n + 1)]));
      Checked(r) == (r, false) && r.(index := s.index + 1) == PingPong(a, b, n + 1)
  {
    var s := PingPong(a, b, n);
    OtherPlayer(a, b, n);
    AloneIsDue(s, Player(a, b, n));
    OtherTurn(s, Player(a, b, n), Player(a, b, n + 1));
  }

  /** One such turn. */
  lemma {:induction false} OtherTurn(s: State, x: Id, y: Id)
    requires Alone(s, x) && x != y
    ensures var r := AfterRun(s, Turn([], [y]));
      Checked(r) == (r, false) && r.index == s.index
  {
    QueueOther(s, x, y);
    var r := s.(queue := s.queue + [y], marked := {y});
    assert r.queue[r.index] == x;
  }
}
