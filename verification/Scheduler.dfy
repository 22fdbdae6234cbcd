/** The update queue: watchers are run in the order of their ids, while their runs queue more. */
module Scheduler {
  import opened Sequences

  type Id = nat

  const MAX_UPDATE_COUNT := 100

  /** The module-level variables. marked holds the ids whose entry in has is true. */
  datatype State = State(
    queue: seq<Id>,
    marked: set<Id>,
    circular: map<Id, nat>,
    waiting: bool,
    flushing: bool,
    index: int)

  const IDLE := State([], {}, map[], false, false, 0)

  // ---- queueWatcher --------------------------------------------------------------------------

  /** Where the backward search stops: behind the last entry that is not to come later. */
  function Slot(queue: seq<Id>, index: int, id: Id, i: int): (k: int)
    requires 0 <= index <= i < |queue|
    ensures index <= k <= i
    decreases i - index
  {
    if i > index && queue[i] > id then Slot(queue, index, id, i - 1) else i
  }

  function Insert(queue: seq<Id>, index: int, id: Id): seq<Id>
    requires 0 <= index < |queue|
  {
    var k := Slot(queue, index, id, |queue| - 1);
    queue[..k + 1] + [id] + queue[k + 1..]
  }

  predicate Running(s: State) {
    s.flushing ==> 0 <= s.index < |s.queue|
  }

  function QueueWatcher(s: State, id: Id): State
    requires Running(s)
  {
    if id in s.marked then s
    else s.(marked := s.marked + {id},
            queue := if s.flushing then Insert(s.queue, s.index, id) else s.queue + [id],
            waiting := true)
  }

  /** Several in a row, as a watcher does while it runs. */
  function QueueAll(s: State, ids: seq<Id>): State
    requires Running(s)
    decreases |ids|
  {
    if ids == [] then s
    else
      QueueKeepsRunning(s, ids[0]);
      QueueAll(QueueWatcher(s, ids[0]), ids[1..])
  }

  lemma {:induction false} QueueKeepsRunning(s: State, id: Id)
    requires Running(s)
    ensures var t := QueueWatcher(s, id);
      Running(t) && t.index == s.index && t.flushing == s.flushing && t.circular == s.circular
  {
  }

  // ---- The invariants ------------------------------------------------------------------------

  predicate Ascending(s: seq<Id>) {
    forall i, j :: 0 <= i < j < |s| ==> s[i] < s[j]
  }

  function Members(s: seq<Id>): set<Id> {
    set x | x in s
  }

  /** Outside a flush: what is marked is what is queued, once; and if anything is queued a flush has
      been asked for. */
  ghost predicate Gathering(s: State) {
    && !s.flushing && s.index == 0
    && NoDup(s.queue) && s.marked == Members(s.queue) && s.circular == map[]
    && (s.queue != [] ==> s.waiting)
  }

  /** In a flush, before the entry at index has run: it and all behind it are marked, nothing else. */
  ghost predicate Due(s: State) {
    && s.flushing && s.waiting && 0 <= s.index < |s.queue|
    && Ascending(s.queue[s.index + 1..])
    && s.queue[s.index] !in s.queue[s.index + 1..]
    && s.marked == Members(s.queue[s.index..])
  }

  /** In a flush, once the entry at index is running: what is marked is what is still to come. */
  ghost predicate Past(s: State) {
    && s.flushing && s.waiting && 0 <= s.index < |s.queue|
    && Ascending(s.queue[s.index + 1..])
    && s.marked == Members(s.queue[s.index + 1..])
  }

  // ---- Insertion -----------------------------------------------------------------------------

  lemma {:induction false} SlotStops(queue: seq<Id>, index: int, id: Id, i: int)
    requires 0 <= index <= i < |queue|
    ensures var k := Slot(queue, index, id, i);
      && (forall h :: k < h <= i ==> queue[h] > id)
      && (k > index ==> queue[k] <= id)
    decreases i - index
  {
    if i > index && queue[i] > id {
      SlotStops(queue, index, id, i - 1);
    }
  }

  lemma {:induction false} BetweenSmallerAndLarger(a: seq<Id>, id: Id, b: seq<Id>)
    requires Ascending(a + b)
    requires a != [] ==> a[|a| - 1] < id
    requires forall i :: 0 <= i < |b| ==> id < b[i]
    ensures Ascending(a + [id] + b) && Members(a + [id] + b) == Members(a + b) + {id}
  {
    forall i | 0 <= i < |a|
      ensures a[i] < id
    {
      assert (a + b)[i] == a[i] && (a + b)[|a| - 1] == a[|a| - 1];
    }
    var q := a + [id] + b;
    forall i, j | 0 <= i < j < |q|
      ensures q[i] < q[j]
    {
      if i < |a| && j > |a| {
        assert (a + b)[i] < (a + b)[j - 1];
      } else if j < |a| {
        assert (a + b)[i] < (a + b)[j];
      } else if i > |a| {
        assert (a + b)[i - 1] < (a + b)[j - 1];
      }
    }
    assert forall x :: x in q <==> x in a + b || x == id;
  }

  lemma {:induction false} InsertSplits(queue: seq<Id>, index: int, id: Id) returns (a: seq<Id>, b: seq<Id>)
    requires 0 <= index < |queue| && id !in queue[index + 1..]
    ensures queue[index + 1..] == a + b && Insert(queue, index, id)[index + 1..] == a + [id] + b
    ensures Insert(queue, index, id)[..index + 1] == queue[..index + 1]
    ensures a != [] ==> a[|a| - 1] < id
    ensures forall i :: 0 <= i < |b| ==> id < b[i]
  {
    var k := Slot(queue, index, id, |queue| - 1);
    SlotStops(queue, index, id, |queue| - 1);
    a, b := queue[index + 1..k + 1], queue[k + 1..];
    if k > index {
      assert queue[k] == queue[index + 1..][k - index - 1];
    }
  }

  /** An id that is not there yet is inserted behind the cursor, in its place; the run so far and the
      entry at the cursor stay where they are. */
  lemma {:induction false} InsertInPlace(queue: seq<Id>, index: int, id: Id)
    requires 0 <= index < |queue|
    requires Ascending(queue[index + 1..]) && id !in queue[index + 1..]
    ensures var q := Insert(queue, index, id);
      && q[..index + 1] == queue[..index + 1]
      && Ascending(q[index + 1..])
      && Members(q[index + 1..]) == Members(queue[index + 1..]) + {id}
  {
    var a, b := InsertSplits(queue, index, id);
    BetweenSmallerAndLarger(a, id, b);
  }

  lemma {:induction false} TailOf(queue: seq<Id>, index: int)
    requires 0 <= index < |queue|
    ensures Members(queue[index..]) == {queue[index]} + Members(queue[index + 1..])
  {
    assert queue[index..] == [queue[index]] + queue[index + 1..];
  }

  lemma {:induction false} QueueKeepsGathering(s: State, id: Id)
    requires Gathering(s)
    ensures Gathering(QueueWatcher(s, id))
  {
  }

  lemma {:induction false} QueueKeepsPast(s: State, id: Id)
    requires Past(s)
    ensures Past(QueueWatcher(s, id)) && QueueWatcher(s, id).queue[..s.index + 1] == s.queue[..s.index + 1]
  {
    if id !in s.marked {
      InsertInPlace(s.queue, s.index, id);
    }
  }

  lemma {:induction false} QueueKeepsDue(s: State, id: Id)
    requires Due(s)
    ensures Due(QueueWatcher(s, id)) && QueueWatcher(s, id).queue[..s.index + 1] == s.queue[..s.index + 1]
  {
    if id !in s.marked {
      TailOf(s.queue, s.index);
      InsertInPlace(s.queue, s.index, id);
      var t := QueueWatcher(s, id);
      assert t.queue[s.index] == t.queue[..s.index + 1][s.index] == s.queue[s.index];
      TailOf(t.queue, s.index);
      assert s.queue[s.index] !in Members(t.queue[s.index + 1..]);
    }
  }

  // ---- queue.sort ----------------------------------------------------------------------------

  function Place(id: Id, s: seq<Id>): seq<Id> {
    if s == [] || id <= s[0] then [id] + s else [s[0]] + Place(id, s[1..])
  }

  function Sort(s: seq<Id>): seq<Id> {
    if s == [] then [] else Place(s[0], Sort(s[1..]))
  }

  lemma {:induction false} PlaceKeeps(id: Id, s: seq<Id>)
    requires Ascending(s) && id !in s
    ensures Ascending(Place(id, s)) && Members(Place(id, s)) == Members(s) + {id} && |Place(id, s)| == |s| + 1
  {
    if s == [] || id <= s[0] {
      assert s != [] ==> id < s[0];
    } else {
      PlaceKeeps(id, s[1..]);
      var rest := Place(id, s[1..]);
      assert s == [s[0]] + s[1..];
      forall i | 0 <= i < |rest|
        ensures s[0] < rest[i]
      {
        assert rest[i] in Members(rest);
      }
    }
  }

  lemma {:induction false} SortKeeps(s: seq<Id>)
    requires NoDup(s)
    ensures Ascending(Sort(s)) && Members(Sort(s)) == Members(s) && |Sort(s)| == |s|
  {
    if s != [] {
      SortKeeps(s[1..]);
      assert s == [s[0]] + s[1..];
      assert s[0] !in s[1..];
      assert s[0] !in Members(Sort(s[1..]));
      PlaceKeeps(s[0], Sort(s[1..]));
    }
  }

  /** The start of a flush. */
  function Sorted(s: State): State {
    s.(flushing := true, queue := Sort(s.queue))
  }

  // ---- One turn of a flush -------------------------------------------------------------------

  /** What a watcher queues in its before hook and in its run. */
  datatype Turn = Turn(before: seq<Id>, run: seq<Id>)

  function BeforeRun(s: State, t: Turn): State
    requires Running(s)
  {
    QueueAll(s, t.before)
  }

  /** The watcher at the cursor is run. */
  function AfterRun(s: State, t: Turn): (r: State)
    requires Running(s) && s.flushing
    ensures Running(r) && r.flushing && r.index == s.index && r.circular == s.circular
  {
    QueueAllKeeps(s, t.before);
    var u := BeforeRun(s, t);
    QueueAllKeeps(u.(marked := u.marked - {u.queue[u.index]}), t.run);
    QueueAll(u.(marked := u.marked - {u.queue[u.index]}), t.run)
  }

  /** The check for circular updates: the watcher has been queued again during its own run. */
  function Checked(s: State): (r: (State, bool))
    requires Running(s) && s.flushing
    ensures r.0 == s.(circular := r.0.circular)
    ensures r.1 ==> s.queue[s.index] in r.0.circular && r.0.circular[s.queue[s.index]] > MAX_UPDATE_COUNT
  {
    var id := s.queue[s.index];
    if id in s.marked then
      var n := (if id in s.circular then s.circular[id] else 0) + 1;
      (s.(circular := s.circular[id := n]), n > MAX_UPDATE_COUNT)
    else (s, false)
  }

  lemma {:induction false} QueueAllKeeps(s: State, ids: seq<Id>)
    requires Running(s)
    ensures var t := QueueAll(s, ids);
      Running(t) && t.index == s.index && t.flushing == s.flushing && t.circular == s.circular
    decreases |ids|
  {
    if ids != [] {
      QueueKeepsRunning(s, ids[0]);
      QueueAllKeeps(QueueWatcher(s, ids[0]), ids[1..]);
    }
  }

  lemma {:induction false} QueueAllKeepsDue(s: State, ids: seq<Id>)
    requires Due(s)
    ensures Due(QueueAll(s, ids)) && QueueAll(s, ids).index == s.index
    ensures QueueAll(s, ids).queue[..s.index + 1] == s.queue[..s.index + 1]
    decreases |ids|
  {
    if ids != [] {
      QueueKeepsDue(s, ids[0]);
      QueueAllKeepsDue(QueueWatcher(s, ids[0]), ids[1..]);
    }
  }

  lemma {:induction false} QueueAllKeepsPast(s: State, ids: seq<Id>)
    requires Past(s)
    ensures Past(QueueAll(s, ids)) && QueueAll(s, ids).index == s.index
    ensures QueueAll(s, ids).queue[..s.index + 1] == s.queue[..s.index + 1]
    decreases |ids|
  {
    if ids != [] {
      QueueKeepsPast(s, ids[0]);
      QueueAllKeepsPast(QueueWatcher(s, ids[0]), ids[1..]);
    }
  }

  /** Taking the mark off the entry at the cursor leaves just those of the entries behind it. */
  lemma {:induction false} Unmark(s: State)
    requires Due(s)
    ensures Past(s.(marked := s.marked - {s.queue[s.index]}))
  {
    TailOf(s.queue, s.index);
    assert s.queue[s.index] !in Members(s.queue[s.index + 1..]);
  }

  /** A turn keeps the order of what is still to come, whatever the watcher queues, and nothing is
      ever inserted at or in front of the cursor. */
  lemma {:induction false} TurnKeeps(s: State, t: Turn)
    requires Due(s)
    ensures Past(AfterRun(s, t)) && AfterRun(s, t).index == s.index
    ensures AfterRun(s, t).queue[..s.index + 1] == s.queue[..s.index + 1]
  {
    QueueAllKeepsDue(s, t.before);
    var u := BeforeRun(s, t);
    Unmark(u);
    QueueAllKeepsPast(u.(marked := u.marked - {u.queue[u.index]}), t.run);
  }

  /** The next entry is due, and it is the least of all that are waiting. */
  lemma {:induction false} NextIsLeast(s: State)
    requires Past(s) && s.index + 1 < |s.queue|
    ensures var t := s.(index := s.index + 1);
      && Due(t)
      && t.queue[t.index] in t.marked
      && forall id :: id in t.marked ==> t.queue[t.index] <= id
  {
    var rest := s.queue[s.index + 1..];
    assert rest[0] == s.queue[s.index + 1] && rest[1..] == s.queue[s.index + 2..];
    assert forall i :: 0 <= i < |rest[1..]| ==> rest[1..][i] == rest[i + 1];
    assert rest == s.queue[s.index + 1..];
    forall id | id in s.marked
      ensures rest[0] <= id
    {
      var k :| 0 <= k < |rest| && rest[k] == id;
      assert k > 0 ==> rest[0] < rest[k];
    }
  }

  lemma {:induction false} FirstIsLeast(s: State)
    requires Gathering(s) && s.queue != []
    ensures var t := Sorted(s);
      Due(t) && forall id :: id in t.marked ==> t.queue[0] <= id
  {
    SortKeeps(s.queue);
    var q := Sort(s.queue);
    assert q[0..] == q;
    forall i, j | 0 <= i < j < |q[1..]|
      ensures q[1..][i] < q[1..][j]
    {
      assert q[i + 1] < q[j + 1];
    }
    forall id | id in q
      ensures q[0] <= id
    {
      var k :| 0 <= k < |q| && q[k] == id;
      assert k > 0 ==> q[0] < q[k];
    }
  }
}
