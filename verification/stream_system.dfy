/** All interleavings of stream operations: callers of `insert`, `write` and
    `remove`, the spawned write loops, and the pending shutdowns. One event is
    one lock region or one completed piece of work between two awaits. */
module StreamSystem {
  import opened Sequences
  import opened Delivery
  import opened Streams

  /** A spawned activity that owns a write half. A loop with no items is about
      to take the lock; otherwise `items[0]` is what is left of the segment
      being written. */
  datatype Task =
    | Loop(id: Id, half: WriteHalf, items: seq<Segment>)
    | Closing(id: Id, half: WriteHalf)

  /** A stream, named by its write half: what arrived on its far side, and how
      often it was shut down. `id`, `accepted` and `lossy` record history: the id
      it was inserted under, the segments `write` accepted for it, and whether a
      write on it failed. */
  datatype Stream = Stream(id: Id, bytes: seq<Byte>, shutdowns: nat, accepted: seq<Segment>, lossy: bool)

  /** `current` is the stream last inserted under an id. */
  datatype System = System(
    table: Table,
    tasks: map<nat, Task>,
    streams: map<WriteHalf, Stream>,
    current: map<Id, WriteHalf>)

  const EMPTY := System(map[], map[], map[], map[])

  datatype Event =
    | Insert(id: Id, half: WriteHalf)
    | Write(id: Id, buf: Segment, spawn: nat)
    | Remove(id: Id, spawn: nat)
    | TakeTurn(task: nat)
    | Progress(task: nat, n: nat)   // some bytes of the current segment leave
    | FinishItem(task: nat)         // the current segment is fully written
    | FailItem(task: nat)           // write_all fails; the batch is dropped
    | Shutdown(task: nat)

  predicate IsLoop(s: System, task: nat) {
    task in s.tasks && s.tasks[task].Loop? && s.tasks[task].half in s.streams
  }

  /** The code lets any id be inserted at any time. */
  predicate Enabled(s: System, e: Event) {
    match e
    case Insert(_, half) => half !in s.streams
    case Write(_, _, spawn) => spawn !in s.tasks
    case Remove(_, spawn) => spawn !in s.tasks
    case TakeTurn(task) => IsLoop(s, task) && s.tasks[task].items == []
    case Progress(task, n) =>
      IsLoop(s, task) && s.tasks[task].items != [] && 0 < n <= |s.tasks[task].items[0]|
    case FinishItem(task) => IsLoop(s, task) && s.tasks[task].items != [] && s.tasks[task].items[0] == []
    case FailItem(task) => IsLoop(s, task) && s.tasks[task].items != []
    case Shutdown(task) => task in s.tasks && s.tasks[task].Closing? && s.tasks[task].half in s.streams
  }

  /** The stream whose record stands under `id`. */
  predicate HasStream(s: System, id: Id) {
    id in s.table && id in s.current && s.current[id] in s.streams
  }

  function Accepted(s: System, id: Id, buf: Segment): map<WriteHalf, Stream> {
    if !HasStream(s, id) then s.streams else
      var stream := s.streams[s.current[id]];
      s.streams[s.current[id] := stream.(accepted := stream.accepted + [buf])]
  }

  function Next(s: System, e: Event): System
    requires Enabled(s, e)
  {
    match e
    case Insert(id, half) =>
      s.(table := Inserted(s.table, id, half),
         streams := s.streams[half := Stream(id, [], 0, [], false)],
         current := s.current[id := half])
    case Write(id, buf, spawn) =>
      var (table, spawned) := Written(s.table, id, buf);
      s.(table := table,
         tasks := if spawned.Some? then s.tasks[spawn := Loop(id, spawned.value, [])] else s.tasks,
         streams := Accepted(s, id, buf))
    case Remove(id, spawn) =>
      var (table, remove) := Removed(s.table, id);
      s.(table := table,
         tasks := if remove.Some? then s.tasks[spawn := Closing(id, remove.value)] else s.tasks)
    case TakeTurn(task) =>
      var t := s.tasks[task];
      var (table, turn) := TurnTaken(s.table, t.id, t.half);
      s.(table := table,
         tasks := match turn
                  case Parked => s.tasks - {task}
                  case Batch(items) => s.tasks[task := t.(items := items)]
                  case _ => s.tasks[task := Closing(t.id, t.half)])
    case Progress(task, n) =>
      var t := s.tasks[task];
      var stream := s.streams[t.half];
      s.(tasks := s.tasks[task := t.(items := [t.items[0][n..]] + t.items[1..])],
         streams := s.streams[t.half := stream.(bytes := stream.bytes + t.items[0][..n])])
    case FinishItem(task) =>
      var t := s.tasks[task];
      s.(tasks := s.tasks[task := t.(items := t.items[1..])])
    case FailItem(task) =>
      var t := s.tasks[task];
      s.(tasks := s.tasks[task := t.(items := [])],
         streams := s.streams[t.half := s.streams[t.half].(lossy := true)])
    case Shutdown(task) =>
      var t := s.tasks[task];
      var stream := s.streams[t.half];
      s.(tasks := s.tasks - {task}, streams := s.streams[t.half := stream.(shutdowns := stream.shutdowns + 1)])
  }

  // ---------- the invariant, stream by stream ----------

  predicate TaskOf(s: System, h: WriteHalf, t: nat) {
    t in s.tasks && s.tasks[t].half == h
  }

  /** The record under the stream's id is the stream's own. */
  predicate Open(s: System, h: WriteHalf) {
    h in s.streams && HasStream(s, s.streams[h].id) && s.current[s.streams[h].id] == h
  }

  function Record(s: System, h: WriteHalf): StreamRec
    requires Open(s, h)
  {
    s.table[s.streams[h].id]
  }

  /** The accepted segments are delivered, in the batch `items`, or queued. */
  ghost predicate Accounted(stream: Stream, items: seq<Segment>, q: seq<Segment>) {
    Placed(stream.accepted, stream.bytes, items, q, !stream.lossy)
  }

  ghost predicate NoTask(s: System, h: WriteHalf) {
    forall t :: !TaskOf(s, h, t)
  }

  ghost predicate OnlyTask(s: System, h: WriteHalf, t: nat) {
    h in s.streams && TaskOf(s, h, t) && s.tasks[t].id == s.streams[h].id && forall u :: TaskOf(s, h, u) ==> u == t
  }

  /** The record holds the half; nothing is queued or being written. */
  ghost predicate Idle(s: System, h: WriteHalf) {
    Open(s, h) && Record(s, h) == StreamRec(Some(h), [], false) && NoTask(s, h) &&
    s.streams[h].shutdowns == 0 && Accounted(s.streams[h], [], [])
  }

  /** Write loop `t` owns the half. */
  ghost predicate Busy(s: System, h: WriteHalf, t: nat) {
    Open(s, h) && Record(s, h).write == None && OnlyTask(s, h, t) && s.tasks[t].Loop? &&
    s.streams[h].shutdowns == 0 && Accounted(s.streams[h], s.tasks[t].items, Record(s, h).q)
  }

  /** The record is gone and task `t` is about to shut the half down. */
  ghost predicate Ending(s: System, h: WriteHalf, t: nat) {
    h in s.streams && !Open(s, h) && OnlyTask(s, h, t) && s.tasks[t].Closing? &&
    s.streams[h].shutdowns == 0 && Accounted(s.streams[h], [], [])
  }

  ghost predicate Closed(s: System, h: WriteHalf) {
    h in s.streams && !Open(s, h) && NoTask(s, h) &&
    s.streams[h].shutdowns == 1 && Accounted(s.streams[h], [], [])
  }

  ghost predicate StreamOk(s: System, h: WriteHalf) {
    Idle(s, h) || (exists t :: Busy(s, h, t)) || (exists t :: Ending(s, h, t)) || Closed(s, h)
  }

  /** Every record and every task belongs to a stream inserted under its id. */
  ghost predicate Closure(s: System) {
    && (forall id :: id in s.table ==> HasStream(s, id) && s.streams[s.current[id]].id == id &&
                                       s.table[id].write in {None, Some(s.current[id])})
    && (forall t :: t in s.tasks ==> s.tasks[t].half in s.streams && s.streams[s.tasks[t].half].id == s.tasks[t].id)
  }

  ghost predicate Inv(s: System) {
    Closure(s) && forall h :: h in s.streams ==> StreamOk(s, h)
  }

  /** An id is inserted only where no record stands. It may have been used
      before, and its former stream may still be about to shut down. */
  predicate Careful(s: System, e: Event) {
    Enabled(s, e) && (e.Insert? ==> e.id !in s.table)
  }

  // ---------- every event keeps the invariant ----------

  ghost predicate Untouched(s: System, s': System, h: WriteHalf) {
    h in s.streams && h in s'.streams && s.streams[h] == s'.streams[h] &&
    (Open(s, h) <==> Open(s', h)) && (Open(s, h) ==> Record(s, h) == Record(s', h)) &&
    (forall t :: TaskOf(s, h, t) ==> TaskOf(s', h, t) && s'.tasks[t] == s.tasks[t]) &&
    (forall t :: TaskOf(s', h, t) ==> TaskOf(s, h, t))
  }

  lemma UntouchedOk(s: System, s': System, h: WriteHalf)
    requires StreamOk(s, h) && Untouched(s, s', h)
    ensures StreamOk(s', h)
  {
    hide Accounted, Open, Record;
    if Idle(s, h) {
      assert Idle(s', h);
    } else if Closed(s, h) {
      assert Closed(s', h);
    } else if t :| Busy(s, h, t) {
      assert Busy(s', h, t);
    } else {
      var t :| Ending(s, h, t);
      assert Ending(s', h, t);
    }
  }

  /** A loop's stream is busy with it, a closing task's stream is ending with it. */
  lemma TaskStage(s: System, t: nat)
    requires Inv(s) && t in s.tasks
    ensures s.tasks[t].half in s.streams
    ensures s.tasks[t].Loop? ==> Busy(s, s.tasks[t].half, t)
    ensures s.tasks[t].Closing? ==> Ending(s, s.tasks[t].half, t)
  {
    var h := s.tasks[t].half;
    assert StreamOk(s, h) && TaskOf(s, h, t);
    hide Accounted, Open, Record;
    if u :| Busy(s, h, u) {
      assert u == t;
    } else {
      var u :| Ending(s, h, u);
      assert u == t;
    }
  }

  predicate FromCaller(e: Event) {
    e.Insert? || e.Write? || e.Remove?
  }

  /** The stream an event works on, if there is one. */
  function Subject(s: System, e: Event): Option<WriteHalf>
    requires Enabled(s, e)
  {
    match e
    case Insert(_, half) => Some(half)
    case Write(id, _, _) => if HasStream(s, id) then Some(s.current[id]) else None
    case Remove(id, _) => if HasStream(s, id) then Some(s.current[id]) else None
    case _ => Some(s.tasks[e.task].half)
  }

  /** What an event needs of the stream it works on to leave the others alone. */
  ghost predicate SubjectOwned(s: System, e: Event) {
    Careful(s, e) &&
    (e.TakeTurn? ==>
      var t := s.tasks[e.task];
      Open(s, t.half) && s.streams[t.half].id == t.id)
  }

  lemma SubjectIsOwned(s: System, e: Event)
    requires Inv(s) && Careful(s, e)
    ensures SubjectOwned(s, e)
  {
    if e.TakeTurn? {
      TaskStage(s, e.task);
    }
  }

  lemma CallersLeaveOthers(s: System, e: Event, h: WriteHalf)
    requires FromCaller(e) && Closure(s) && SubjectOwned(s, e)
    requires h in s.streams && Subject(s, e) != Some(h)
    ensures Untouched(s, Next(s, e), h)
  {
  }

  lemma TasksLeaveOthers(s: System, e: Event, h: WriteHalf)
    requires !FromCaller(e) && Closure(s) && SubjectOwned(s, e)
    requires h in s.streams && Subject(s, e) != Some(h)
    ensures Untouched(s, Next(s, e), h)
  {
  }

  lemma CallersKeepClosure(s: System, e: Event)
    requires FromCaller(e) && Closure(s) && SubjectOwned(s, e)
    ensures Closure(Next(s, e))
  {
  }

  lemma TasksKeepClosure(s: System, e: Event)
    requires !FromCaller(e) && Closure(s) && SubjectOwned(s, e)
    ensures Closure(Next(s, e))
  {
  }

  // ---------- the stream an event works on ----------

  lemma InsertKeeps(s: System, e: Event)
    requires Inv(s) && e.Insert? && Careful(s, e)
    ensures Idle(Next(s, e), e.half)
  {
    AllQueued([]);
    hide Placed;
    var s' := Next(s, e);
    assert NoTask(s', e.half);
    assert Idle(s', e.half);
  }

  lemma WriteToIdle(s: System, e: Event, h: WriteHalf)
    requires e.Write? && Enabled(s, e) && Idle(s, h) && s.streams[h].id == e.id
    ensures Busy(Next(s, e), h, e.spawn)
  {
    var stream := s.streams[h];
    MoreQueued(stream.accepted, stream.bytes, [], [], !stream.lossy, [e.buf]);
    hide Placed;
    var s' := Next(s, e);
    assert forall u :: TaskOf(s', h, u) ==> u == e.spawn || TaskOf(s, h, u);
    assert [] + [e.buf] == [e.buf];
  }

  lemma WriteToBusy(s: System, e: Event, h: WriteHalf, t: nat)
    requires e.Write? && Enabled(s, e) && Busy(s, h, t) && s.streams[h].id == e.id
    ensures Busy(Next(s, e), h, t)
  {
    var stream := s.streams[h];
    MoreQueued(stream.accepted, stream.bytes, s.tasks[t].items, Record(s, h).q, !stream.lossy, [e.buf]);
    hide Placed;
    var s' := Next(s, e);
    assert forall u :: TaskOf(s', h, u) ==> TaskOf(s, h, u);
  }

  lemma WriteKeeps(s: System, e: Event, h: WriteHalf)
    requires StreamOk(s, h) && e.Write? && Enabled(s, e) && Open(s, h) && s.streams[h].id == e.id
    ensures StreamOk(Next(s, e), h)
  {
    hide Accounted;
    if Idle(s, h) {
      WriteToIdle(s, e, h);
    } else {
      var t :| Busy(s, h, t);
      WriteToBusy(s, e, h, t);
    }
  }

  lemma RemoveIdle(s: System, e: Event, h: WriteHalf)
    requires e.Remove? && Enabled(s, e) && Idle(s, h) && s.streams[h].id == e.id
    ensures Ending(Next(s, e), h, e.spawn)
  {
    hide Accounted;
    var s' := Next(s, e);
    assert forall u :: TaskOf(s', h, u) ==> u == e.spawn || TaskOf(s, h, u);
  }

  lemma RemoveBusy(s: System, e: Event, h: WriteHalf, t: nat)
    requires e.Remove? && Enabled(s, e) && Busy(s, h, t) && s.streams[h].id == e.id
    ensures Busy(Next(s, e), h, t) && Record(Next(s, e), h) == Record(s, h).(ended := true)
  {
    hide Accounted;
    var s' := Next(s, e);
    assert forall u :: TaskOf(s', h, u) ==> TaskOf(s, h, u);
  }

  lemma RemoveKeeps(s: System, e: Event, h: WriteHalf)
    requires StreamOk(s, h) && e.Remove? && Enabled(s, e) && Open(s, h) && s.streams[h].id == e.id
    ensures StreamOk(Next(s, e), h)
  {
    hide Accounted;
    if Idle(s, h) {
      RemoveIdle(s, e, h);
    } else {
      var t :| Busy(s, h, t);
      RemoveBusy(s, e, h, t);
    }
  }

  lemma TurnToBatch(s: System, e: Event, h: WriteHalf)
    requires e.TakeTurn? && Enabled(s, e) && Busy(s, h, e.task) && Record(s, h).q != []
    ensures Busy(Next(s, e), h, e.task)
  {
    var stream := s.streams[h];
    hide Placed;
    QueueTaken(stream.accepted, stream.bytes, Record(s, h).q, !stream.lossy);
    assert forall u :: TaskOf(Next(s, e), h, u) ==> TaskOf(s, h, u);
  }

  lemma TurnToEnd(s: System, e: Event, h: WriteHalf)
    requires e.TakeTurn? && Enabled(s, e) && Busy(s, h, e.task) && Record(s, h).q == []
    ensures if Record(s, h).ended then Ending(Next(s, e), h, e.task) else Idle(Next(s, e), h)
  {
    hide Accounted;
    var s' := Next(s, e);
    assert forall u :: TaskOf(s', h, u) ==> TaskOf(s, h, u);
    assert Record(s, h).ended ==> s'.table == s.table - {s.streams[h].id};
  }

  lemma TakeTurnKeeps(s: System, e: Event)
    requires Inv(s) && e.TakeTurn? && Enabled(s, e)
    ensures var h := s.tasks[e.task].half;
            Open(s, h) &&
            if Record(s, h).q != [] then Busy(Next(s, e), h, e.task)
            else if Record(s, h).ended then Ending(Next(s, e), h, e.task)
            else Idle(Next(s, e), h)
  {
    TaskStage(s, e.task);
    hide Inv, Accounted, Next, Idle, Ending;
    var h := s.tasks[e.task].half;
    if Record(s, h).q != [] {
      TurnToBatch(s, e, h);
    } else {
      TurnToEnd(s, e, h);
    }
  }

  /** A step on the batch that leaves the table alone. */
  lemma BatchKept(s: System, s': System, h: WriteHalf, t: nat, items: seq<Segment>, stream: Stream)
    requires Busy(s, h, t)
    requires s'.table == s.table && s'.current == s.current
    requires s'.tasks == s.tasks[t := s.tasks[t].(items := items)]
    requires s'.streams == s.streams[h := stream] && stream.id == s.streams[h].id && stream.shutdowns == 0
    requires Accounted(stream, items, Record(s, h).q)
    ensures Busy(s', h, t)
  {
    hide Accounted;
    assert forall u :: TaskOf(s', h, u) ==> TaskOf(s, h, u);
  }

  lemma ProgressKeeps(s: System, e: Event)
    requires Inv(s) && e.Progress? && Enabled(s, e)
    ensures Busy(Next(s, e), s.tasks[e.task].half, e.task)
  {
    TaskStage(s, e.task);
    hide Inv, Placed, NoTask, OnlyTask;
    var t := s.tasks[e.task];
    var stream, q := s.streams[t.half], Record(s, t.half).q;
    PartSent(stream.accepted, stream.bytes, t.items, q, !stream.lossy, e.n);
    BatchKept(s, Next(s, e), t.half, e.task, [t.items[0][e.n..]] + t.items[1..],
              stream.(bytes := stream.bytes + t.items[0][..e.n]));
  }

  lemma FinishItemKeeps(s: System, e: Event)
    requires Inv(s) && e.FinishItem? && Enabled(s, e)
    ensures Busy(Next(s, e), s.tasks[e.task].half, e.task)
  {
    TaskStage(s, e.task);
    hide Inv, Placed, NoTask, OnlyTask;
    var t := s.tasks[e.task];
    var stream, q := s.streams[t.half], Record(s, t.half).q;
    ItemDone(stream.accepted, stream.bytes, t.items, q, !stream.lossy);
    assert s.streams[t.half := stream] == s.streams;
    BatchKept(s, Next(s, e), t.half, e.task, t.items[1..], stream);
  }

  lemma FailItemKeeps(s: System, e: Event)
    requires Inv(s) && e.FailItem? && Enabled(s, e)
    ensures Busy(Next(s, e), s.tasks[e.task].half, e.task)
  {
    TaskStage(s, e.task);
    hide Inv, Placed, NoTask, OnlyTask;
    var t := s.tasks[e.task];
    var stream, q := s.streams[t.half], Record(s, t.half).q;
    BatchDropped(stream.accepted, stream.bytes, t.items, q, !stream.lossy);
    BatchKept(s, Next(s, e), t.half, e.task, [], stream.(lossy := true));
  }

  lemma EndingShut(s: System, e: Event, h: WriteHalf)
    requires e.Shutdown? && Enabled(s, e) && Ending(s, h, e.task)
    ensures Closed(Next(s, e), h)
  {
    hide Placed;
    assert forall u :: TaskOf(Next(s, e), h, u) ==> TaskOf(s, h, u);
  }

  lemma ShutdownKeeps(s: System, e: Event)
    requires Inv(s) && e.Shutdown? && Enabled(s, e)
    ensures Closed(Next(s, e), s.tasks[e.task].half)
  {
    TaskStage(s, e.task);
    EndingShut(s, e, s.tasks[e.task].half);
  }

  lemma SubjectKept(s: System, e: Event, h: WriteHalf)
    requires Inv(s) && Careful(s, e) && Subject(s, e) == Some(h)
    ensures StreamOk(Next(s, e), h)
  {
    hide Idle, Busy, Ending, Closed, Next;
    match e
    case Insert(_, _) => InsertKeeps(s, e);
    case Write(_, _, _) => assert StreamOk(s, h); WriteKeeps(s, e, h);
    case Remove(_, _) => assert StreamOk(s, h); RemoveKeeps(s, e, h);
    case TakeTurn(_) => TakeTurnKeeps(s, e);
    case Progress(_, _) => ProgressKeeps(s, e);
    case FinishItem(_) => FinishItemKeeps(s, e);
    case FailItem(_) => FailItemKeeps(s, e);
    case Shutdown(_) => ShutdownKeeps(s, e);
  }

  lemma OnlySubjectIsNew(s: System, e: Event, h: WriteHalf)
    requires Enabled(s, e) && h in Next(s, e).streams
    ensures h in s.streams || Subject(s, e) == Some(h)
  {
  }

  lemma InvKept(s: System, e: Event)
    requires Inv(s) && Careful(s, e)
    ensures Inv(Next(s, e))
  {
    var s' := Next(s, e);
    SubjectIsOwned(s, e);
    assert Closure(s') by {
      if FromCaller(e) { CallersKeepClosure(s, e); } else { TasksKeepClosure(s, e); }
    }
    hide Next, StreamOk, Closure, Enabled;
    forall h | h in s'.streams ensures StreamOk(s', h) {
      OnlySubjectIsNew(s, e, h);
      if Subject(s, e) == Some(h) {
        SubjectKept(s, e, h);
      } else {
        assert StreamOk(s, h);
        if FromCaller(e) { CallersLeaveOthers(s, e, h); } else { TasksLeaveOthers(s, e, h); }
        UntouchedOk(s, s', h);
      }
    }
  }

  // ---------- every run ----------

  predicate Runs(s: System, events: seq<Event>)
    decreases |events|
  {
    events == [] || (Careful(s, events[0]) && Runs(Next(s, events[0]), events[1..]))
  }

  function After(s: System, events: seq<Event>): System
    requires Runs(s, events)
    decreases |events|
  {
    if events == [] then s else After(Next(s, events[0]), events[1..])
  }

  lemma {:induction false} RunKeeps(s: System, events: seq<Event>)
    requires Inv(s) && Runs(s, events)
    ensures Inv(After(s, events))
    decreases |events|
  {
    if events != [] {
      InvKept(s, events[0]);
      RunKeeps(Next(s, events[0]), events[1..]);
    }
  }

  lemma RunInv(events: seq<Event>)
    requires Runs(EMPTY, events)
    ensures Inv(After(EMPTY, events))
  {
    RunKeeps(EMPTY, events);
  }

  // ---------- what holds in every reachable state ----------

  /** Everyone who owns a half: a record, under whatever id, or a task. */
  datatype Holder = InRecord(id: Id) | InTask(task: nat)

  ghost function Records(s: System, h: WriteHalf): set<Holder> {
    set id | id in s.table && s.table[id].write == Some(h) :: InRecord(id)
  }

  ghost function Tasks(s: System, h: WriteHalf): set<Holder> {
    set t | t in s.tasks && s.tasks[t].half == h :: InTask(t)
  }

  ghost function Holders(s: System, h: WriteHalf): set<Holder> {
    Records(s, h) + Tasks(s, h)
  }

  /** One owner until the one shutdown, none afterwards. */
  ghost predicate OneOwner(s: System, h: WriteHalf) {
    h in s.streams && |Holders(s, h)| + s.streams[h].shutdowns == 1
  }

  ghost predicate AllOwned(s: System) {
    forall h :: h in s.streams ==> OneOwner(s, h)
  }

  /** Only the stream's own record can hold its half. */
  lemma OwnRecord(s: System, h: WriteHalf)
    requires Closure(s)
    ensures Records(s, h) == if Open(s, h) && Record(s, h).write == Some(h) then {InRecord(s.streams[h].id)} else {}
  {
    forall id | id in s.table && s.table[id].write == Some(h)
      ensures Open(s, h) && id == s.streams[h].id && Record(s, h).write == Some(h) {
      assert HasStream(s, id);
    }
  }

  lemma OwnTask(s: System, h: WriteHalf)
    ensures NoTask(s, h) ==> Tasks(s, h) == {}
    ensures forall t :: OnlyTask(s, h, t) ==> Tasks(s, h) == {InTask(t)}
  {
    if NoTask(s, h) {
      forall t | t in s.tasks ensures s.tasks[t].half != h {
        assert !TaskOf(s, h, t);
      }
    }
    forall t | OnlyTask(s, h, t) ensures Tasks(s, h) == {InTask(t)} {
      forall u | u in s.tasks && s.tasks[u].half == h ensures u == t {
        assert TaskOf(s, h, u);
      }
    }
  }

  lemma StageOwned(s: System, h: WriteHalf)
    requires Inv(s) && h in s.streams
    ensures OneOwner(s, h)
  {
    assert StreamOk(s, h);
    OwnRecord(s, h);
    OwnTask(s, h);
    hide Accounted, OnlyTask, NoTask, Records, Tasks, Closure;
  }

  /** The write half is never copied and never lost. */
  lemma EveryHalfOwned(events: seq<Event>)
    requires Runs(EMPTY, events)
    ensures AllOwned(After(EMPTY, events))
  {
    RunInv(events);
    forall h | h in After(EMPTY, events).streams ensures OneOwner(After(EMPTY, events), h) {
      StageOwned(After(EMPTY, events), h);
    }
  }

  /** The batch a write loop has taken off the queue and not yet written. */
  ghost function InFlight(s: System, h: WriteHalf): seq<Byte> {
    if t :| TaskOf(s, h, t) && s.tasks[t].Loop? then Flatten(s.tasks[t].items) else []
  }

  function Queued(s: System, h: WriteHalf): seq<Byte> {
    if Open(s, h) then Flatten(Record(s, h).q) else []
  }

  /** Where the segments of a stream are, in any state that keeps the invariant. */
  lemma InOrder(s: System, h: WriteHalf)
    requires Inv(s) && h in s.streams
    ensures var sent := s.streams[h].bytes + InFlight(s, h) + Queued(s, h);
            Prefixes(sent, s.streams[h].accepted) &&
            (!s.streams[h].lossy ==> sent == Flatten(s.streams[h].accepted))
  {
    var stream := s.streams[h];
    assert StreamOk(s, h);
    hide Inv, Placed;
    if t :| Busy(s, h, t) {
      assert TaskOf(s, h, t);
      PlacedKeeps(stream.accepted, stream.bytes, s.tasks[t].items, Record(s, h).q, !stream.lossy);
    } else {
      assert InFlight(s, h) == Flatten([]) && Queued(s, h) == Flatten([]);
      PlacedKeeps(stream.accepted, stream.bytes, [], [], !stream.lossy);
    }
  }

  /** First in, first out: what is delivered, then what is in flight, then what
      is queued is a prefix of each accepted segment, in order; and all of every
      segment as long as no write has failed. */
  lemma FirstInFirstOut(events: seq<Event>, h: WriteHalf)
    requires Runs(EMPTY, events) && h in After(EMPTY, events).streams
    ensures var s := After(EMPTY, events);
            var sent := s.streams[h].bytes + InFlight(s, h) + Queued(s, h);
            (exists keep :: Fits(s.streams[h].accepted, keep) && sent == Trimmed(s.streams[h].accepted, keep)) &&
            (!s.streams[h].lossy ==> sent == Flatten(s.streams[h].accepted))
  {
    RunInv(events);
    var s := After(EMPTY, events);
    hide After, Runs, Inv, InFlight, Queued;
    InOrder(s, h);
  }

  /** No lost wake-up, and no write after the half is back in its record. */
  lemma NoLostWakeup(events: seq<Event>, id: Id)
    requires Runs(EMPTY, events) && id in After(EMPTY, events).table
    ensures var s := After(EMPTY, events);
            var rec := s.table[id];
            id in s.current &&
            (rec.write.None? <==> exists t :: TaskOf(s, s.current[id], t) && IsLoop(s, t)) &&
            (rec.write.Some? ==> rec == StreamRec(Some(s.current[id]), [], false))
  {
    RunInv(events);
    var s := After(EMPTY, events);
    assert StreamOk(s, s.current[id]);
    hide After, Runs, Accounted;
    if t :| Busy(s, s.current[id], t) {
      assert TaskOf(s, s.current[id], t) && IsLoop(s, t);
    }
  }

  /** The write loop's branch for a vanished record is never taken. */
  lemma RecordNeverGone(events: seq<Event>, task: nat)
    requires Runs(EMPTY, events) && Enabled(After(EMPTY, events), TakeTurn(task))
    ensures var s := After(EMPTY, events);
            TurnTaken(s.table, s.tasks[task].id, s.tasks[task].half).1 != Gone
  {
    RunInv(events);
    TaskStage(After(EMPTY, events), task);
  }

  /** A half is shut down at most once, and only when everything accepted has
      been delivered, unless a write failed. */
  lemma DrainedBeforeShutdown(events: seq<Event>, h: WriteHalf)
    requires Runs(EMPTY, events) && h in After(EMPTY, events).streams
    ensures var stream := After(EMPTY, events).streams[h];
            stream.shutdowns <= 1 &&
            (stream.shutdowns == 1 && !stream.lossy ==> stream.bytes == Flatten(stream.accepted))
  {
    RunInv(events);
    var s := After(EMPTY, events);
    assert StreamOk(s, h);
    hide After, Runs, Inv;
    if Closed(s, h) {
      ClosedDelivered(s, h);
    }
  }

  lemma ClosedDelivered(s: System, h: WriteHalf)
    requires Closed(s, h)
    ensures !s.streams[h].lossy ==> s.streams[h].bytes == Flatten(s.streams[h].accepted)
  {
    var stream := s.streams[h];
    PlacedKeeps(stream.accepted, stream.bytes, [], [], !stream.lossy);
    assert stream.bytes + Flatten([]) + Flatten([]) == stream.bytes;
  }

  // ---------- when an id may be reused ----------

  ghost predicate OwnedForEver(s: System) {
    forall events :: Runs(s, events) ==> AllOwned(After(s, events))
  }

  /** An id may be inserted, again or for the first time, exactly when no record
      stands under it. Otherwise some half ends up with no owner and is never
      shut down: the one in the record, or, if a loop has that one, the new one,
      over which the loop parks. */
  lemma ReuseExactly(s: System, id: Id, half: WriteHalf)
    requires Inv(s) && Enabled(s, Insert(id, half))
    ensures OwnedForEver(Next(s, Insert(id, half))) <==> id !in s.table
  {
    var s' := Next(s, Insert(id, half));
    if id !in s.table {
      InvKept(s, Insert(id, half));
      hide Inv, Next;
      forall events | Runs(s', events) ensures AllOwned(After(s', events)) {
        RunKeeps(s', events);
        forall h | h in After(s', events).streams ensures OneOwner(After(s', events), h) {
          StageOwned(After(s', events), h);
        }
      }
    } else {
      assert StreamOk(s, s.current[id]);
      if Idle(s, s.current[id]) {
        IdleOverwritten(s, id, half);
      } else {
        var t :| Busy(s, s.current[id], t);
        BusyOverwritten(s, id, half, t);
      }
    }
  }

  lemma IdleOverwritten(s: System, id: Id, half: WriteHalf)
    requires Inv(s) && Enabled(s, Insert(id, half)) && id in s.table && Idle(s, s.current[id])
    ensures !OwnedForEver(Next(s, Insert(id, half)))
  {
    var h, s' := s.current[id], Next(s, Insert(id, half));
    hide Accounted;
    assert Records(s', h) == {} && Tasks(s', h) == {} by {
      forall i | i in s'.table ensures s'.table[i].write != Some(h) {
        assert i != id ==> s'.table[i] == s.table[i] && s.current[i] != h;
      }
      forall t | t in s'.tasks ensures s'.tasks[t].half != h {
        assert !TaskOf(s, h, t);
      }
    }
    assert !OneOwner(s', h);
    assert Runs(s', []) && After(s', []) == s';
  }

  /** The loop, done with its batch, parks over the new record. */
  lemma BusyOverwritten(s: System, id: Id, half: WriteHalf, t: nat)
    requires Inv(s) && Enabled(s, Insert(id, half)) && id in s.table && Busy(s, s.current[id], t)
    ensures !OwnedForEver(Next(s, Insert(id, half)))
  {
    hide Accounted;
    var s1 := Next(s, Insert(id, half));
    assert IsLoop(s1, t);
    Unheld(s, id, half);
    if s1.tasks[t].items == [] {
      ParkedOver(s1, id, half, t);
      RunsOne(s1, TakeTurn(t));
    } else {
      var s2 := Next(s1, FailItem(t));
      assert NobodyElse(s2, id, half) && s2.streams[half].shutdowns == 0;
      ParkedOver(s2, id, half, t);
      RunsOne(s2, TakeTurn(t));
      hide Next, Careful, OneOwner;
      assert [FailItem(t), TakeTurn(t)][1..] == [TakeTurn(t)];
      assert Careful(s1, FailItem(t));
      assert Runs(s1, [FailItem(t), TakeTurn(t)]);
      assert After(s1, [FailItem(t), TakeTurn(t)]) == After(s2, [TakeTurn(t)]);
    }
  }

  lemma RunsOne(s: System, e: Event)
    requires Careful(s, e)
    ensures Runs(s, [e]) && After(s, [e]) == Next(s, e)
  {
    assert [e][1..] == [];
    assert Runs(Next(s, e), []);
  }

  /** Nobody but the record under `id` holds the half. */
  ghost predicate NobodyElse(s: System, id: Id, half: WriteHalf) {
    half in s.streams && id in s.table && s.table[id].q == [] && !s.table[id].ended &&
    (forall i :: i in s.table && i != id ==> s.table[i].write != Some(half)) &&
    NoTask(s, half)
  }

  lemma Unheld(s: System, id: Id, half: WriteHalf)
    requires Closure(s) && Enabled(s, Insert(id, half))
    ensures var s' := Next(s, Insert(id, half)); NobodyElse(s', id, half) && s'.streams[half].shutdowns == 0
  {
    var s' := Next(s, Insert(id, half));
    forall i | i in s'.table && i != id ensures s'.table[i].write != Some(half) {
      assert s'.table[i] == s.table[i];
    }
  }

  lemma ParkedOver(s: System, id: Id, half: WriteHalf, t: nat)
    requires NobodyElse(s, id, half) && s.streams[half].shutdowns == 0
    requires Enabled(s, TakeTurn(t)) && s.tasks[t].id == id && s.tasks[t].half != half
    ensures !AllOwned(Next(s, TakeTurn(t)))
  {
    var s' := Next(s, TakeTurn(t));
    assert forall u :: TaskOf(s', half, u) ==> TaskOf(s, half, u);
    assert Records(s', half) == {} && Tasks(s', half) == {} by {
      forall u | u in s'.tasks ensures s'.tasks[u].half != half {
        assert !TaskOf(s, half, u);
      }
    }
    assert !OneOwner(s', half);
  }

  /** The shortest case: inserting twice under one id. */
  lemma InsertedTwice(id: Id, first: WriteHalf, second: WriteHalf)
    requires first != second
    ensures Runs(EMPTY, [Insert(id, first)])
    ensures var s := After(EMPTY, [Insert(id, first)]);
            Enabled(s, Insert(id, second)) && !OneOwner(Next(s, Insert(id, second)), first)
  {
    RunsOne(EMPTY, Insert(id, first));
    var s' := Next(Next(EMPTY, Insert(id, first)), Insert(id, second));
    assert Records(s', first) == {} && Tasks(s', first) == {};
  }
}
