/** Liveness: once a stream is removed and no more writes come, every fair
    schedule delivers what is pending and shuts the write half down. */
module StreamDrain {
  import opened Sequences
  import opened Delivery
  import opened Streams
  import opened StreamSystem

  /** Work left in a list of segments: its bytes, and one step per segment. */
  function Load(items: seq<Segment>): nat {
    if items == [] then 0 else |items[0]| + 1 + Load(items[1..])
  }

  ghost predicate BusyEnded(s: System, h: WriteHalf, t: nat) {
    Busy(s, h, t) && Record(s, h).ended
  }

  /** `remove` was called: the loop will finish the stream, or is finishing it. */
  ghost predicate Winding(s: System, h: WriteHalf) {
    (exists t :: BusyEnded(s, h, t)) || (exists t :: Ending(s, h, t)) || Closed(s, h)
  }

  function LoopWork(s: System, h: WriteHalf, t: nat): nat
    requires Open(s, h) && IsLoop(s, t)
  {
    Load(s.tasks[t].items) + Load(Record(s, h).q) + |Record(s, h).q| + 2
  }

  ghost function Measure(s: System, h: WriteHalf): nat {
    if t :| BusyEnded(s, h, t) then LoopWork(s, h, t)
    else if exists t :: Ending(s, h, t) then 1
    else 0
  }

  predicate IsTaskEvent(e: Event) {
    !e.Insert? && !e.Write? && !e.Remove?
  }

  /** A step of the task that owns the half. */
  predicate StepsStream(s: System, e: Event, h: WriteHalf) {
    Enabled(s, e) && IsTaskEvent(e) && s.tasks[e.task].half == h
  }

  /** A write that the stream accepts. */
  predicate WritesTo(s: System, e: Event, h: WriteHalf) {
    e.Write? && Open(s, h) && s.streams[h].id == e.id
  }

  lemma BusyMeasure(s: System, h: WriteHalf, t: nat)
    requires BusyEnded(s, h, t)
    ensures Measure(s, h) == LoopWork(s, h, t)
  {
    hide Accounted;
    forall u | BusyEnded(s, h, u) ensures u == t {
      assert TaskOf(s, h, u);
    }
  }

  lemma EndingMeasure(s: System, h: WriteHalf)
    requires Winding(s, h) && !Open(s, h)
    ensures Measure(s, h) == if exists t :: Ending(s, h, t) then 1 else 0
  {
  }

  /** A pass through the lock moves the queue into the batch, or ends the loop. */
  lemma TurnStep(s: System, e: Event, h: WriteHalf)
    requires Inv(s) && e.TakeTurn? && StepsStream(s, e, h) && BusyEnded(s, h, e.task)
    ensures Winding(Next(s, e), h) && Measure(Next(s, e), h) < Measure(s, h)
  {
    var s' := Next(s, e);
    BusyMeasure(s, h, e.task);
    TakeTurnKeeps(s, e);
    hide Measure, Inv, Accounted, Load;
    if Record(s, h).q != [] {
      assert BusyEnded(s', h, e.task);
      BusyMeasure(s', h, e.task);
      LoadNone();
    } else {
      EndingMeasure(s', h);
    }
  }

  lemma LoadNone()
    ensures Load([]) == 0
  {
  }

  /** Writing, finishing or failing a segment shortens the batch. */
  lemma BatchShrinks(items: seq<Segment>, n: nat)
    requires items != []
    ensures 0 < n <= |items[0]| ==> Load([items[0][n..]] + items[1..]) < Load(items)
    ensures Load(items[1..]) < Load(items) && Load([]) < Load(items)
  {
    if n <= |items[0]| {
      assert ([items[0][n..]] + items[1..])[1..] == items[1..];
    }
  }

  lemma BatchStep(s: System, e: Event, h: WriteHalf)
    requires Inv(s) && (e.Progress? || e.FinishItem? || e.FailItem?)
    requires StepsStream(s, e, h) && BusyEnded(s, h, e.task)
    ensures Winding(Next(s, e), h) && Measure(Next(s, e), h) < Measure(s, h)
  {
    match e {
      case Progress(_, _) => ProgressKeeps(s, e);
      case FinishItem(_) => FinishItemKeeps(s, e);
      case FailItem(_) => FailItemKeeps(s, e);
    }
    BusyMeasure(s, h, e.task);
    BatchShrinks(s.tasks[e.task].items, if e.Progress? then e.n else 0);
    hide Measure, Inv, Accounted, Load, OnlyTask;
    var s' := Next(s, e);
    assert BusyEnded(s', h, e.task);
    BusyMeasure(s', h, e.task);
  }

  /** A step of the owner leaves strictly less to do. */
  lemma OwnerStep(s: System, e: Event, h: WriteHalf)
    requires Inv(s) && Winding(s, h) && StepsStream(s, e, h)
    ensures Winding(Next(s, e), h) && Measure(Next(s, e), h) < Measure(s, h)
  {
    TaskStage(s, e.task);
    assert TaskOf(s, h, e.task);
    hide Inv, Accounted, Measure;
    if e.Shutdown? {
      ShutStep(s, e, h);
    } else {
      assert BusyEnded(s, h, e.task);
      if e.TakeTurn? {
        TurnStep(s, e, h);
      } else {
        BatchStep(s, e, h);
      }
    }
  }

  lemma ShutStep(s: System, e: Event, h: WriteHalf)
    requires Inv(s) && e.Shutdown? && StepsStream(s, e, h) && Ending(s, h, e.task) && Winding(s, h)
    ensures Winding(Next(s, e), h) && Measure(Next(s, e), h) < Measure(s, h)
  {
    ShutdownKeeps(s, e);
    EndingMeasure(s, h);
    hide Inv, Accounted;
    EndingMeasure(Next(s, e), h);
  }

  /** A stream is untouched by the events of other streams. */
  lemma UntouchedMeasure(s: System, s': System, h: WriteHalf)
    requires Winding(s, h) && Untouched(s, s', h)
    ensures Winding(s', h) && Measure(s', h) == Measure(s, h)
  {
    hide Accounted, Measure, Load;
    if t :| BusyEnded(s, h, t) {
      assert BusyEnded(s', h, t);
      BusyMeasure(s, h, t);
      BusyMeasure(s', h, t);
    } else {
      EndingMeasure(s, h);
      if t :| Ending(s, h, t) {
        assert Ending(s', h, t);
      } else {
        assert Closed(s', h);
        assert forall t :: !Ending(s', h, t);
      }
      EndingMeasure(s', h);
    }
  }

  /** Any event other than the owner's steps and further writes leaves the
      remaining work of a removed stream as it is. */
  lemma OtherStep(s: System, e: Event, h: WriteHalf)
    requires Inv(s) && Winding(s, h) && Careful(s, e) && !StepsStream(s, e, h) && !WritesTo(s, e, h)
    ensures Winding(Next(s, e), h) && Measure(Next(s, e), h) == Measure(s, h)
  {
    assert Untouched(s, Next(s, e), h) by {
      if Subject(s, e) == Some(h) {
        RemoveAgain(s, e, h);
      } else {
        SubjectIsOwned(s, e);
        if FromCaller(e) { CallersLeaveOthers(s, e, h); } else { TasksLeaveOthers(s, e, h); }
      }
    }
    hide Winding, Measure, Inv, Enabled, Next, Untouched;
    UntouchedMeasure(s, Next(s, e), h);
  }

  /** Removing a stream that is already winding down changes nothing. */
  lemma RemoveAgain(s: System, e: Event, h: WriteHalf)
    requires Closure(s) && Enabled(s, e) && Winding(s, h) && Subject(s, e) == Some(h)
    requires !StepsStream(s, e, h) && !WritesTo(s, e, h)
    ensures Untouched(s, Next(s, e), h)
  {
    hide Accounted;
    assert e.Remove?;
    assert s.table[e.id].ended && s.table[e.id].write == None;
    assert Next(s, e).table == s.table;
  }

  lemma AcceptedKept(s: System, e: Event, h: WriteHalf)
    requires Closure(s) && Enabled(s, e) && !WritesTo(s, e, h) && h in s.streams
    ensures h in Next(s, e).streams && Next(s, e).streams[h].accepted == s.streams[h].accepted
  {
  }

  /** What task `t` does next when nothing fails. */
  function NextMove(s: System, t: nat): Event
    requires t in s.tasks
  {
    match s.tasks[t]
    case Closing(_, _) => Shutdown(t)
    case Loop(_, _, items) =>
      if items == [] then TakeTurn(t) else if items[0] == [] then FinishItem(t) else Progress(t, 1)
  }

  /** The owner of a removed stream always has an enabled step. */
  lemma OwnerCanStep(s: System, h: WriteHalf)
    requires Winding(s, h) && !Closed(s, h)
    ensures exists e :: StepsStream(s, e, h)
  {
    hide Accounted, Closed;
    if t :| Ending(s, h, t) {
      assert StepsStream(s, NextMove(s, t), h);
    } else {
      var t :| BusyEnded(s, h, t);
      assert StepsStream(s, NextMove(s, t), h);
    }
  }

  // ---------- infinite runs ----------

  ghost predicate StepAt(states: nat -> System, events: nat -> Event, n: nat) {
    Careful(states(n), events(n)) && states(n + 1) == Next(states(n), events(n))
  }

  ghost predicate IsRun(states: nat -> System, events: nat -> Event) {
    states(0) == EMPTY && forall n: nat :: StepAt(states, events, n)
  }

  /** The owner gets its turn after `n`, unless the stream is closed by then. */
  ghost predicate Served(states: nat -> System, events: nat -> Event, h: WriteHalf, n: nat) {
    exists m: nat :: n <= m && (StepsStream(states(m), events(m), h) || Closed(states(m), h))
  }

  ghost predicate Fair(states: nat -> System, events: nat -> Event, h: WriteHalf, n: nat) {
    forall m: nat :: n <= m ==> Served(states, events, h, m)
  }

  ghost predicate NoMoreWrites(states: nat -> System, events: nat -> Event, h: WriteHalf, n: nat) {
    forall m: nat :: n <= m ==> !WritesTo(states(m), events(m), h)
  }

  ghost predicate Quiet(states: nat -> System, events: nat -> Event, h: WriteHalf, n: nat) {
    IsRun(states, events) && NoMoreWrites(states, events, h, n) && h in states(n).streams
  }

  lemma {:induction false} InvAt(states: nat -> System, events: nat -> Event, n: nat)
    requires IsRun(states, events)
    ensures Inv(states(n))
  {
    if n > 0 {
      InvAt(states, events, n - 1);
      assert StepAt(states, events, n - 1);
      InvKept(states(n - 1), events(n - 1));
    }
  }

  /** One step of a quiet run does not add to the remaining work. */
  lemma QuietStep(states: nat -> System, events: nat -> Event, h: WriteHalf, n: nat, k: nat)
    requires Quiet(states, events, h, n) && n <= k && h in states(k).streams && Winding(states(k), h)
    ensures h in states(k + 1).streams && states(k + 1).streams[h].accepted == states(k).streams[h].accepted
    ensures Winding(states(k + 1), h)
    ensures if StepsStream(states(k), events(k), h) then Measure(states(k + 1), h) < Measure(states(k), h)
            else Measure(states(k + 1), h) == Measure(states(k), h)
  {
    var s, e := states(k), events(k);
    InvAt(states, events, k);
    assert StepAt(states, events, k);
    assert Closure(s);
    hide Measure, Inv, StepsStream, Next, Winding, Closure;
    AcceptedKept(s, e, h);
    if StepsStream(s, e, h) {
      OwnerStep(s, e, h);
    } else {
      OtherStep(s, e, h);
    }
  }

  lemma {:induction false} WindingUntil(states: nat -> System, events: nat -> Event, h: WriteHalf, n: nat, k: nat)
    requires Quiet(states, events, h, n) && n <= k && Winding(states(n), h)
    ensures h in states(k).streams && states(k).streams[h].accepted == states(n).streams[h].accepted
    ensures Winding(states(k), h) && Measure(states(k), h) <= Measure(states(n), h)
    decreases k
  {
    hide Measure, Winding, IsRun, NoMoreWrites, StepsStream;
    if n < k {
      WindingUntil(states, events, h, n, k - 1);
      QuietStep(states, events, h, n, k - 1);
    }
  }

  /** Some time after `n` the stream is closed, or its owner has made a step. */
  lemma OwnerAdvances(states: nat -> System, events: nat -> Event, h: WriteHalf, n: nat) returns (k: nat)
    requires Quiet(states, events, h, n) && Fair(states, events, h, n) && Winding(states(n), h)
    ensures n <= k && Winding(states(k), h)
    ensures h in states(k).streams && states(k).streams[h].accepted == states(n).streams[h].accepted
    ensures Closed(states(k), h) || Measure(states(k), h) < Measure(states(n), h)
  {
    assert Served(states, events, h, n);
    hide Winding, Closed, Measure, StepsStream, Quiet;
    k :| n <= k && (StepsStream(states(k), events(k), h) || Closed(states(k), h));
    WindingUntil(states, events, h, n, k);
    if !Closed(states(k), h) {
      QuietStep(states, events, h, n, k);
      k := k + 1;
    }
  }

  /** Shut down, with the segments delivered in full first unless a write failed. */
  ghost predicate Drained(s: System, h: WriteHalf, accepted: seq<Segment>) {
    h in s.streams && s.streams[h].shutdowns == 1 && NoTask(s, h) && !Open(s, h) &&
    Prefixes(s.streams[h].bytes, accepted) &&
    (!s.streams[h].lossy ==> s.streams[h].bytes == Flatten(accepted))
  }

  lemma ClosedDrained(s: System, h: WriteHalf)
    requires Closed(s, h)
    ensures Drained(s, h, s.streams[h].accepted)
  {
    var stream := s.streams[h];
    PlacedKeeps(stream.accepted, stream.bytes, [], [], !stream.lossy);
    assert stream.bytes + Flatten([]) + Flatten([]) == stream.bytes;
  }

  /** After `remove`, with no more writes and a fair schedule, the stream is
      closed; everything accepted came through first unless a write failed. */
  lemma {:induction false} Drains(states: nat -> System, events: nat -> Event, h: WriteHalf, n: nat)
    requires Quiet(states, events, h, n) && Fair(states, events, h, n) && Winding(states(n), h)
    ensures exists k: nat :: n <= k && Drained(states(k), h, states(n).streams[h].accepted)
    decreases Measure(states(n), h)
  {
    var m := OwnerAdvances(states, events, h, n);
    hide Winding, IsRun, Drained;
    if Closed(states(m), h) {
      ClosedDrained(states(m), h);
    } else {
      assert NoMoreWrites(states, events, h, m);
      Drains(states, events, h, m);
      var k: nat :| m <= k && Drained(states(k), h, states(m).streams[h].accepted);
    }
  }

  /** Calling `remove` on the id of an open stream is what makes it wind down. */
  lemma RemoveWinds(s: System, e: Event, h: WriteHalf)
    requires Inv(s) && e.Remove? && Enabled(s, e) && Open(s, h) && s.streams[h].id == e.id
    ensures Winding(Next(s, e), h)
  {
    assert StreamOk(s, h);
    hide Inv, Accounted, Next;
    if Idle(s, h) {
      RemoveIdle(s, e, h);
    } else {
      var t :| Busy(s, h, t);
      RemoveBusy(s, e, h, t);
      assert BusyEnded(Next(s, e), h, t);
    }
  }

  /** From the call of `remove` on, with no more writes and a fair schedule, the
      stream gets closed with everything accepted so far delivered first. */
  lemma RemovedStreamDrains(states: nat -> System, events: nat -> Event, h: WriteHalf, n: nat)
    requires Quiet(states, events, h, n) && Fair(states, events, h, n)
    requires events(n).Remove? && Open(states(n), h) && states(n).streams[h].id == events(n).id
    ensures exists k: nat :: n < k && Drained(states(k), h, states(n).streams[h].accepted)
  {
    InvAt(states, events, n);
    assert StepAt(states, events, n);
    RemoveWinds(states(n), events(n), h);
    AcceptedKept(states(n), events(n), h);
    assert NoMoreWrites(states, events, h, n + 1);
    hide Winding, Inv, IsRun, Drained, StepAt, Next;
    Drains(states, events, h, n + 1);
    var k: nat :| n + 1 <= k && Drained(states(k), h, states(n + 1).streams[h].accepted);
  }
}
