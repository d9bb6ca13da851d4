/** Every request is answered once its handler, and the pump, have had their
    turns: the steps left for a call are counted down to its reply. */
module RpcReplies {
  import opened Sequences
  import opened RpcPump
  import opened RpcOrder

  /** The steps a call still needs. */
  function Work(v: Server, call: nat): nat {
    if call in v.tasks then (if v.tasks[call].removing.Some? then 2 else 1)
    else match v.pump
      case Answering(m) => if m.Reply? && m.call == call then 1 else 0
      case Announcing(c, _, streams) => if c == call then |streams| + 3 else 0
      case Opening(c, streams) => if c == call then |streams| + 2 else 0
      case _ => 0
  }

  /** A step made for the call, by its handler or by the pump. */
  predicate StepsFor(v: Server, e: Event, call: nat) {
    match e
    case RunTask(c, _) => c == call
    case Answer => v.pump.Answering? && v.pump.reply.Reply? && v.pump.reply.call == call
    case Announce => v.pump.Announcing? && v.pump.call == call
    case Open => v.pump.Opening? && v.pump.call == call
    case _ => false
  }

  lemma StepFor(v: Server, e: Event, call: nat)
    requires Inv(v) && Enabled(v, e) && call < |v.calls| && StepsFor(v, e, call)
    ensures Work(Next(v, e), call) < Work(v, call)
  {
    hide RepliesTo, LawfulAfter, AnnouncedIn, StartedIn, Lawful, StreamsOk, Delivery, AllAnswered;
  }

  /** The pump, once idle, turns to the new call and to no other. */
  lemma DispatchTurns(v: Server, ok: bool)
    requires v.inbox != [] && v.pump.Listening?
    ensures var v' := Dispatched(v, ok);
            (forall c :: c != |v.calls| ==> (c in v'.tasks <==> c in v.tasks)) &&
            (forall c :: c in v.tasks && c != |v.calls| ==> v'.tasks[c] == v.tasks[c]) &&
            match v'.pump
            case Listening => true
            case Answering(m) => m.Reply? && m.call == |v.calls|
            case Announcing(c, _, _) => c == |v.calls|
            case _ => false
  {
    DispatchedIs(v, ok);
    hide Dispatched, VerdictOf;
  }

  lemma DispatchForOthers(v: Server, e: Event, call: nat)
    requires Inv(v) && Enabled(v, e) && call < |v.calls| && e.Dispatch?
    ensures Work(Next(v, e), call) == Work(v, call)
  {
    hide Inv, Dispatched;
    DispatchTurns(v, e.ok);
  }

  lemma TaskForOthers(v: Server, e: Event, call: nat)
    requires Enabled(v, e) && e.RunTask? && e.call != call
    ensures Work(Next(v, e), call) == Work(v, call)
  {
  }

  lemma PumpForOthers(v: Server, e: Event, call: nat)
    requires Inv(v) && Enabled(v, e) && call < |v.calls| && !StepsFor(v, e, call)
    requires !e.Dispatch? && !e.RunTask?
    ensures Work(Next(v, e), call) == Work(v, call)
  {
    hide RepliesTo, AnnouncedIn, StartedIn, Lawful, StreamsOk, Delivery, AllAnswered, VerdictOf;
  }

  lemma StepForOthers(v: Server, e: Event, call: nat)
    requires Inv(v) && Enabled(v, e) && call < |v.calls| && !StepsFor(v, e, call)
    ensures Work(Next(v, e), call) == Work(v, call)
  {
    if e.Dispatch? {
      DispatchForOthers(v, e, call);
    } else if e.RunTask? {
      TaskForOthers(v, e, call);
    } else {
      PumpForOthers(v, e, call);
    }
  }

  lemma CallsKept(v: Server, e: Event, call: nat)
    requires Enabled(v, e) && call < |v.calls|
    ensures call < |Next(v, e).calls| && Next(v, e).calls[call] == v.calls[call]
  {
    hide VerdictOf, PeerMaySend;
    if e.Dispatch? {
      DispatchAddsCall(v, e.ok);
    }
  }

  lemma DispatchAddsCall(v: Server, ok: bool)
    requires v.inbox != []
    ensures Dispatched(v, ok).calls == v.calls + [v.inbox[0]]
  {
    DispatchedIs(v, ok);
    hide Dispatched, VerdictOf;
  }

  /** A call that needs steps has one it can make, unless the pump has stopped. */
  lemma CanStepFor(v: Server, call: nat)
    requires Inv(v) && call < |v.calls| && Work(v, call) > 0
    ensures exists e :: Enabled(v, e) && StepsFor(v, e, call)
  {
    var e := if call in v.tasks then RunTask(call, true)
             else match v.pump case Answering(_) => Answer case Announcing(_, _, _) => Announce case _ => Open;
    assert Enabled(v, e) && StepsFor(v, e, call);
  }

  /** How often the call is served during a run. */
  ghost function Served(v: Server, events: seq<Event>, call: nat): nat
    requires Runs(v, events)
    decreases |events|
  {
    if events == [] then 0
    else (if StepsFor(v, events[0], call) then 1 else 0) + Served(Next(v, events[0]), events[1..], call)
  }

  lemma {:induction false} ServedWorks(v: Server, events: seq<Event>, call: nat)
    requires Inv(v) && Runs(v, events) && call < |v.calls|
    ensures call < |After(v, events).calls| && After(v, events).calls[call] == v.calls[call]
    ensures Work(After(v, events), call) + Served(v, events, call) <= Work(v, call)
    decreases |events|
  {
    hide Inv, Enabled, Next, Work, StepsFor;
    if events != [] {
      var e := events[0];
      InvKept(v, e);
      CallsKept(v, e, call);
      if StepsFor(v, e, call) {
        StepFor(v, e, call);
      } else {
        StepForOthers(v, e, call);
      }
      ServedWorks(Next(v, e), events[1..], call);
    }
  }

  /** A call served as often as it needs, in any interleaving with everything
      else, has its reply if it has an id, and none otherwise. */
  lemma AnsweredWhenServed(before: seq<Event>, events: seq<Event>, call: nat)
    requires Runs(IDLE, before) && Runs(After(IDLE, before), events)
    requires call < |After(IDLE, before).calls|
    requires Served(After(IDLE, before), events, call) >= Work(After(IDLE, before), call)
    requires !After(After(IDLE, before), events).pump.Stopped?
    ensures Answered(After(IDLE, before).calls[call], RepliesTo(After(After(IDLE, before), events).sent, call))
  {
    var v := After(IDLE, before);
    var v' := After(v, events);
    RunInv(before);
    RunKeeps(v, events);
    ServedWorks(v, events, call);
    hide After, Runs;
    assert Work(v', call) == 0;
    assert !Pending(v'.pump, v'.tasks, call);
  }

  // ---------- infinite runs ----------

  ghost predicate StepAt(states: nat -> Server, events: nat -> Event, n: nat) {
    Enabled(states(n), events(n)) && states(n + 1) == Next(states(n), events(n))
  }

  ghost predicate IsRun(states: nat -> Server, events: nat -> Event) {
    states(0) == IDLE && forall n: nat :: StepAt(states, events, n)
  }

  /** After `n`, a step is made for the call unless it needs none by then. */
  ghost predicate ServedAfter(states: nat -> Server, events: nat -> Event, call: nat, n: nat) {
    exists m: nat :: n <= m && (StepsFor(states(m), events(m), call) || Work(states(m), call) == 0)
  }

  ghost predicate Fair(states: nat -> Server, events: nat -> Event, call: nat, n: nat) {
    forall m: nat :: n <= m ==> ServedAfter(states, events, call, m)
  }

  ghost predicate Running(states: nat -> Server, n: nat) {
    forall m: nat :: n <= m ==> !states(m).pump.Stopped?
  }

  /** The call has all the replies it will ever get. */
  ghost predicate AnsweredFrom(states: nat -> Server, r: Request, call: nat, n: nat) {
    forall m: nat :: n <= m ==> Answered(r, RepliesTo(states(m).sent, call))
  }

  lemma {:induction false} InvAt(states: nat -> Server, events: nat -> Event, n: nat)
    requires IsRun(states, events)
    ensures Inv(states(n))
  {
    hide Inv, Next, Enabled;
    if n > 0 {
      InvAt(states, events, n - 1);
      assert StepAt(states, events, n - 1);
      InvKept(states(n - 1), events(n - 1));
    } else {
      RunInv([]);
    }
  }

  /** From `n` to `k` the call stays the same and its work does not grow. */
  lemma {:induction false} WorkUntil(states: nat -> Server, events: nat -> Event, call: nat, n: nat, k: nat)
    requires IsRun(states, events) && n <= k && call < |states(n).calls|
    ensures call < |states(k).calls| && states(k).calls[call] == states(n).calls[call]
    ensures Work(states(k), call) <= Work(states(n), call)
    ensures n < k && StepsFor(states(k - 1), events(k - 1), call) ==> Work(states(k), call) < Work(states(n), call)
    decreases k
  {
    hide Inv, Next, Enabled, Work, StepsFor;
    if n < k {
      WorkUntil(states, events, call, n, k - 1);
      var v, e := states(k - 1), events(k - 1);
      InvAt(states, events, k - 1);
      assert StepAt(states, events, k - 1);
      CallsKept(v, e, call);
      if StepsFor(v, e, call) {
        StepFor(v, e, call);
      } else {
        StepForOthers(v, e, call);
      }
    }
  }

  /** A call that needs no more steps has its reply, for good. */
  lemma WorkedOff(states: nat -> Server, events: nat -> Event, call: nat, n: nat)
    requires IsRun(states, events) && Running(states, n)
    requires call < |states(n).calls| && Work(states(n), call) == 0
    ensures AnsweredFrom(states, states(n).calls[call], call, n)
  {
    forall m: nat | n <= m ensures Answered(states(n).calls[call], RepliesTo(states(m).sent, call)) {
      WorkUntil(states, events, call, n, m);
      InvAt(states, events, m);
      assert !states(m).pump.Stopped?;
      DoneIsAnswered(states(m), call);
    }
  }

  lemma DoneIsAnswered(v: Server, call: nat)
    requires Inv(v) && call < |v.calls| && Work(v, call) == 0 && !v.pump.Stopped?
    ensures Answered(v.calls[call], RepliesTo(v.sent, call))
  {
    assert !Pending(v.pump, v.tasks, call);
    hide RepliesTo, Answered, Pending, PumpOk, TasksOk, StreamsOk, Lawful, Delivery;
  }

  /** In every infinite run in which the pump is not stopped and the call is
      served fairly, its one reply is sent if it has an id, and none otherwise;
      and nothing is added later. */
  lemma {:induction false} EventuallyAnswered(states: nat -> Server, events: nat -> Event, call: nat, n: nat)
    requires IsRun(states, events) && Running(states, n) && Fair(states, events, call, n)
    requires call < |states(n).calls|
    ensures exists k: nat :: n <= k && AnsweredFrom(states, states(n).calls[call], call, k)
    decreases Work(states(n), call)
  {
    hide IsRun, Work, StepsFor, AnsweredFrom;
    if Work(states(n), call) == 0 {
      WorkedOff(states, events, call, n);
    } else {
      assert ServedAfter(states, events, call, n);
      var m: nat :| n <= m && (StepsFor(states(m), events(m), call) || Work(states(m), call) == 0);
      var next := if Work(states(m), call) == 0 then m else m + 1;
      WorkUntil(states, events, call, n, next);
      assert Work(states(next), call) < Work(states(n), call);
      EventuallyAnswered(states, events, call, next);
      var k: nat :| next <= k && AnsweredFrom(states, states(next).calls[call], call, k);
    }
  }
}
