/** What the pump's messages say: which answer a request gets, whom a
    `streams_started` is for, and that an ended stream is removed. */
module RpcAnswers {
  import opened Sequences
  import opened RpcPump
  import opened RpcOrder

  /** A reply to a dispatched call, under its id, with the answer its handler's
      result calls for. */
  predicate RightReply(calls: seq<Request>, results: map<nat, bool>, m: Msg) {
    m.Reply? && m.call < |calls| && m.call in results && calls[m.call].id == Some(m.id) &&
    RightVerdict(calls[m.call], results[m.call], m.verdict)
  }

  /** `streams_started` names the request of its call, or 0 if that has no id. */
  predicate RightStart(calls: seq<Request>, call: nat, forRequest: Id) {
    call < |calls| && forRequest == if calls[call].id.Some? then calls[call].id.value else 0
  }

  predicate RightMessage(calls: seq<Request>, results: map<nat, bool>, m: Msg) {
    (m.Reply? ==> RightReply(calls, results, m)) && (m.Started? ==> RightStart(calls, m.call, m.forRequest))
  }

  ghost predicate RightSent(calls: seq<Request>, results: map<nat, bool>, sent: seq<Msg>) {
    forall i :: 0 <= i < |sent| ==> RightMessage(calls, results, sent[i])
  }

  predicate RightPump(calls: seq<Request>, results: map<nat, bool>, pump: Pump) {
    match pump
    case Answering(m) => RightReply(calls, results, m)
    case Announcing(call, forRequest, _) => RightStart(calls, call, forRequest)
    case _ => true
  }

  predicate EndsStream(r: Request) {
    r.target.StreamEnded? && !r.badParams
  }

  /** A dispatched end of stream is being removed, or was. */
  predicate RemovalDue(calls: seq<Request>, tasks: map<nat, Task>, ending: set<StreamId>, call: nat) {
    call < |calls| && EndsStream(calls[call]) ==>
      (call in tasks && tasks[call].removing == Some(calls[call].target.stream)) ||
      calls[call].target.stream in ending
  }

  ghost predicate AllRemovals(calls: seq<Request>, tasks: map<nat, Task>, ending: set<StreamId>) {
    forall call :: RemovalDue(calls, tasks, ending, call)
  }

  ghost predicate Answers(v: Server) {
    RightSent(v.calls, v.results, v.sent) && RightPump(v.calls, v.results, v.pump) &&
    AllRemovals(v.calls, v.tasks, v.ending)
  }

  // ---------- kept by every event ----------

  lemma {:induction false} ReplyCounted(sent: seq<Msg>, i: nat)
    requires i < |sent| && sent[i].Reply?
    ensures RepliesTo(sent, sent[i].call) > 0
  {
    if i < |sent| - 1 {
      ReplyCounted(sent[..|sent| - 1], i);
    }
  }

  lemma MoreSent(calls: seq<Request>, results: map<nat, bool>, sent: seq<Msg>, m: Msg)
    requires RightSent(calls, results, sent) && RightMessage(calls, results, m)
    ensures RightSent(calls, results, sent + [m])
  {
  }

  lemma MoreKnown(calls: seq<Request>, calls': seq<Request>, results: map<nat, bool>, results': map<nat, bool>,
      sent: seq<Msg>)
    requires RightSent(calls, results, sent) && calls <= calls'
    requires forall call :: call in results && RepliesTo(sent, call) > 0 ==>
               call in results' && results'[call] == results[call]
    ensures RightSent(calls', results', sent)
  {
    forall i | 0 <= i < |sent| ensures RightMessage(calls', results', sent[i]) {
      assert RightMessage(calls, results, sent[i]);
      if sent[i].Reply? {
        ReplyCounted(sent, i);
      }
    }
  }

  lemma VerdictRight(r: Request, ok: bool)
    ensures RightVerdict(r, ok, VerdictOf(r, ok))
  {
  }

  /** What the task of a call does next, and what it leaves alone. */
  lemma TaskTurn(v: Server, call: nat, ok: bool)
    requires call in v.tasks && call < |v.calls|
    ensures var v', r := TaskRun(v, call, ok), v.calls[call];
            v'.calls == v.calls && v'.pump == v.pump && v.ending <= v'.ending &&
            (forall c :: c in v.tasks && c != call ==> c in v'.tasks && v'.tasks[c] == v.tasks[c]) &&
            if v.tasks[call].removing.Some?
            then v'.sent == v.sent && v'.results == v.results && v.tasks[call].removing.value in v'.ending
            else v'.results == v.results[call := ok] &&
                 (v'.sent == v.sent ||
                  (r.id.Some? && v'.sent == v.sent + [Reply(call, r.id.value, VerdictOf(r, ok))]))
  {
    hide VerdictOf;
  }

  lemma RunTaskAnswers(v: Server, call: nat, ok: bool)
    requires Inv(v) && Answers(v) && Enabled(v, RunTask(call, ok))
    ensures Answers(Next(v, RunTask(call, ok)))
  {
    var v', r := Next(v, RunTask(call, ok)), v.calls[call];
    assert v' == TaskRun(v, call, ok);
    assert RepliesTo(v.sent, call) == 0 && call < |v.calls|;
    assert v.pump.Answering? ==> v.pump.reply.call != call;
    hide Inv, Next, Enabled, TaskRun;
    TaskTurn(v, call, ok);
    MoreKnown(v.calls, v.calls, v.results, v.results[call := ok], v.sent);
    VerdictRight(r, ok);
    if r.id.Some? {
      MoreSent(v.calls, v.results[call := ok], v.sent, Reply(call, r.id.value, VerdictOf(r, ok)));
    }
    hide RightSent, VerdictOf, RepliesTo, RightVerdict;
    forall c ensures RemovalDue(v'.calls, v'.tasks, v'.ending, c) {
      assert RemovalDue(v.calls, v.tasks, v.ending, c);
    }
  }

  /** What a dispatch adds to calls, results, tasks and the pump. */
  lemma DispatchAdds(v: Server, ok: bool)
    requires v.inbox != [] && v.pump.Listening?
    ensures var v', r, call := Dispatched(v, ok), v.inbox[0], |v.calls|;
            v'.calls == v.calls + [r] && v'.sent == v.sent && v'.ending == v.ending &&
            v'.results in {v.results, v.results[call := ok]} &&
            (EndsStream(r) ==> v'.tasks == v.tasks[call := Task(Some(r.target.stream))]) &&
            (forall c :: c in v.tasks && c != call ==> c in v'.tasks && v'.tasks[c] == v.tasks[c])
  {
    DispatchedIs(v, ok);
    hide Dispatched, VerdictOf;
  }

  lemma DispatchPump(v: Server, ok: bool)
    requires v.inbox != [] && v.pump.Listening?
    ensures RightPump(v.calls + [v.inbox[0]], Dispatched(v, ok).results, Dispatched(v, ok).pump)
  {
    VerdictRight(v.inbox[0], ok);
    DispatchedIs(v, ok);
    hide Dispatched, VerdictOf, RightVerdict;
  }

  lemma DispatchAnswers(v: Server, ok: bool)
    requires Inv(v) && Answers(v) && Enabled(v, Event.Dispatch(ok))
    ensures Answers(Next(v, Event.Dispatch(ok)))
  {
    var v' := Next(v, Event.Dispatch(ok));
    assert v' == Dispatched(v, ok);
    DispatchAdds(v, ok);
    DispatchPump(v, ok);
    assert RepliesTo(v.sent, |v.calls|) == 0;
    hide Inv, Dispatched, Next, Enabled, VerdictOf, RepliesTo;
    MoreKnown(v.calls, v'.calls, v.results, v'.results, v.sent);
    forall c ensures RemovalDue(v'.calls, v'.tasks, v'.ending, c) {
      assert RemovalDue(v.calls, v.tasks, v.ending, c);
    }
  }

  /** Messages that promise nothing here, and steps that send nothing. */
  lemma OthersAnswer(v: Server, e: Event)
    requires Inv(v) && Answers(v) && Enabled(v, e) && !e.Dispatch? && !e.RunTask?
    ensures Answers(Next(v, e))
  {
    var v' := Next(v, e);
    OthersKeep(v, e);
    SendsRight(v, e);
    hide Inv, Next, Enabled, RightMessage, RightPump;
    if m :| v'.sent == v.sent + [m] && RightMessage(v.calls, v.results, m) {
      MoreSent(v.calls, v.results, v.sent, m);
    }
    forall c: nat ensures RemovalDue(v'.calls, v'.tasks, v'.ending, c) {
      assert RemovalDue(v.calls, v.tasks, v.ending, c);
    }
  }

  lemma OthersKeep(v: Server, e: Event)
    requires Inv(v) && Enabled(v, e) && !e.Dispatch? && !e.RunTask? && RightPump(v.calls, v.results, v.pump)
    ensures var v' := Next(v, e);
            v'.calls == v.calls && v'.results == v.results && v'.ending == v.ending &&
            (forall c :: c in v.tasks ==> c in v'.tasks && v'.tasks[c] == v.tasks[c]) &&
            RightPump(v'.calls, v'.results, v'.pump)
  {
    assert v.pump.Opening? ==> v.pump.call !in v.tasks;
    hide Inv, RightReply, RightStart, PeerMaySend;
  }

  lemma SendsRight(v: Server, e: Event)
    requires Answers(v) && Enabled(v, e) && !e.Dispatch? && !e.RunTask?
    ensures Next(v, e).sent == v.sent ||
            exists m :: Next(v, e).sent == v.sent + [m] && RightMessage(v.calls, v.results, m)
  {
    hide RightSent, AllRemovals, RightVerdict;
    if e.Answer? {
      assert Next(v, e).sent == v.sent + [v.pump.reply] && RightMessage(v.calls, v.results, v.pump.reply);
    } else if e.Announce? {
      var m := Started(v.pump.call, v.pump.forRequest, v.pump.streams);
      assert Next(v, e).sent == v.sent + [m] && RightMessage(v.calls, v.results, m);
    } else if e.ReaderSends? {
      var reader := v.readers[e.stream];
      var m := if reader.Sending? then Data(e.stream, reader.segment) else End(e.stream);
      assert RightMessage(v.calls, v.results, m);
    }
  }

  lemma AnswersKept(v: Server, e: Event)
    requires Inv(v) && Answers(v) && Enabled(v, e)
    ensures Answers(Next(v, e))
  {
    hide Inv, Answers, Next, Enabled;
    match e
    case Dispatch(ok) => DispatchAnswers(v, ok);
    case RunTask(call, ok) => RunTaskAnswers(v, call, ok);
    case _ => OthersAnswer(v, e);
  }

  lemma {:induction false} RunAnswers(v: Server, events: seq<Event>)
    requires Inv(v) && Answers(v) && Runs(v, events)
    ensures Answers(After(v, events)) && Inv(After(v, events))
    decreases |events|
  {
    hide Inv, Answers, Next, Enabled;
    if events != [] {
      InvKept(v, events[0]);
      AnswersKept(v, events[0]);
      RunAnswers(Next(v, events[0]), events[1..]);
    }
  }

  lemma AfterRun(events: seq<Event>)
    requires Runs(IDLE, events)
    ensures Answers(After(IDLE, events)) && Inv(After(IDLE, events))
  {
    RunInv([]);
    RunAnswers(IDLE, events);
  }

  // ---------- in every run ----------

  /** Every reply answers its call as it should: an unknown method gets code -1,
      undecodable parameters code 0, a stream message success, and any other call
      success exactly if its handler returned without error, else code -1. */
  lemma RightAnswers(events: seq<Event>, i: nat)
    requires Runs(IDLE, events) && i < |After(IDLE, events).sent| && After(IDLE, events).sent[i].Reply?
    ensures var v := After(IDLE, events);
            var m := v.sent[i];
            m.call < |v.calls| && m.call in v.results &&
            var r, ok := v.calls[m.call], v.results[m.call];
            r.id == Some(m.id) &&
            if r.target.Unknown? then m.verdict == Failure(-1)
            else if r.badParams then m.verdict == Failure(0)
            else if r.target.StreamData? || r.target.StreamEnded? then m.verdict == Success
            else (m.verdict == Success <==> ok) && (!ok ==> m.verdict == Failure(-1))
  {
    AfterRun(events);
    var v := After(IDLE, events);
    assert RightMessage(v.calls, v.results, v.sent[i]);
  }

  /** `streams_started` carries its call's id, or 0 if there is none. */
  lemma StartedFor(events: seq<Event>, i: nat)
    requires Runs(IDLE, events) && i < |After(IDLE, events).sent| && After(IDLE, events).sent[i].Started?
    ensures var v := After(IDLE, events);
            var m := v.sent[i];
            m.call < |v.calls| && m.forRequest == match v.calls[m.call].id case Some(id) => id case None => 0
  {
    AfterRun(events);
    var v := After(IDLE, events);
    assert RightMessage(v.calls, v.results, v.sent[i]);
  }

  /** A stream whose end was dispatched is being removed once the call is no
      longer pending, and so in particular once it is answered. */
  lemma EndedIsRemoved(events: seq<Event>, call: nat)
    requires Runs(IDLE, events) && call < |After(IDLE, events).calls|
    requires EndsStream(After(IDLE, events).calls[call])
    requires var v := After(IDLE, events); !Pending(v.pump, v.tasks, call) || RepliesTo(v.sent, call) > 0
    ensures After(IDLE, events).calls[call].target.stream in After(IDLE, events).ending
  {
    AfterRun(events);
    var v := After(IDLE, events);
    assert RemovalDue(v.calls, v.tasks, v.ending, call);
  }
}
