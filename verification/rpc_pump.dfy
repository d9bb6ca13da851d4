/** The message pump of an RPC connection: incoming frames are dispatched one by
    one, replies and stream messages go out through one reply channel, and
    handlers, stream readers and the peer run concurrently. */
module RpcPump {
  import opened Sequences

  type Id = nat
  type StreamId = nat

  /** What a request asks for. The two stream methods are built in. */
  datatype Target =
    | Sync
    | Async
    | Duplex(streams: nat)
    | StreamData(stream: StreamId, segment: seq<Byte>)
    | StreamEnded(stream: StreamId)
    | Unknown

  datatype Request = Request(id: Option<Id>, target: Target, badParams: bool)

  datatype Verdict = Success | Failure(code: int)

  /** A message on the reply channel. `call` numbers the dispatched requests. */
  datatype Msg =
    | Reply(call: nat, id: Id, verdict: Verdict)
    | Started(call: nat, forRequest: Id, streams: seq<StreamId>)
    | Data(stream: StreamId, segment: seq<Byte>)
    | End(stream: StreamId)

  datatype Pump =
    | Listening
    | Answering(reply: Msg)                             // sending a synchronous reply
    | Announcing(call: nat, forRequest: Id, streams: seq<StreamId>)  // sending streams_started
    | Opening(call: nat, streams: seq<StreamId>)        // registering the streams one by one
    | Stopped

  /** A spawned handler: it may still have to remove a stream, then replies. */
  datatype Task = Task(removing: Option<StreamId>)

  /** The task that reads a stream's handler side. */
  datatype Reader = Reading | Sending(segment: seq<Byte>) | SendingEnd | Done | Aborted

  /** `calls`, `results`, `read`, `dropped` and `peerEnded` record history: the
      requests dispatched, whether a call's handler returned without error, the
      bytes read per stream, the segments that found no record, and the streams
      the peer has ended. */
  datatype Server = Server(
    pump: Pump,
    inbox: seq<Request>,
    sent: seq<Msg>,
    drained: nat,
    tasks: map<nat, Task>,
    readers: map<StreamId, Reader>,
    registered: set<StreamId>,
    ending: set<StreamId>,
    next: nat,
    calls: seq<Request>,
    results: map<nat, bool>,
    read: map<StreamId, seq<Byte>>,
    dropped: seq<StreamId>,
    peerEnded: set<StreamId>)

  const IDLE := Server(Listening, [], [], 0, map[], map[], {}, {}, 0, [], map[], map[], [], {})

  datatype Event =
    | PeerSends(request: Request)
    | Dispatch(ok: bool)
    | Answer
    | Announce
    | Open
    | Forward
    | RunTask(call: nat, ok: bool)
    | Expire(stream: StreamId)
    | ReaderReads(stream: StreamId, segment: seq<Byte>)
    | ReaderEof(stream: StreamId)
    | ReaderSends(stream: StreamId)
    | Stop

  /** The message told the peer about the stream. */
  predicate Announces(m: Msg, s: StreamId) {
    m.Started? && s in m.streams
  }

  /** The peer has received the announcement of the stream. */
  ghost predicate Visible(v: Server, s: StreamId) {
    exists i :: 0 <= i < v.drained && i < |v.sent| && Announces(v.sent[i], s)
  }

  /** Whether the peer may send the request: it waits for `streams_started`, and
      says nothing more on a stream after ending it. */
  ghost predicate PeerMaySend(v: Server, r: Request) {
    r.badParams ||
    match r.target
    case StreamData(s, _) => Visible(v, s) && s !in v.peerEnded
    case StreamEnded(s) => Visible(v, s) && s !in v.peerEnded
    case _ => true
  }

  ghost predicate Enabled(v: Server, e: Event) {
    match e
    case PeerSends(r) => PeerMaySend(v, r)
    case Dispatch(_) => v.pump.Listening? && v.inbox != []
    case Answer => v.pump.Answering?
    case Announce => v.pump.Announcing?
    case Open => v.pump.Opening?
    case Forward => v.pump.Listening? && v.drained < |v.sent|
    case RunTask(call, _) => call in v.tasks && call < |v.calls|
    case Expire(s) => s in v.ending
    case ReaderReads(s, segment) => s in v.readers && v.readers[s].Reading? && segment != [] && s in v.read
    case ReaderEof(s) => s in v.readers && v.readers[s].Reading?
    case ReaderSends(s) => s in v.readers && (v.readers[s].Sending? || v.readers[s].SendingEnd?)
    case Stop => v.pump.Listening?
  }

  /** The verdict of a request whose handler returns `ok`. */
  function VerdictOf(r: Request, ok: bool): Verdict {
    if r.target.Unknown? then Failure(-1)
    else if r.badParams then Failure(0)
    else if ok || r.target.StreamData? || r.target.StreamEnded? then Success
    else Failure(-1)
  }

  /** A send on the reply channel; it fails once the pump has stopped. */
  function Send(v: Server, m: Msg): Server {
    if v.pump.Stopped? then v else v.(sent := v.sent + [m])
  }

  function AnswerNow(v: Server, call: nat, r: Request, ok: bool): Server {
    var v := v.(results := v.results[call := ok]);
    if r.id.Some? then v.(pump := Answering(Reply(call, r.id.value, VerdictOf(r, ok)))) else v
  }

  function Dispatched(v: Server, ok: bool): Server
    requires v.inbox != []
  {
    var r, call := v.inbox[0], |v.calls|;
    var v := v.(inbox := v.inbox[1..], calls := v.calls + [r]);
    match r.target
    case Unknown => AnswerNow(v, call, r, ok)
    case Sync => AnswerNow(v, call, r, ok)
    case StreamData(s, _) =>
      AnswerNow(if r.badParams || s in v.registered then v else v.(dropped := v.dropped + [s]), call, r, ok)
    case Async => v.(tasks := v.tasks[call := Task(None)])
    case StreamEnded(s) => v.(tasks := v.tasks[call := Task(if r.badParams then None else Some(s))])
    case Duplex(n) =>
      if r.badParams then v.(tasks := v.tasks[call := Task(None)])
      else
        var id := match r.id case Some(i) => i case None => 0;
        v.(pump := Announcing(call, id, seq(n, i requires 0 <= i < n => v.next + i)), next := v.next + n)
  }

  function TaskRun(v: Server, call: nat, ok: bool): Server
    requires call in v.tasks && call < |v.calls|
  {
    var t, r := v.tasks[call], v.calls[call];
    if t.removing.Some? then
      v.(ending := v.ending + {t.removing.value}, tasks := v.tasks[call := Task(None)])
    else
      var v := v.(tasks := v.tasks - {call}, results := v.results[call := ok]);
      if r.id.Some? then Send(v, Reply(call, r.id.value, VerdictOf(r, ok))) else v
  }

  function StreamOpened(v: Server): Server
    requires v.pump.Opening?
  {
    var call, streams := v.pump.call, v.pump.streams;
    if streams == [] then v.(pump := Listening, tasks := v.tasks[call := Task(None)])
    else
      var s := streams[0];
      v.(pump := Opening(call, streams[1..]),
         registered := v.registered + {s},
         readers := v.readers[s := Reading],
         read := v.read[s := []])
  }

  function ReaderSent(v: Server, s: StreamId): Server
    requires s in v.readers && (v.readers[s].Sending? || v.readers[s].SendingEnd?)
  {
    if v.pump.Stopped? then v.(readers := v.readers[s := Aborted])
    else match v.readers[s]
      case Sending(segment) => Send(v, Data(s, segment)).(readers := v.readers[s := Reading])
      case SendingEnd => Send(v, End(s)).(readers := v.readers[s := Done])
  }

  function Next(v: Server, e: Event): Server
    requires Enabled(v, e)
  {
    match e
    case PeerSends(r) =>
      v.(inbox := v.inbox + [r],
         peerEnded := if r.target.StreamEnded? && !r.badParams then v.peerEnded + {r.target.stream} else v.peerEnded)
    case Dispatch(ok) => Dispatched(v, ok)
    case Answer => Send(v, v.pump.reply).(pump := Listening)
    case Announce =>
      Send(v, Started(v.pump.call, v.pump.forRequest, v.pump.streams)).(pump := Opening(v.pump.call, v.pump.streams))
    case Open => StreamOpened(v)
    case Forward => v.(drained := v.drained + 1)
    case RunTask(call, ok) => TaskRun(v, call, ok)
    case Expire(s) => v.(registered := v.registered - {s})
    case ReaderReads(s, segment) =>
      v.(readers := v.readers[s := Sending(segment)], read := v.read[s := v.read[s] + segment])
    case ReaderEof(s) => v.(readers := v.readers[s := SendingEnd])
    case ReaderSends(s) => ReaderSent(v, s)
    case Stop => v.(pump := Stopped)
  }

  /** Answering in place concerns the pump and the history only. */
  lemma AnsweredInPlace(v: Server, call: nat, r: Request, ok: bool)
    ensures var v' := AnswerNow(v, call, r, ok);
            v' == v.(pump := v'.pump, results := v.results[call := ok]) &&
            v'.pump == if r.id.Some? then Answering(Reply(call, r.id.value, VerdictOf(r, ok))) else v.pump
  {
  }

  /** A dispatched request is answered in place, or gets streams, or a task. */
  predicate InPlace(r: Request) {
    r.target.Unknown? || r.target.Sync? || r.target.StreamData?
  }

  predicate OpensStreams(r: Request) {
    r.target.Duplex? && !r.badParams
  }

  lemma DispatchedIs(v: Server, ok: bool)
    requires v.inbox != []
    ensures var v', r, call := Dispatched(v, ok), v.inbox[0], |v.calls|;
            var v1 := v.(inbox := v.inbox[1..], calls := v.calls + [r]);
            (InPlace(r) ==>
               v' == v1.(dropped := v'.dropped, pump := v'.pump, results := v.results[call := ok]) &&
               v'.pump == if r.id.Some? then Answering(Reply(call, r.id.value, VerdictOf(r, ok))) else v.pump) &&
            (OpensStreams(r) ==>
               v' == v1.(pump := v'.pump, next := v'.next) && v'.pump.Announcing? && v'.pump.call == call &&
               v'.pump.forRequest == match r.id case Some(i) => i case None => 0) &&
            (!InPlace(r) && !OpensStreams(r) ==>
               v' == v1.(tasks := v.tasks[call := v'.tasks[call]]) && call in v'.tasks &&
               v'.tasks[call] ==
               Task(if r.target.StreamEnded? && !r.badParams then Some(r.target.stream) else None))
  {
    var r, call := v.inbox[0], |v.calls|;
    var v1 := v.(inbox := v.inbox[1..], calls := v.calls + [r]);
    AnsweredInPlace(v1, call, r, ok);
    if r.target.StreamData? {
      AnsweredInPlace(v1.(dropped := v1.dropped + [r.target.stream]), call, r, ok);
    }
    hide AnswerNow, VerdictOf;
  }

  // ---------- what the channel may carry ----------

  /** The bytes of a stream's data messages. */
  function DataOf(sent: seq<Msg>, s: StreamId): seq<Byte> {
    if sent == [] then [] else
      var m := sent[|sent| - 1];
      DataOf(sent[..|sent| - 1], s) + (if m.Data? && m.stream == s then m.segment else [])
  }

  function EndsOf(sent: seq<Msg>, s: StreamId): nat {
    if sent == [] then 0 else
      var m := sent[|sent| - 1];
      EndsOf(sent[..|sent| - 1], s) + (if m.End? && m.stream == s then 1 else 0)
  }

  function RepliesTo(sent: seq<Msg>, call: nat): nat {
    if sent == [] then 0 else
      var m := sent[|sent| - 1];
      RepliesTo(sent[..|sent| - 1], call) + (if m.Reply? && m.call == call then 1 else 0)
  }

  lemma Appended(sent: seq<Msg>, m: Msg)
    ensures forall s :: DataOf(sent + [m], s) == DataOf(sent, s) + (if m.Data? && m.stream == s then m.segment else [])
    ensures forall s :: EndsOf(sent + [m], s) == EndsOf(sent, s) + (if m.End? && m.stream == s then 1 else 0)
    ensures forall c :: RepliesTo(sent + [m], c) == RepliesTo(sent, c) + (if m.Reply? && m.call == c then 1 else 0)
  {
    assert (sent + [m])[..|sent|] == sent;
  }
}
