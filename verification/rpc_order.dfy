/** What every run of the pump keeps: the order of messages on the reply
    channel, the contents of each stream, one reply per request, and no stream
    segment lost for want of a record. */
module RpcOrder {
  import opened Sequences
  import opened RpcPump

  ghost predicate AnnouncedIn(sent: seq<Msg>, s: StreamId) {
    exists j :: 0 <= j < |sent| && Announces(sent[j], s)
  }

  ghost predicate StartedIn(sent: seq<Msg>, call: nat) {
    exists j :: 0 <= j < |sent| && sent[j].Started? && sent[j].call == call
  }

  /** The verdicts a request can get: unknown methods and undecodable
      parameters have their own codes. */
  predicate VerdictFits(r: Request, v: Verdict) {
    RightVerdict(r, true, v) || RightVerdict(r, false, v)
  }

  /** What a request is answered whose handler, if it is run, returns without
      error or not. The code of undecodable parameters is 0, of an unknown method
      and of a handler's error -1; the two stream messages never fail. */
  predicate RightVerdict(r: Request, ok: bool, v: Verdict) {
    match r.target
    case Unknown => v == Failure(-1)
    case StreamData(_, _) => v == if r.badParams then Failure(0) else Success
    case StreamEnded(_) => v == if r.badParams then Failure(0) else Success
    case _ =>
      if r.badParams then v == Failure(0)
      else (v == Success <==> ok) && (!ok ==> v == Failure(-1))
  }

  /** `m` may follow the messages `before`. */
  ghost predicate LawfulAfter(calls: seq<Request>, before: seq<Msg>, m: Msg) {
    match m
    case Reply(call, id, verdict) =>
      call < |calls| && calls[call].id == Some(id) && VerdictFits(calls[call], verdict) &&
      RepliesTo(before, call) == 0 &&
      (OpensStreams(calls[call]) ==> StartedIn(before, call))
    case Started(call, _, streams) =>
      call < |calls| && OpensStreams(calls[call]) && |streams| == calls[call].target.streams &&
      !StartedIn(before, call) &&
      forall s :: s in streams ==> !AnnouncedIn(before, s)
    case Data(s, segment) => segment != [] && AnnouncedIn(before, s) && EndsOf(before, s) == 0
    case End(s) => AnnouncedIn(before, s) && EndsOf(before, s) == 0
  }

  ghost predicate Lawful(calls: seq<Request>, sent: seq<Msg>) {
    forall i :: 0 <= i < |sent| ==> LawfulAfter(calls, sent[..i], sent[i])
  }

  /** What an open stream has sent, by the phase of its reader. */
  ghost predicate StreamSent(sent: seq<Msg>, s: StreamId, reader: Reader, read: seq<Byte>) {
    match reader
    case Reading => DataOf(sent, s) == read && EndsOf(sent, s) == 0
    case Sending(segment) => segment != [] && DataOf(sent, s) + segment == read && EndsOf(sent, s) == 0
    case SendingEnd => DataOf(sent, s) == read && EndsOf(sent, s) == 0
    case Done => DataOf(sent, s) == read && EndsOf(sent, s) == 1
    case Aborted => DataOf(sent, s) <= read && EndsOf(sent, s) == 0
  }

  ghost predicate StreamAt(sent: seq<Msg>, s: StreamId, readers: map<StreamId, Reader>, read: map<StreamId,
      seq<Byte>>) {
    if s in readers then s in read && AnnouncedIn(sent, s) && StreamSent(sent, s, readers[s], read[s])
    else DataOf(sent, s) == [] && EndsOf(sent, s) == 0
  }

  ghost predicate StreamsOk(sent: seq<Msg>, readers: map<StreamId, Reader>, read: map<StreamId, seq<Byte>>) {
    forall s: StreamId :: StreamAt(sent, s, readers, read)
  }

  /** Stream ids below `next` are the only ones in use. */
  ghost predicate IdsUsed(sent: seq<Msg>, next: nat) {
    forall s: StreamId :: AnnouncedIn(sent, s) ==> s < next
  }

  predicate Distinct(streams: seq<StreamId>) {
    forall i, j :: 0 <= i < j < |streams| ==> streams[i] != streams[j]
  }

  /** The pump's current work belongs to a call that nothing else answers. */
  ghost predicate PumpOk(pump: Pump, calls: seq<Request>, sent: seq<Msg>, tasks: map<nat, Task>,
                         open: set<StreamId>, next: nat) {
    (forall s: StreamId :: AnnouncedIn(sent, s) ==> s in open || (pump.Opening? && s in pump.streams)) &&
    match pump
    case Answering(m) => m.Reply? && LawfulAfter(calls, sent, m) && m.call !in tasks
    case Announcing(call, _, streams) =>
      call < |calls| && call !in tasks && RepliesTo(sent, call) == 0 &&
      OpensStreams(calls[call]) && |streams| == calls[call].target.streams && !StartedIn(sent, call) &&
      Distinct(streams) && forall s :: s in streams ==> s < next && !AnnouncedIn(sent, s) && s !in open
    case Opening(call, streams) =>
      call < |calls| && call !in tasks && RepliesTo(sent, call) == 0 && StartedIn(sent, call) &&
      Distinct(streams) && forall s :: s in streams ==> AnnouncedIn(sent, s) && s !in open
    case _ => true
  }

  ghost predicate TasksOk(calls: seq<Request>, sent: seq<Msg>, tasks: map<nat, Task>) {
    forall call :: call in tasks ==>
      call < |calls| && RepliesTo(sent, call) == 0 && (OpensStreams(calls[call]) ==> StartedIn(sent, call))
  }

  /** Someone still has to answer the call. */
  predicate Pending(pump: Pump, tasks: map<nat, Task>, call: nat) {
    call in tasks ||
    match pump
    case Answering(m) => m.Reply? && m.call == call
    case Announcing(c, _, _) => c == call
    case Opening(c, _) => c == call
    case _ => false
  }

  /** Exactly one reply for a request with an id, none for one without. */
  predicate Answered(r: Request, replies: nat) {
    replies == if r.id.Some? then 1 else 0
  }

  ghost predicate AllAnswered(pump: Pump, calls: seq<Request>, sent: seq<Msg>, tasks: map<nat, Task>) {
    && (forall c :: 0 <= c < |calls| ==>
         RepliesTo(sent, c) <= 1 && (calls[c].id.None? ==> RepliesTo(sent, c) == 0) &&
         (!pump.Stopped? && !Pending(pump, tasks, c) ==> Answered(calls[c], RepliesTo(sent, c))))
    && (forall c :: |calls| <= c ==> RepliesTo(sent, c) == 0)
  }

  predicate IsData(r: Request, s: StreamId) {
    !r.badParams && r.target.StreamData? && r.target.stream == s
  }

  /** No segment for `s` is waiting to be dispatched. */
  ghost predicate NoneWaiting(inbox: seq<Request>, s: StreamId) {
    forall j :: 0 <= j < |inbox| ==> !IsData(inbox[j], s)
  }

  /** The peer is done with the stream, and so is the pump. */
  ghost predicate Over(inbox: seq<Request>, peerEnded: set<StreamId>, s: StreamId) {
    s in peerEnded && NoneWaiting(inbox, s)
  }

  ghost predicate SeenBy(sent: seq<Msg>, drained: nat, s: StreamId) {
    exists i :: 0 <= i < drained && i < |sent| && Announces(sent[i], s)
  }

  ghost predicate SeenOpen(sent: seq<Msg>, drained: nat, open: set<StreamId>) {
    drained <= |sent| && forall s: StreamId :: SeenBy(sent, drained, s) ==> s in open
  }

  /** A stream is removed, or asked to be, only when it is over. */
  ghost predicate RemovalsOk(inbox: seq<Request>, peerEnded: set<StreamId>, ending: set<StreamId>, tasks: map<nat,
      Task>) {
    && (forall s :: s in ending ==> Over(inbox, peerEnded, s))
    && (forall c :: c in tasks && tasks[c].removing.Some? ==> Over(inbox, peerEnded, tasks[c].removing.value))
  }

  /** A waiting frame is about an open stream, and says nothing after its end. */
  ghost predicate FrameOk(inbox: seq<Request>, i: nat, open: set<StreamId>, peerEnded: set<StreamId>)
    requires i < |inbox|
  {
    inbox[i].badParams ||
    match inbox[i].target
    case StreamData(s, _) => s in open
    case StreamEnded(s) => Over(inbox[i + 1..], peerEnded, s)
    case _ => true
  }

  ghost predicate FramesOk(inbox: seq<Request>, open: set<StreamId>, peerEnded: set<StreamId>) {
    forall i :: 0 <= i < |inbox| ==> FrameOk(inbox, i, open, peerEnded)
  }

  ghost predicate Delivery(v: Server) {
    && v.dropped == []
    && SeenOpen(v.sent, v.drained, v.readers.Keys)
    && v.readers.Keys <= v.registered + v.ending
    && RemovalsOk(v.inbox, v.peerEnded, v.ending, v.tasks)
    && FramesOk(v.inbox, v.readers.Keys, v.peerEnded)
  }

  ghost predicate Inv(v: Server) {
    && Lawful(v.calls, v.sent)
    && StreamsOk(v.sent, v.readers, v.read)
    && IdsUsed(v.sent, v.next)
    && PumpOk(v.pump, v.calls, v.sent, v.tasks, v.readers.Keys, v.next)
    && TasksOk(v.calls, v.sent, v.tasks)
    && AllAnswered(v.pump, v.calls, v.sent, v.tasks)
    && Delivery(v)
  }

  // ---------- appending to the channel ----------

  lemma Announced(sent: seq<Msg>, m: Msg, s: StreamId)
    ensures AnnouncedIn(sent + [m], s) <==> AnnouncedIn(sent, s) || Announces(m, s)
  {
    if j :| 0 <= j < |sent| && Announces(sent[j], s) {
      assert (sent + [m])[j] == sent[j];
    }
    assert (sent + [m])[|sent|] == m;
  }

  lemma StartedSnoc(sent: seq<Msg>, m: Msg, call: nat)
    ensures StartedIn(sent + [m], call) <==> StartedIn(sent, call) || (m.Started? && m.call == call)
  {
    if j :| 0 <= j < |sent| && sent[j].Started? && sent[j].call == call {
      assert (sent + [m])[j] == sent[j];
    }
    assert (sent + [m])[|sent|] == m;
  }

  lemma LawfulSnoc(calls: seq<Request>, sent: seq<Msg>, m: Msg)
    requires Lawful(calls, sent) && LawfulAfter(calls, sent, m)
    ensures Lawful(calls, sent + [m])
  {
    forall i | 0 <= i < |sent + [m]| ensures LawfulAfter(calls, (sent + [m])[..i], (sent + [m])[i]) {
      if i < |sent| {
        assert (sent + [m])[..i] == sent[..i];
      } else {
        assert (sent + [m])[..i] == sent;
      }
    }
  }

  lemma LawfulMoreCalls(calls: seq<Request>, r: Request, sent: seq<Msg>)
    requires Lawful(calls, sent)
    ensures Lawful(calls + [r], sent)
  {
    forall i | 0 <= i < |sent| ensures LawfulAfter(calls + [r], sent[..i], sent[i]) {
      assert LawfulAfter(calls, sent[..i], sent[i]);
    }
  }

  /** A message that is not about `s` changes nothing for the stream. */
  lemma StreamsKept(sent: seq<Msg>, m: Msg, readers: map<StreamId, Reader>, read: map<StreamId, seq<Byte>>)
    requires StreamsOk(sent, readers, read) && !m.Data? && !m.End?
    ensures StreamsOk(sent + [m], readers, read)
  {
    Appended(sent, m);
    forall s: StreamId ensures StreamAt(sent + [m], s, readers, read) {
      assert StreamAt(sent, s, readers, read);
      Announced(sent, m, s);
    }
  }

  lemma IdsKept(sent: seq<Msg>, m: Msg, next: nat)
    requires IdsUsed(sent, next) && forall s: StreamId :: Announces(m, s) ==> s < next
    ensures IdsUsed(sent + [m], next)
  {
    forall s: StreamId | AnnouncedIn(sent + [m], s) ensures s < next {
      Announced(sent, m, s);
    }
  }

  /** Which streams the peer knows of depends on what was drained, not on what
      was sent since. */
  lemma SeenKept(sent: seq<Msg>, m: Msg, drained: nat, s: StreamId)
    requires drained <= |sent| && SeenBy(sent + [m], drained, s)
    ensures SeenBy(sent, drained, s)
  {
    var i :| 0 <= i < drained && i < |sent + [m]| && Announces((sent + [m])[i], s);
    assert Announces(sent[i], s);
  }

  lemma SeenOpenKept(sent: seq<Msg>, m: Msg, drained: nat, open: set<StreamId>)
    requires SeenOpen(sent, drained, open)
    ensures SeenOpen(sent + [m], drained, open)
  {
    forall s: StreamId | SeenBy(sent + [m], drained, s) ensures s in open {
      SeenKept(sent, m, drained, s);
    }
  }

  lemma DeliveryKept(v: Server, v': Server, m: Msg)
    requires Delivery(v) && v'.sent == v.sent + [m]
    requires v'.drained == v.drained && v'.dropped == v.dropped && v'.readers.Keys == v.readers.Keys
    requires v'.registered == v.registered && v'.ending == v.ending && v'.inbox == v.inbox
    requires v'.peerEnded == v.peerEnded
    requires forall c :: c in v'.tasks ==> c in v.tasks && v'.tasks[c] == v.tasks[c]
    ensures Delivery(v')
  {
    hide SeenOpen, FramesOk, Over;
    SeenOpenKept(v.sent, m, v.drained, v.readers.Keys);
  }

  // ---------- one event at a time ----------

  /** Sending the one reply of a call nobody else answers. */
  lemma ReplySent(v: Server, v': Server, m: Msg)
    requires Inv(v) && m.Reply? && LawfulAfter(v.calls, v.sent, m) && Inv(v)
    requires v' == v.(sent := v.sent + [m], pump := v'.pump, tasks := v.tasks - {m.call}, results := v'.results)
    requires v'.pump == v.pump || (v.pump == Answering(m) && v'.pump == Listening)
    requires v'.pump == v.pump ==> !Pending(v.pump, map[], m.call)
    ensures Inv(v')
  {
    LawfulSnoc(v.calls, v.sent, m);
    StreamsKept(v.sent, m, v.readers, v.read);
    IdsKept(v.sent, m, v.next);
    DeliveryKept(v, v', m);
    ReplyPump(v, v', m);
    ReplyRest(v, v', m);
  }

  lemma ReplyPump(v: Server, v': Server, m: Msg)
    requires m.Reply? && PumpOk(v.pump, v.calls, v.sent, v.tasks, v.readers.Keys, v.next)
    requires v' == v.(sent := v.sent + [m], pump := v'.pump, tasks := v.tasks - {m.call}, results := v'.results)
    requires v'.pump == v.pump || (v.pump == Answering(m) && v'.pump == Listening)
    requires v'.pump == v.pump ==> !Pending(v.pump, map[], m.call)
    ensures PumpOk(v'.pump, v'.calls, v'.sent, v'.tasks, v'.readers.Keys, v'.next)
  {
    Appended(v.sent, m);
    forall s: StreamId ensures AnnouncedIn(v'.sent, s) <==> AnnouncedIn(v.sent, s) {
      Announced(v.sent, m, s);
    }
    forall c: nat ensures StartedIn(v'.sent, c) <==> StartedIn(v.sent, c) {
      StartedSnoc(v.sent, m, c);
    }
    hide RepliesTo, DataOf, EndsOf, AnnouncedIn, StartedIn;
  }

  lemma ReplyRest(v: Server, v': Server, m: Msg)
    requires m.Reply? && LawfulAfter(v.calls, v.sent, m)
    requires TasksOk(v.calls, v.sent, v.tasks) && AllAnswered(v.pump, v.calls, v.sent, v.tasks)
    requires v' == v.(sent := v.sent + [m], pump := v'.pump, tasks := v.tasks - {m.call}, results := v'.results)
    requires v'.pump == v.pump || (v.pump == Answering(m) && v'.pump == Listening)
    ensures TasksOk(v'.calls, v'.sent, v'.tasks) && AllAnswered(v'.pump, v'.calls, v'.sent, v'.tasks)
  {
    Appended(v.sent, m);
    forall c: nat ensures StartedIn(v'.sent, c) <==> StartedIn(v.sent, c) {
      StartedSnoc(v.sent, m, c);
    }
    hide RepliesTo, DataOf, EndsOf, AnnouncedIn, StartedIn;
  }

  lemma AnswerKeeps(v: Server)
    requires Inv(v) && Enabled(v, Answer)
    ensures Inv(Next(v, Answer))
  {
    ReplySent(v, Next(v, Answer), v.pump.reply) by {
      assert v.tasks - {v.pump.reply.call} == v.tasks;
    }
  }

  lemma RunTaskKeeps(v: Server, call: nat, ok: bool)
    requires Inv(v) && Enabled(v, RunTask(call, ok))
    ensures Inv(Next(v, RunTask(call, ok)))
  {
    var v', r := Next(v, RunTask(call, ok)), v.calls[call];
    if v.tasks[call].removing.Some? || r.id.None? || v.pump.Stopped? {
      TaskUnsent(v, v', call);
    } else {
      ReplySent(v, v', Reply(call, r.id.value, VerdictOf(r, ok)));
    }
  }

  /** A task step that sends nothing: removing a stream, or ending unanswered. */
  lemma TaskUnsent(v: Server, v': Server, call: nat)
    requires Inv(v) && call in v.tasks && call < |v.calls|
    requires if v.tasks[call].removing.Some?
             then v' == v.(ending := v.ending + {v.tasks[call].removing.value}, tasks := v.tasks[call := Task(None)])
             else v' == v.(tasks := v.tasks - {call}, results := v'.results) &&
                  (v.calls[call].id.None? || v.pump.Stopped?)
    ensures Inv(v')
  {
    assert RemovalsOk(v'.inbox, v'.peerEnded, v'.ending, v'.tasks) by {
      hide Over;
    }
    assert TasksOk(v'.calls, v'.sent, v'.tasks) && AllAnswered(v'.pump, v'.calls, v'.sent, v'.tasks) by {
      hide RepliesTo, StartedIn;
    }
    assert PumpOk(v'.pump, v'.calls, v'.sent, v'.tasks, v'.readers.Keys, v'.next) by {
      hide RepliesTo, AnnouncedIn, StartedIn, LawfulAfter;
    }
    hide Lawful, StreamsOk, IdsUsed, PumpOk, TasksOk, AllAnswered, SeenOpen, RemovalsOk, FramesOk;
  }

  lemma AnnounceKeeps(v: Server)
    requires Inv(v) && Enabled(v, Announce)
    ensures Inv(Next(v, Announce))
  {
    var v' := Next(v, Announce);
    var m := Started(v.pump.call, v.pump.forRequest, v.pump.streams);
    LawfulSnoc(v.calls, v.sent, m);
    StreamsKept(v.sent, m, v.readers, v.read);
    IdsKept(v.sent, m, v.next);
    DeliveryKept(v, v', m);
    AnnounceRest(v, v', m);
  }

  lemma AnnounceRest(v: Server, v': Server, m: Msg)
    requires v.pump.Announcing? && PumpOk(v.pump, v.calls, v.sent, v.tasks, v.readers.Keys, v.next)
    requires TasksOk(v.calls, v.sent, v.tasks) && AllAnswered(v.pump, v.calls, v.sent, v.tasks)
    requires m == Started(v.pump.call, v.pump.forRequest, v.pump.streams)
    requires v' == v.(sent := v.sent + [m], pump := Opening(v.pump.call, v.pump.streams))
    ensures PumpOk(v'.pump, v'.calls, v'.sent, v'.tasks, v'.readers.Keys, v'.next)
    ensures TasksOk(v'.calls, v'.sent, v'.tasks) && AllAnswered(v'.pump, v'.calls, v'.sent, v'.tasks)
  {
    Appended(v.sent, m);
    forall s: StreamId ensures AnnouncedIn(v'.sent, s) <==> AnnouncedIn(v.sent, s) || Announces(m, s) {
      Announced(v.sent, m, s);
    }
    forall c: nat ensures StartedIn(v'.sent, c) <==> StartedIn(v.sent, c) || c == m.call {
      StartedSnoc(v.sent, m, c);
    }
    hide RepliesTo, DataOf, EndsOf, AnnouncedIn, StartedIn;
  }

  lemma OpenKeeps(v: Server)
    requires Inv(v) && Enabled(v, Open)
    ensures Inv(Next(v, Open))
  {
    var streams := v.pump.streams;
    if streams == [] {
      var v' := v.(pump := Listening, tasks := v.tasks[v.pump.call := Task(None)]);
      assert v' == Next(v, Open);
      hide *;
      AllOpened(v, v');
    } else {
      var s := streams[0];
      var v' := v.(pump := Opening(v.pump.call, streams[1..]), registered := v.registered + {s},
                   readers := v.readers[s := Reading], read := v.read[s := []]);
      assert v' == Next(v, Open);
      hide *;
      OneOpened(v, v', s);
    }
  }

  /** The last stream is open: the handler's future is spawned. */
  lemma AllOpened(v: Server, v': Server)
    requires Inv(v) && v.pump.Opening? && v.pump.streams == []
    requires v' == v.(pump := Listening, tasks := v.tasks[v.pump.call := Task(None)])
    ensures Inv(v')
  {
    assert RemovalsOk(v'.inbox, v'.peerEnded, v'.ending, v'.tasks) by {
      hide Over;
    }
    assert TasksOk(v'.calls, v'.sent, v'.tasks) && AllAnswered(v'.pump, v'.calls, v'.sent, v'.tasks) by {
      hide RepliesTo, StartedIn, AnnouncedIn;
    }
    hide Lawful, StreamsOk, IdsUsed, TasksOk, AllAnswered, SeenOpen, RemovalsOk, FramesOk;
    hide AnnouncedIn, RepliesTo, StartedIn;
  }

  /** One stream gets its record and its reader. */
  lemma OneOpened(v: Server, v': Server, s: StreamId)
    requires Inv(v) && v.pump.Opening? && v.pump.streams != [] && s == v.pump.streams[0]
    requires v' == v.(pump := Opening(v.pump.call, v.pump.streams[1..]), registered := v.registered + {s},
                      readers := v.readers[s := Reading], read := v.read[s := []])
    ensures Inv(v')
  {
    assert v'.readers.Keys == v.readers.Keys + {s};
    OpenPump(v, v');
    OpenStreams(v, v');
    assert AllAnswered(v'.pump, v'.calls, v'.sent, v'.tasks) by {
      hide RepliesTo;
    }
    assert SeenOpen(v'.sent, v'.drained, v'.readers.Keys) by {
      hide SeenBy;
    }
    assert FramesOk(v'.inbox, v'.readers.Keys, v'.peerEnded) by {
      forall i | 0 <= i < |v'.inbox| ensures FrameOk(v'.inbox, i, v'.readers.Keys, v'.peerEnded) {
        assert FrameOk(v.inbox, i, v.readers.Keys, v.peerEnded);
      }
    }
    hide Lawful, StreamsOk, IdsUsed, PumpOk, TasksOk, AllAnswered, SeenOpen, RemovalsOk, FramesOk;
  }

  lemma OpenPump(v: Server, v': Server)
    requires PumpOk(v.pump, v.calls, v.sent, v.tasks, v.readers.Keys, v.next)
    requires v.pump.Opening? && v.pump.streams != [] && v'.pump == Opening(v.pump.call, v.pump.streams[1..])
    requires v'.readers.Keys == v.readers.Keys + {v.pump.streams[0]}
    requires v'.calls == v.calls && v'.sent == v.sent && v'.tasks == v.tasks && v'.next == v.next
    ensures PumpOk(v'.pump, v'.calls, v'.sent, v'.tasks, v'.readers.Keys, v'.next)
  {
    var streams := v.pump.streams;
    assert forall s :: s in streams <==> s == streams[0] || s in streams[1..];
    assert streams[0] !in streams[1..];
    hide RepliesTo, AnnouncedIn, StartedIn;
  }

  lemma OpenStreams(v: Server, v': Server)
    requires PumpOk(v.pump, v.calls, v.sent, v.tasks, v.readers.Keys, v.next) && StreamsOk(v.sent, v.readers, v.read)
    requires v.pump.Opening? && v.pump.streams != []
    requires v'.readers == v.readers[v.pump.streams[0] := Reading] && v'.read == v.read[v.pump.streams[0] := []]
    requires v'.sent == v.sent
    ensures StreamsOk(v'.sent, v'.readers, v'.read)
  {
    assert v.pump.streams[0] in v.pump.streams;
    forall s: StreamId ensures StreamAt(v'.sent, s, v'.readers, v'.read) {
      assert StreamAt(v.sent, s, v.readers, v.read);
    }
  }

  lemma ForwardKeeps(v: Server)
    requires Inv(v) && Enabled(v, Forward)
    ensures Inv(Next(v, Forward))
  {
    var v' := v.(drained := v.drained + 1);
    assert v' == Next(v, Forward);
    assert forall s: StreamId :: AnnouncedIn(v.sent, s) ==> s in v.readers.Keys;
    forall s: StreamId | SeenBy(v'.sent, v'.drained, s) ensures s in v'.readers.Keys {
      assert AnnouncedIn(v.sent, s);
    }
    hide Enabled, Next, Lawful, StreamsOk, IdsUsed, PumpOk, TasksOk, AllAnswered, SeenBy, RemovalsOk, FramesOk;
  }

  /** Reading a handler's output, or its end, without sending anything yet. */
  lemma ReaderKeeps(v: Server, e: Event)
    requires Inv(v) && Enabled(v, e) && (e.ReaderReads? || e.ReaderEof?)
    ensures Inv(Next(v, e))
  {
    var v' := Next(v, e);
    ReaderStreams(v, e);
    SameReaders(v, v');
  }

  lemma ReaderStreams(v: Server, e: Event)
    requires StreamsOk(v.sent, v.readers, v.read) && Enabled(v, e) && (e.ReaderReads? || e.ReaderEof?)
    ensures StreamsOk(Next(v, e).sent, Next(v, e).readers, Next(v, e).read)
  {
    var v' := Next(v, e);
    forall s: StreamId ensures StreamAt(v'.sent, s, v'.readers, v'.read) {
      assert StreamAt(v.sent, s, v.readers, v.read);
    }
  }

  /** Only the phase of a reader, or the bytes it has read, changed. */
  lemma SameReaders(v: Server, v': Server)
    requires Inv(v) && v' == v.(readers := v'.readers, read := v'.read)
    requires v'.readers.Keys == v.readers.Keys && StreamsOk(v'.sent, v'.readers, v'.read)
    ensures Inv(v')
  {
    hide Lawful, StreamsOk, IdsUsed, PumpOk, TasksOk, AllAnswered, SeenOpen, RemovalsOk, FramesOk;
  }

  lemma ReaderAborts(v: Server, s: StreamId)
    requires Inv(v) && Enabled(v, ReaderSends(s)) && v.pump.Stopped?
    ensures Inv(Next(v, ReaderSends(s)))
  {
    var v' := v.(readers := v.readers[s := Aborted]);
    forall t: StreamId ensures StreamAt(v'.sent, t, v'.readers, v'.read) {
      assert StreamAt(v.sent, t, v.readers, v.read);
    }
    hide Inv, StreamsOk;
    SameReaders(v, v');
  }

  lemma ReaderSendsKeeps(v: Server, s: StreamId)
    requires Inv(v) && Enabled(v, ReaderSends(s))
    ensures Inv(Next(v, ReaderSends(s)))
  {
    if v.pump.Stopped? {
      ReaderAborts(v, s);
    } else {
      var m := if v.readers[s].Sending? then Data(s, v.readers[s].segment) else End(s);
      assert LawfulAfter(v.calls, v.sent, m) by {
        assert StreamAt(v.sent, s, v.readers, v.read);
      }
      var v' := v.(sent := v.sent + [m], readers := v.readers[s := if m.Data? then Reading else Done]);
      assert v' == Next(v, ReaderSends(s));
      hide *;
      StreamMessageSent(v, v', s, m);
    }
  }

  lemma StreamMessageSent(v: Server, v': Server, s: StreamId, m: Msg)
    requires Inv(v) && LawfulAfter(v.calls, v.sent, m) && s in v.readers
    requires v.readers[s].Sending? || v.readers[s].SendingEnd?
    requires m == if v.readers[s].Sending? then Data(s, v.readers[s].segment) else End(s)
    requires v' == v.(sent := v.sent + [m], readers := v.readers[s := if m.Data? then Reading else Done])
    ensures Inv(v')
  {
    hide Lawful, StreamsOk, IdsUsed, PumpOk, TasksOk, AllAnswered, Delivery, LawfulAfter;
    LawfulSnoc(v.calls, v.sent, m);
    StreamSends(v, v', s, m);
    IdsKept(v.sent, m, v.next);
    DeliveryKept(v, v', m);
    StreamSendsRest(v, v', m);
  }

  lemma StreamSends(v: Server, v': Server, s: StreamId, m: Msg)
    requires StreamsOk(v.sent, v.readers, v.read) && s in v.readers
    requires v.readers[s].Sending? || v.readers[s].SendingEnd?
    requires m == if v.readers[s].Sending? then Data(s, v.readers[s].segment) else End(s)
    requires v'.sent == v.sent + [m] && v'.read == v.read
    requires v'.readers == v.readers[s := if v.readers[s].Sending? then Reading else Done]
    ensures StreamsOk(v'.sent, v'.readers, v'.read)
  {
    Appended(v.sent, m);
    assert StreamAt(v.sent, s, v.readers, v.read);
    forall t: StreamId ensures StreamAt(v'.sent, t, v'.readers, v'.read) {
      assert StreamAt(v.sent, t, v.readers, v.read);
      Announced(v.sent, m, t);
    }
  }

  lemma StreamSendsRest(v: Server, v': Server, m: Msg)
    requires m.Data? || m.End?
    requires PumpOk(v.pump, v.calls, v.sent, v.tasks, v.readers.Keys, v.next)
    requires TasksOk(v.calls, v.sent, v.tasks) && AllAnswered(v.pump, v.calls, v.sent, v.tasks)
    requires v'.sent == v.sent + [m] && v'.readers.Keys == v.readers.Keys
    requires v'.pump == v.pump && v'.calls == v.calls && v'.tasks == v.tasks && v'.next == v.next
    ensures PumpOk(v'.pump, v'.calls, v'.sent, v'.tasks, v'.readers.Keys, v'.next)
    ensures TasksOk(v'.calls, v'.sent, v'.tasks) && AllAnswered(v'.pump, v'.calls, v'.sent, v'.tasks)
  {
    Appended(v.sent, m);
    forall t: StreamId ensures AnnouncedIn(v'.sent, t) <==> AnnouncedIn(v.sent, t) {
      Announced(v.sent, m, t);
    }
    forall c: nat ensures StartedIn(v'.sent, c) <==> StartedIn(v.sent, c) {
      StartedSnoc(v.sent, m, c);
    }
    hide RepliesTo, DataOf, EndsOf, AnnouncedIn, StartedIn;
  }

  lemma ExpireKeeps(v: Server, s: StreamId)
    requires Inv(v) && Enabled(v, Expire(s))
    ensures Inv(Next(v, Expire(s)))
  {
    var v' := v.(registered := v.registered - {s});
    assert v' == Next(v, Expire(s)) && s in v.ending;
    hide Enabled, Next, Lawful, StreamsOk, IdsUsed, PumpOk, TasksOk, AllAnswered, SeenOpen, RemovalsOk, FramesOk;
  }

  lemma StopKeeps(v: Server)
    requires Inv(v) && Enabled(v, Stop)
    ensures Inv(Next(v, Stop))
  {
    var v' := v.(pump := Stopped);
    assert v' == Next(v, Stop) && v.pump == Listening;
    assert PumpOk(v'.pump, v'.calls, v'.sent, v'.tasks, v'.readers.Keys, v'.next) by {
      hide RepliesTo, AnnouncedIn, AllAnswered, TasksOk, Lawful, StreamsOk, Delivery;
    }
    assert AllAnswered(v'.pump, v'.calls, v'.sent, v'.tasks) by {
      hide RepliesTo, PumpOk, TasksOk, Lawful, StreamsOk, Delivery, Answered;
    }
    hide Enabled, Next, Lawful, StreamsOk, IdsUsed, PumpOk, TasksOk, AllAnswered, SeenOpen, RemovalsOk, FramesOk;
  }

  lemma PeerSendsKeeps(v: Server, r: Request)
    requires Inv(v) && Enabled(v, PeerSends(r))
    ensures Inv(Next(v, PeerSends(r)))
  {
    var v' := Next(v, PeerSends(r));
    if !r.badParams && (r.target.StreamData? || r.target.StreamEnded?) {
      assert Visible(v, r.target.stream) && r.target.stream !in v.peerEnded;
      assert SeenBy(v.sent, v.drained, r.target.stream);
    }
    RemovalsQueued(v, v', r);
    FramesQueued(v, v', r);
    hide Enabled, Lawful, StreamsOk, IdsUsed, PumpOk, TasksOk, AllAnswered, SeenOpen, RemovalsOk, FramesOk;
  }

  /** A new frame reopens nothing. */
  lemma RemovalsQueued(v: Server, v': Server, r: Request)
    requires RemovalsOk(v.inbox, v.peerEnded, v.ending, v.tasks)
    requires v'.inbox == v.inbox + [r] && v'.ending == v.ending && v'.tasks == v.tasks && v.peerEnded <= v'.peerEnded
    requires !r.badParams && r.target.StreamData? ==> r.target.stream !in v.peerEnded
    ensures RemovalsOk(v'.inbox, v'.peerEnded, v'.ending, v'.tasks)
  {
    forall s | Over(v.inbox, v.peerEnded, s) ensures Over(v'.inbox, v'.peerEnded, s) {
      OverQueued(v.inbox, v.peerEnded, v'.peerEnded, r, s);
    }
    hide Over;
  }

  lemma OverQueued(inbox: seq<Request>, peerEnded: set<StreamId>, peerEnded': set<StreamId>, r: Request, s: StreamId)
    requires Over(inbox, peerEnded, s) && peerEnded <= peerEnded'
    requires !r.badParams && r.target.StreamData? ==> r.target.stream !in peerEnded
    ensures Over(inbox + [r], peerEnded', s)
  {
  }

  lemma FramesQueued(v: Server, v': Server, r: Request)
    requires FramesOk(v.inbox, v.readers.Keys, v.peerEnded)
    requires v'.inbox == v.inbox + [r] && v'.readers == v.readers && v.peerEnded <= v'.peerEnded
    requires !r.badParams && r.target.StreamData? ==> r.target.stream !in v.peerEnded && r.target.stream in v.readers
    requires !r.badParams && r.target.StreamEnded? ==> r.target.stream in v'.peerEnded
    ensures FramesOk(v'.inbox, v'.readers.Keys, v'.peerEnded)
  {
    forall i | 0 <= i < |v'.inbox| ensures FrameOk(v'.inbox, i, v'.readers.Keys, v'.peerEnded) {
      if i < |v.inbox| {
        assert FrameOk(v.inbox, i, v.readers.Keys, v.peerEnded);
        assert v'.inbox[i + 1..] == v.inbox[i + 1..] + [r];
        if !v.inbox[i].badParams && v.inbox[i].target.StreamEnded? {
          OverQueued(v.inbox[i + 1..], v.peerEnded, v'.peerEnded, r, v.inbox[i].target.stream);
        }
      }
    }
  }

  // ---------- dispatching a frame ----------

  /** The frame leaves the inbox; the rest of the inbox keeps its promises. */
  lemma InboxTaken(v: Server)
    requires Delivery(v) && v.inbox != []
    ensures RemovalsOk(v.inbox[1..], v.peerEnded, v.ending, v.tasks)
    ensures FramesOk(v.inbox[1..], v.readers.Keys, v.peerEnded)
    ensures var r := v.inbox[0];
            (!r.badParams && r.target.StreamEnded? ==> Over(v.inbox[1..], v.peerEnded, r.target.stream)) &&
            (!r.badParams && r.target.StreamData? ==> r.target.stream in v.registered)
  {
    var rest, r := v.inbox[1..], v.inbox[0];
    assert FrameOk(v.inbox, 0, v.readers.Keys, v.peerEnded);
    forall s | Over(v.inbox, v.peerEnded, s) ensures Over(rest, v.peerEnded, s) {
    }
    forall i | 0 <= i < |rest| ensures FrameOk(rest, i, v.readers.Keys, v.peerEnded) {
      assert FrameOk(v.inbox, i + 1, v.readers.Keys, v.peerEnded);
      assert rest[i + 1..] == v.inbox[i + 2..];
    }
    if !r.badParams && r.target.StreamData? {
      assert IsData(v.inbox[0], r.target.stream);
      assert !Over(v.inbox, v.peerEnded, r.target.stream);
    }
    hide Over, FrameOk;
  }

  lemma StartedCall(calls: seq<Request>, sent: seq<Msg>, call: nat)
    requires Lawful(calls, sent) && StartedIn(sent, call)
    ensures call < |calls|
  {
    var j :| 0 <= j < |sent| && sent[j].Started? && sent[j].call == call;
    assert LawfulAfter(calls, sent[..j], sent[j]);
  }

  /** One more dispatched call; who answers it remains to be said. */
  lemma MoreCalls(v: Server, r: Request)
    requires Inv(v) && v.pump.Listening?
    ensures Lawful(v.calls + [r], v.sent) && TasksOk(v.calls + [r], v.sent, v.tasks)
    ensures RepliesTo(v.sent, |v.calls|) == 0 && |v.calls| !in v.tasks && !StartedIn(v.sent, |v.calls|)
    ensures forall s: StreamId :: AnnouncedIn(v.sent, s) ==> s in v.readers.Keys
  {
    LawfulMoreCalls(v.calls, r, v.sent);
    if StartedIn(v.sent, |v.calls|) {
      StartedCall(v.calls, v.sent, |v.calls|);
    }
    hide RepliesTo, AnnouncedIn, StartedIn, Lawful, LawfulAfter;
  }

  /** The call becomes a spawned task. */
  lemma DispatchTask(v: Server, v': Server, t: Task)
    requires Inv(v) && v.pump.Listening? && v.inbox != [] && !OpensStreams(v.inbox[0])
    requires t.removing.Some? ==> Over(v.inbox[1..], v.peerEnded, t.removing.value)
    requires v' == v.(inbox := v.inbox[1..], calls := v.calls + [v.inbox[0]], tasks := v.tasks[|v.calls| := t])
    ensures Inv(v')
  {
    MoreCalls(v, v.inbox[0]);
    InboxTaken(v);
    assert TasksOk(v'.calls, v'.sent, v'.tasks) && AllAnswered(v'.pump, v'.calls, v'.sent, v'.tasks) by {
      hide RepliesTo, StartedIn, Delivery, Lawful, StreamsOk;
    }
    assert RemovalsOk(v'.inbox, v'.peerEnded, v'.ending, v'.tasks) by {
      hide Over, Inv;
    }
    assert PumpOk(v'.pump, v'.calls, v'.sent, v'.tasks, v'.readers.Keys, v'.next);
    hide Lawful, StreamsOk, IdsUsed, TasksOk, AllAnswered, PumpOk, SeenOpen, RemovalsOk, FramesOk;
  }

  /** The call is answered in place, or needs no answer. */
  lemma DispatchNow(v: Server, v': Server, ok: bool)
    requires Inv(v) && v.pump.Listening? && v.inbox != [] && !OpensStreams(v.inbox[0])
    requires v' == AnswerNow(v.(inbox := v.inbox[1..], calls := v.calls + [v.inbox[0]]), |v.calls|, v.inbox[0], ok)
    ensures Inv(v')
  {
    MoreCalls(v, v.inbox[0]);
    InboxTaken(v);
    assert AllAnswered(v'.pump, v'.calls, v'.sent, v'.tasks) by {
      hide RepliesTo, StartedIn, AnnouncedIn, Delivery, Lawful, StreamsOk, TasksOk, PumpOk, VerdictOf;
    }
    if v.inbox[0].id.Some? {
      AnswerLawful(v.calls, v.inbox[0], v.sent, ok);
    }
    assert PumpOk(v'.pump, v'.calls, v'.sent, v'.tasks, v'.readers.Keys, v'.next) by {
      hide LawfulAfter, Delivery, Lawful, StreamsOk, TasksOk, AllAnswered, AnnouncedIn;
    }
    hide Lawful, StreamsOk, IdsUsed, TasksOk, AllAnswered, PumpOk, SeenOpen, RemovalsOk, FramesOk;
  }

  lemma AnswerLawful(calls: seq<Request>, r: Request, sent: seq<Msg>, ok: bool)
    requires r.id.Some? && !OpensStreams(r) && RepliesTo(sent, |calls|) == 0
    ensures LawfulAfter(calls + [r], sent, Reply(|calls|, r.id.value, VerdictOf(r, ok)))
  {
  }

  /** The call gets fresh streams to announce. */
  lemma DispatchDuplex(v: Server, v': Server, req: Id)
    requires Inv(v) && v.pump.Listening? && v.inbox != [] && OpensStreams(v.inbox[0])
    requires var n := v.inbox[0].target.streams;
             v' == v.(inbox := v.inbox[1..], calls := v.calls + [v.inbox[0]], next := v.next + n,
                      pump := Announcing(|v.calls|, req, seq(n, i requires 0 <= i < n => v.next + i)))
    ensures Inv(v')
  {
    MoreCalls(v, v.inbox[0]);
    InboxTaken(v);
    forall s | s in v'.pump.streams ensures s < v'.next && !AnnouncedIn(v.sent, s) && s !in v.readers.Keys {
      assert StreamAt(v.sent, s, v.readers, v.read);
    }
    assert AllAnswered(v'.pump, v'.calls, v'.sent, v'.tasks) by {
      hide RepliesTo, StartedIn, Delivery, Lawful, StreamsOk;
    }
    assert PumpOk(v'.pump, v'.calls, v'.sent, v'.tasks, v'.readers.Keys, v'.next) by {
      hide RepliesTo, StartedIn, Delivery, Lawful, StreamsOk, TasksOk, AllAnswered, AnnouncedIn;
    }
    hide Lawful, StreamsOk, TasksOk, AllAnswered, PumpOk, SeenOpen, RemovalsOk, FramesOk, AnnouncedIn;
  }

  lemma DispatchKeeps(v: Server, ok: bool)
    requires Inv(v) && Enabled(v, Event.Dispatch(ok))
    ensures Inv(Next(v, Event.Dispatch(ok)))
  {
    var v', r := Next(v, Event.Dispatch(ok)), v.inbox[0];
    match r.target
    case Unknown => DispatchNow(v, v', ok);
    case Sync => DispatchNow(v, v', ok);
    case StreamData(s, _) =>
      InboxTaken(v);
      DispatchNow(v, v', ok);
    case Async => DispatchTask(v, v', Task(None));
    case StreamEnded(s) =>
      InboxTaken(v);
      DispatchTask(v, v', Task(if r.badParams then None else Some(s)));
    case Duplex(n) =>
      if r.badParams {
        DispatchTask(v, v', Task(None));
      } else {
        DispatchDuplex(v, v', match r.id case Some(i) => i case None => 0);
      }
  }

  lemma InvKept(v: Server, e: Event)
    requires Inv(v) && Enabled(v, e)
    ensures Inv(Next(v, e))
  {
    hide Inv, Enabled, Next;
    match e
    case PeerSends(r) => PeerSendsKeeps(v, r);
    case Dispatch(ok) => DispatchKeeps(v, ok);
    case Answer => AnswerKeeps(v);
    case Announce => AnnounceKeeps(v);
    case Open => OpenKeeps(v);
    case Forward => ForwardKeeps(v);
    case RunTask(call, ok) => RunTaskKeeps(v, call, ok);
    case Expire(s) => ExpireKeeps(v, s);
    case ReaderReads(_, _) => ReaderKeeps(v, e);
    case ReaderEof(_) => ReaderKeeps(v, e);
    case ReaderSends(s) => ReaderSendsKeeps(v, s);
    case Stop => StopKeeps(v);
  }

  // ---------- every run ----------

  ghost predicate Runs(v: Server, events: seq<Event>)
    decreases |events|
  {
    events == [] || (Enabled(v, events[0]) && Runs(Next(v, events[0]), events[1..]))
  }

  ghost function After(v: Server, events: seq<Event>): Server
    requires Runs(v, events)
    decreases |events|
  {
    if events == [] then v else After(Next(v, events[0]), events[1..])
  }

  lemma {:induction false} RunKeeps(v: Server, events: seq<Event>)
    requires Inv(v) && Runs(v, events)
    ensures Inv(After(v, events))
    decreases |events|
  {
    if events != [] {
      InvKept(v, events[0]);
      RunKeeps(Next(v, events[0]), events[1..]);
    }
  }

  lemma RunInv(events: seq<Event>)
    requires Runs(IDLE, events)
    ensures Inv(After(IDLE, events))
  {
    RunKeeps(IDLE, events);
  }

  /** `streams_started` comes before every message of its streams, and before
      the reply of its duplex call. */
  lemma StartedFirst(events: seq<Event>, i: nat)
    requires Runs(IDLE, events) && i < |After(IDLE, events).sent|
    ensures var v := After(IDLE, events);
            match v.sent[i]
            case Data(s, _) => exists j :: 0 <= j < i && Announces(v.sent[j], s)
            case End(s) => exists j :: 0 <= j < i && Announces(v.sent[j], s)
            case Reply(call, _, _) =>
              call < |v.calls| &&
              (OpensStreams(v.calls[call]) ==> exists j :: 0 <= j < i && v.sent[j].Started? && v.sent[j].call == call)
            case Started(_, _, _) => true
  {
    RunInv(events);
    var v := After(IDLE, events);
    assert LawfulAfter(v.calls, v.sent[..i], v.sent[i]);
  }

  /** A stream's data messages are the bytes read from its handler, in order;
      one end message follows them, once the handler has ended and no send
      failed. */
  lemma StreamContents(events: seq<Event>, s: StreamId)
    requires Runs(IDLE, events) && s in After(IDLE, events).readers
    ensures var v := After(IDLE, events);
            s in v.read && EndsOf(v.sent, s) <= 1 && DataOf(v.sent, s) <= v.read[s] &&
            (EndsOf(v.sent, s) == 1 <==> v.readers[s].Done?) &&
            (v.readers[s].Done? || v.readers[s].Reading? || v.readers[s].SendingEnd? ==> DataOf(v.sent, s) == v.read[s])
  {
    RunInv(events);
    var v := After(IDLE, events);
    assert StreamAt(v.sent, s, v.readers, v.read);
  }

  /** Nothing of a stream follows its end. */
  lemma NothingAfterEnd(events: seq<Event>, i: nat, j: nat, s: StreamId)
    requires Runs(IDLE, events) && i < j < |After(IDLE, events).sent|
    requires After(IDLE, events).sent[i] == End(s)
    ensures var m := After(IDLE, events).sent[j]; !(m.Data? && m.stream == s) && m != End(s)
  {
    RunInv(events);
    var v := After(IDLE, events);
    assert LawfulAfter(v.calls, v.sent[..j], v.sent[j]);
    EndCounted(v.sent[..j], i, s);
  }

  lemma {:induction false} EndCounted(sent: seq<Msg>, i: nat, s: StreamId)
    requires i < |sent| && sent[i] == End(s)
    ensures EndsOf(sent, s) > 0
  {
    if i < |sent| - 1 {
      EndCounted(sent[..|sent| - 1], i, s);
    }
  }

  /** A peer that waits for `streams_started` never has a segment dropped. */
  lemma NothingDropped(events: seq<Event>)
    requires Runs(IDLE, events)
    ensures After(IDLE, events).dropped == []
  {
    RunInv(events);
  }

  /** Each dispatched request is answered at most once, under its own id and
      with the code its case calls for; requests without an id never are. Once
      nothing works on it any more, and the pump runs, it has its one reply. */
  lemma OneReply(events: seq<Event>, call: nat)
    requires Runs(IDLE, events) && call < |After(IDLE, events).calls|
    ensures var v := After(IDLE, events);
            RepliesTo(v.sent, call) <= 1 &&
            (v.calls[call].id.None? ==> RepliesTo(v.sent, call) == 0) &&
            (!v.pump.Stopped? && !Pending(v.pump, v.tasks, call) ==>
              Answered(v.calls[call], RepliesTo(v.sent, call))) &&
            forall i :: 0 <= i < |v.sent| && v.sent[i].Reply? && v.sent[i].call == call ==>
              v.calls[call].id == Some(v.sent[i].id) && VerdictFits(v.calls[call], v.sent[i].verdict)
  {
    RunInv(events);
    var v := After(IDLE, events);
    forall i | 0 <= i < |v.sent| && v.sent[i].Reply? && v.sent[i].call == call
      ensures v.calls[call].id == Some(v.sent[i].id) && VerdictFits(v.calls[call], v.sent[i].verdict)
    {
      assert LawfulAfter(v.calls, v.sent[..i], v.sent[i]);
    }
  }
}
