/** The message pump together with the duplex streams it feeds: what a peer sends
    on a stream, through dispatch, record, queue and write loop, up to the half
    its handler reads from. */
module RpcStreams {
  import opened Sequences
  import opened Delivery
  import P = RpcPump
  import O = RpcOrder
  import S = StreamSystem
  import T = Streams
  import D = StreamDrain

  /** `said` records the segments the peer has sent on each stream. */
  datatype Joint = Joint(pump: P.Server, table: S.System, said: History)

  const START := Joint(P.IDLE, S.EMPTY, map[])

  /** One event is a step of the pump that concerns no record, a step of the pump
      with the lock region it enters, or a step of a stream's own task. */
  datatype Event =
    | Pump(step: P.Event)
    | Open(half: T.WriteHalf)
    | Deliver(ok: bool, spawn: nat)
    | Remove(call: nat, ok: bool, spawn: nat)
    | Work(work: S.Event)

  predicate CarriesData(v: P.Server) {
    v.inbox != [] && v.inbox[0].target.StreamData? && !v.inbox[0].badParams
  }

  predicate Removes(v: P.Server, call: nat) {
    call in v.tasks && v.tasks[call].removing.Some?
  }

  predicate ConcernsRecord(v: P.Server, e: P.Event) {
    match e
    case Dispatch(_) => CarriesData(v)
    case Open => v.pump.Opening? && v.pump.streams != []
    case RunTask(call, _) => Removes(v, call)
    case Expire(_) => true
    case _ => false
  }

  ghost predicate Enabled(j: Joint, e: Event) {
    match e
    case Pump(step) => P.Enabled(j.pump, step) && !ConcernsRecord(j.pump, step)
    case Open(half) =>
      P.Enabled(j.pump, P.Event.Open) && ConcernsRecord(j.pump, P.Event.Open) && half !in j.table.streams
    case Deliver(ok, spawn) => P.Enabled(j.pump, P.Dispatch(ok)) && CarriesData(j.pump) && spawn !in j.table.tasks
    case Remove(call, ok, spawn) =>
      P.Enabled(j.pump, P.RunTask(call, ok)) && Removes(j.pump, call) && spawn !in j.table.tasks
    case Work(work) => D.IsTaskEvent(work) && S.Enabled(j.table, work)
  }

  type History = map<P.StreamId, seq<Segment>>

  function Said(said: History, id: P.StreamId): seq<Segment> {
    if id in said then said[id] else []
  }

  function SaidMore(said: History, r: P.Request): History {
    if r.target.StreamData? && !r.badParams then
      said[r.target.stream := Said(said, r.target.stream) + [r.target.segment]]
    else said
  }

  /** The pump's set of records is the table's; a record that goes leaves both. */
  function Synced(v: P.Server, table: S.System): P.Server {
    v.(registered := v.registered * table.table.Keys)
  }

  ghost function Next(j: Joint, e: Event): Joint
    requires Enabled(j, e)
  {
    match e
    case Pump(step) =>
      Joint(P.Next(j.pump, step), j.table, if step.PeerSends? then SaidMore(j.said, step.request) else j.said)
    case Open(half) =>
      Joint(P.Next(j.pump, P.Event.Open), S.Next(j.table, S.Insert(j.pump.pump.streams[0], half)), j.said)
    case Deliver(ok, spawn) =>
      var target := j.pump.inbox[0].target;
      Joint(P.Next(j.pump, P.Dispatch(ok)), S.Next(j.table, S.Write(target.stream, target.segment, spawn)), j.said)
    case Remove(call, ok, spawn) =>
      var table := S.Next(j.table, S.Event.Remove(j.pump.tasks[call].removing.value, spawn));
      Joint(Synced(P.Next(j.pump, P.RunTask(call, ok)), table), table, j.said)
    case Work(work) =>
      var table := S.Next(j.table, work);
      Joint(Synced(j.pump, table), table, j.said)
  }

  // ---------- the coupling ----------

  /** The segments for a stream that wait to be dispatched. */
  function Waiting(inbox: seq<P.Request>, id: P.StreamId): seq<Segment> {
    if inbox == [] then []
    else (if O.IsData(inbox[0], id) then [inbox[0].target.segment] else []) + Waiting(inbox[1..], id)
  }

  function Accepted(table: S.System, id: P.StreamId): seq<Segment> {
    if id in table.current && table.current[id] in table.streams then table.streams[table.current[id]].accepted else []
  }

  /** Every stream opened by the pump is a stream of the table, and stays the
      current one of its id. */
  ghost predicate SameStreams(v: P.Server, table: S.System) {
    table.current.Keys == v.readers.Keys &&
    forall id :: id in table.current ==>
      table.current[id] in table.streams && table.streams[table.current[id]].id == id
  }

  ghost predicate SameRecords(v: P.Server, table: S.System) {
    v.registered == table.table.Keys &&
    (forall id :: id in table.table && table.table[id].ended ==> id in v.ending) &&
    (forall id :: id in table.current && id !in table.table ==> id in v.ending)
  }

  /** What the peer said is what the stream accepted and what still waits. */
  ghost predicate HeardAt(said: History, table: S.System, inbox: seq<P.Request>, id: P.StreamId) {
    Said(said, id) == Accepted(table, id) + Waiting(inbox, id)
  }

  ghost predicate AllHeard(said: History, table: S.System, inbox: seq<P.Request>) {
    forall id: P.StreamId :: HeardAt(said, table, inbox, id)
  }

  ghost predicate Inv(j: Joint) {
    O.Inv(j.pump) && S.Inv(j.table) && SameStreams(j.pump, j.table) && SameRecords(j.pump, j.table) &&
    AllHeard(j.said, j.table, j.pump.inbox)
  }

  lemma {:induction false} WaitingSnoc(inbox: seq<P.Request>, r: P.Request, id: P.StreamId)
    ensures Waiting(inbox + [r], id) == Waiting(inbox, id) + if O.IsData(r, id) then [r.target.segment] else []
  {
    var all := inbox + [r];
    assert all != [];
    if inbox == [] {
      assert all[0] == r && all[1..] == [];
    } else {
      assert all[0] == inbox[0] && all[1..] == inbox[1..] + [r];
      WaitingSnoc(inbox[1..], r, id);
      hide O.IsData;
    }
  }

  lemma {:induction false} NoneWaits(inbox: seq<P.Request>, id: P.StreamId)
    requires O.NoneWaiting(inbox, id)
    ensures Waiting(inbox, id) == []
  {
    if inbox != [] {
      assert !O.IsData(inbox[0], id);
      assert forall i :: 0 <= i < |inbox[1..]| ==> inbox[1..][i] == inbox[i + 1];
      NoneWaits(inbox[1..], id);
    }
  }

  // ---------- what is said and heard ----------

  lemma MoreSaid(said: History, table: S.System, inbox: seq<P.Request>, r: P.Request)
    requires AllHeard(said, table, inbox)
    ensures AllHeard(SaidMore(said, r), table, inbox + [r])
  {
    forall id: P.StreamId ensures HeardAt(SaidMore(said, r), table, inbox + [r], id) {
      assert HeardAt(said, table, inbox, id);
      WaitingSnoc(inbox, r, id);
      hide Accepted, Waiting;
    }
  }

  lemma Skipped(said: History, table: S.System, inbox: seq<P.Request>)
    requires AllHeard(said, table, inbox) && inbox != []
    requires !(inbox[0].target.StreamData? && !inbox[0].badParams)
    ensures AllHeard(said, table, inbox[1..])
  {
    forall id: P.StreamId ensures HeardAt(said, table, inbox[1..], id) {
      assert HeardAt(said, table, inbox, id);
    }
  }

  lemma Heard(said: History, table: S.System, table': S.System, inbox: seq<P.Request>)
    requires AllHeard(said, table, inbox) && inbox != []
    requires inbox[0].target.StreamData? && !inbox[0].badParams
    requires var target := inbox[0].target;
             forall id: P.StreamId :: Accepted(table', id) ==
               Accepted(table, id) + if id == target.stream then [target.segment] else []
    ensures AllHeard(said, table', inbox[1..])
  {
    forall id: P.StreamId ensures HeardAt(said, table', inbox[1..], id) {
      assert HeardAt(said, table, inbox, id);
      hide Accepted;
    }
  }

  lemma HeardSame(said: History, table: S.System, table': S.System, inbox: seq<P.Request>)
    requires AllHeard(said, table, inbox)
    requires forall id: P.StreamId :: Accepted(table', id) == Accepted(table, id)
    ensures AllHeard(said, table', inbox)
  {
    forall id: P.StreamId ensures HeardAt(said, table', inbox, id) {
      assert HeardAt(said, table, inbox, id);
    }
  }

  // ---------- steps of the pump alone ----------

  lemma DispatchKeepsRecords(v: P.Server, ok: bool)
    requires v.inbox != [] && !CarriesData(v)
    ensures var v' := P.Dispatched(v, ok);
            v'.registered == v.registered && v'.ending == v.ending && v'.readers == v.readers &&
            v'.inbox == v.inbox[1..]
  {
    P.DispatchedIs(v, ok);
    hide P.Dispatched, P.VerdictOf;
  }

  lemma TaskKeepsRecords(v: P.Server, call: nat, ok: bool)
    requires call in v.tasks && call < |v.calls| && !Removes(v, call)
    ensures var v' := P.TaskRun(v, call, ok);
            v'.registered == v.registered && v'.ending == v.ending && v'.readers == v.readers && v'.inbox == v.inbox
  {
    hide P.VerdictOf;
  }

  /** Such a step leaves the pump's side of the coupling alone, but for the inbox. */
  lemma PumpKeepsRecords(v: P.Server, e: P.Event)
    requires P.Enabled(v, e) && !ConcernsRecord(v, e)
    ensures var v' := P.Next(v, e);
            v'.registered == v.registered && v'.ending == v.ending && v'.readers.Keys == v.readers.Keys
    ensures P.Next(v, e).inbox ==
            if e.PeerSends? then v.inbox + [e.request] else if e.Dispatch? then v.inbox[1..] else v.inbox
  {
    hide P.PeerMaySend, P.Dispatched, P.TaskRun;
    if e.Dispatch? {
      DispatchKeepsRecords(v, e.ok);
    } else if e.RunTask? {
      TaskKeepsRecords(v, e.call, e.ok);
    }
  }

  lemma PumpKeeps(j: Joint, e: Event)
    requires Inv(j) && e.Pump? && Enabled(j, e)
    ensures Inv(Next(j, e))
  {
    var step := e.step;
    assert step.Dispatch? ==> !CarriesData(j.pump) && j.pump.inbox != [];
    O.InvKept(j.pump, step);
    PumpKeepsRecords(j.pump, step);
    hide P.Next, P.Enabled, O.Inv, S.Inv, AllHeard, ConcernsRecord;
    if step.PeerSends? {
      MoreSaid(j.said, j.table, j.pump.inbox, step.request);
    } else if step.Dispatch? {
      Skipped(j.said, j.table, j.pump.inbox);
    }
  }

  // ---------- opening a stream ----------

  lemma PumpOpens(v: P.Server)
    requires P.Enabled(v, P.Event.Open) && ConcernsRecord(v, P.Event.Open)
    ensures var v', s := P.Next(v, P.Event.Open), v.pump.streams[0];
            v'.registered == v.registered + {s} && v'.ending == v.ending && v'.inbox == v.inbox &&
            v'.readers.Keys == v.readers.Keys + {s}
  {
  }

  lemma FreshStream(v: P.Server)
    requires O.Inv(v) && v.pump.Opening? && v.pump.streams != []
    ensures v.pump.streams[0] !in v.readers.Keys
  {
    hide O.Lawful, O.StreamsOk, O.AllAnswered, O.Delivery;
    assert v.pump.streams[0] in v.pump.streams;
  }

  lemma TableOpens(table: S.System, id: P.StreamId, half: T.WriteHalf)
    requires half !in table.streams && id !in table.current
    ensures var table' := S.Next(table, S.Insert(id, half));
            table'.table == table.table[id := T.StreamRec(Some(half), [], false)] &&
            table'.current == table.current[id := half] &&
            (forall other: P.StreamId :: Accepted(table', other) == Accepted(table, other)) &&
            half in table'.streams && table'.streams[half].id == id &&
            forall h :: h in table.streams ==> h in table'.streams && table'.streams[h].id == table.streams[h].id
  {
  }

  lemma CouplingOpens(v: P.Server, v': P.Server, table: S.System, table': S.System, id: P.StreamId, half: T.WriteHalf)
    requires SameStreams(v, table) && SameRecords(v, table)
    requires v'.registered == v.registered + {id} && v'.ending == v.ending && v'.readers.Keys == v.readers.Keys + {id}
    requires table'.table == table.table[id := T.StreamRec(Some(half), [], false)]
    requires table'.current == table.current[id := half]
    requires half in table'.streams && table'.streams[half].id == id
    requires forall h :: h in table.streams ==> h in table'.streams && table'.streams[h].id == table.streams[h].id
    ensures SameStreams(v', table') && SameRecords(v', table')
  {
  }

  lemma OpenKeeps(j: Joint, e: Event)
    requires Inv(j) && e.Open? && Enabled(j, e)
    ensures Inv(Next(j, e))
  {
    var v, table, id := j.pump, j.table, j.pump.pump.streams[0];
    var insert := S.Insert(id, e.half);
    FreshStream(v);
    RecordsCurrent(table);
    assert id !in table.current && S.Careful(table, insert);
    var v', table' := P.Next(v, P.Event.Open), S.Next(table, insert);
    assert Next(j, e) == Joint(v', table', j.said);
    PumpOpens(v);
    TableOpens(table, id, e.half);
    hide *;
    O.InvKept(v, P.Event.Open);
    S.InvKept(table, insert);
    CouplingOpens(v, v', table, table', id, e.half);
    HeardSame(j.said, table, table', v.inbox);
    Together(Next(j, e));
  }

  lemma Together(j: Joint)
    requires O.Inv(j.pump) && S.Inv(j.table) && SameStreams(j.pump, j.table) && SameRecords(j.pump, j.table)
    requires AllHeard(j.said, j.table, j.pump.inbox)
    ensures Inv(j)
  {
  }

  /** Every record stands under an id with a current stream. */
  lemma RecordsCurrent(table: S.System)
    requires S.Inv(table)
    ensures table.table.Keys <= table.current.Keys
  {
  }

  // ---------- delivering a segment ----------

  /** Nothing is dropped: the segment finds its record. */
  lemma PumpDelivers(v: P.Server, ok: bool)
    requires O.Inv(v) && P.Enabled(v, P.Dispatch(ok)) && CarriesData(v)
    ensures var v' := P.Next(v, P.Dispatch(ok));
            v.inbox[0].target.stream in v.registered &&
            v'.registered == v.registered && v'.ending == v.ending && v'.inbox == v.inbox[1..] &&
            v'.readers == v.readers
  {
    O.InvKept(v, P.Dispatch(ok));
    var v' := P.Next(v, P.Dispatch(ok));
    assert v'.dropped == [];
    hide O.Inv, P.VerdictOf;
    assert v' == P.Dispatched(v, ok);
  }

  ghost predicate OwnStreams(table: S.System) {
    forall i :: i in table.current ==>
      table.current[i] in table.streams && table.streams[table.current[i]].id == i
  }

  lemma TableHears(table: S.System, id: P.StreamId, segment: Segment, spawn: nat)
    requires S.Enabled(table, S.Write(id, segment, spawn)) && S.HasStream(table, id) && OwnStreams(table)
    ensures var table' := S.Next(table, S.Write(id, segment, spawn));
            KeepsRecords(table, table') && table'.current == table.current && KeepsStreams(table, table') &&
            forall i: P.StreamId :: Accepted(table', i) == Accepted(table, i) + if i == id then [segment] else []
  {
    var table' := S.Next(table, S.Write(id, segment, spawn));
    assert table'.streams == S.Accepted(table, id, segment) && table'.current == table.current;
    WriteRecords(table, id, segment);
    hide S.Next, S.Enabled;
    forall i: P.StreamId ensures Accepted(table', i) == Accepted(table, i) + if i == id then [segment] else [] {
      assert i in table.current && i != id ==> table.current[i] != table.current[id];
    }
  }

  lemma WriteRecords(table: S.System, id: P.StreamId, segment: Segment)
    ensures var records := T.Written(table.table, id, segment).0;
            records.Keys == table.table.Keys && forall i :: i in records ==> records[i].ended == table.table[i].ended
  {
  }

  /** The same records stand, and are ended if they were. */
  ghost predicate KeepsRecords(table: S.System, table': S.System) {
    table'.table.Keys == table.table.Keys &&
    forall id :: id in table.table ==> table'.table[id].ended == table.table[id].ended
  }

  ghost predicate KeepsStreams(table: S.System, table': S.System) {
    forall h :: h in table.streams ==> h in table'.streams && table'.streams[h].id == table.streams[h].id
  }

  lemma CouplingKept(v: P.Server, v': P.Server, table: S.System, table': S.System)
    requires SameStreams(v, table) && SameRecords(v, table)
    requires v'.registered == v.registered && v'.ending == v.ending && v'.readers.Keys == v.readers.Keys
    requires KeepsRecords(table, table') && table'.current == table.current && KeepsStreams(table, table')
    ensures SameStreams(v', table') && SameRecords(v', table')
  {
  }

  lemma DeliverKeeps(j: Joint, e: Event)
    requires Inv(j) && e.Deliver? && Enabled(j, e)
    ensures Inv(Next(j, e))
  {
    var v, table, dispatch := j.pump, j.table, P.Dispatch(e.ok);
    var target := v.inbox[0].target;
    var write := S.Write(target.stream, target.segment, e.spawn);
    assert S.Careful(table, write);
    PumpDelivers(v, e.ok);
    assert S.HasStream(table, target.stream) && OwnStreams(table);
    TableHears(table, target.stream, target.segment, e.spawn);
    var v', table' := P.Next(v, dispatch), S.Next(table, write);
    assert Next(j, e) == Joint(v', table', j.said);
    assert target.StreamData? && !v.inbox[0].badParams && v.inbox != [];
    hide *;
    O.InvKept(v, dispatch);
    S.InvKept(table, write);
    CouplingKept(v, v', table, table');
    Heard(j.said, table, table', v.inbox);
    Together(Next(j, e));
  }

  // ---------- removing a stream ----------

  /** The only record that may have gone is the one under `id`, which was ended. */
  ghost predicate DropsRecord(v: P.Server, table: S.System, table': S.System, id: P.StreamId) {
    table'.table.Keys <= table.table.Keys && table.table.Keys <= table'.table.Keys + {id} &&
    (forall i :: i in table'.table && i != id ==> table'.table[i].ended == table.table[i].ended) &&
    table'.current == table.current && KeepsStreams(table, table')
  }

  lemma CouplingDrops(v: P.Server, v': P.Server, table: S.System, table': S.System, id: P.StreamId)
    requires SameStreams(v, table) && SameRecords(v, table) && DropsRecord(v, table, table', id)
    requires v'.registered == v.registered && v'.readers.Keys == v.readers.Keys
    requires v.ending <= v'.ending && id in v'.ending
    ensures SameStreams(Synced(v', table'), table') && SameRecords(Synced(v', table'), table')
  {
  }

  /** Dropping the record on the pump's side is the pump's own step. */
  lemma SyncedKeeps(v: P.Server, table': S.System, id: P.StreamId)
    requires O.Inv(v) && v.registered <= table'.table.Keys + {id} && id in v.ending
    ensures O.Inv(Synced(v, table'))
  {
    var v' := Synced(v, table');
    if id in table'.table {
      assert v'.registered == v.registered;
      assert v' == v;
    } else {
      assert v'.registered == v.registered - {id};
      assert P.Enabled(v, P.Expire(id)) && v' == P.Next(v, P.Expire(id));
      hide *;
      O.InvKept(v, P.Expire(id));
    }
  }

  lemma PumpRemoves(v: P.Server, call: nat, ok: bool)
    requires P.Enabled(v, P.RunTask(call, ok)) && Removes(v, call)
    ensures var v' := P.Next(v, P.RunTask(call, ok));
            v'.registered == v.registered && v'.ending == v.ending + {v.tasks[call].removing.value} &&
            v'.inbox == v.inbox && v'.readers == v.readers
  {
    hide P.VerdictOf;
  }

  lemma TableRemoves(v: P.Server, table: S.System, id: P.StreamId, spawn: nat)
    requires S.Enabled(table, S.Event.Remove(id, spawn))
    ensures var table' := S.Next(table, S.Event.Remove(id, spawn));
            DropsRecord(v, table, table', id) && forall i: P.StreamId :: Accepted(table', i) == Accepted(table, i)
  {
  }

  lemma RemoveKeeps(j: Joint, e: Event)
    requires Inv(j) && e.Remove? && Enabled(j, e)
    ensures Inv(Next(j, e))
  {
    var v, table, run := j.pump, j.table, P.RunTask(e.call, e.ok);
    var id := v.tasks[e.call].removing.value;
    var remove := S.Event.Remove(id, e.spawn);
    assert S.Careful(table, remove);
    PumpRemoves(v, e.call, e.ok);
    TableRemoves(v, table, id, e.spawn);
    var v', table' := P.Next(v, run), S.Next(table, remove);
    assert Next(j, e) == Joint(Synced(v', table'), table', j.said);
    assert v'.registered <= table'.table.Keys + {id};
    assert Synced(v', table').inbox == v.inbox;
    hide *;
    O.InvKept(v, run);
    S.InvKept(table, remove);
    CouplingDrops(v, v', table, table', id);
    SyncedKeeps(v', table', id);
    HeardSame(j.said, table, table', v.inbox);
    Together(Next(j, e));
  }

  // ---------- the streams' own steps ----------

  /** A stream's task drops a record only when it is ended. */
  lemma TableWorks(v: P.Server, table: S.System, e: S.Event) returns (id: P.StreamId)
    requires S.Inv(table) && D.IsTaskEvent(e) && S.Enabled(table, e)
    ensures var table' := S.Next(table, e);
            (KeepsRecords(table, table') && table'.current == table.current && KeepsStreams(table, table')) ||
            (DropsRecord(v, table, table', id) && id in table.table && table.table[id].ended)
    ensures forall i: P.StreamId :: Accepted(S.Next(table, e), i) == Accepted(table, i)
  {
    S.TaskStage(table, e.task);
    id := table.tasks[e.task].id;
    if e.TakeTurn? {
      assert id in table.table;
      hide S.Inv, S.Busy, S.Ending;
      TurnWorks(v, table, e, id);
    } else {
      hide S.Inv, S.Busy, S.Ending;
      BatchWorks(table, e);
    }
  }

  lemma BatchWorks(table: S.System, e: S.Event)
    requires D.IsTaskEvent(e) && !e.TakeTurn? && S.Enabled(table, e)
    ensures var table' := S.Next(table, e);
            table'.table == table.table && table'.current == table.current && KeepsStreams(table, table') &&
            forall i: P.StreamId :: Accepted(table', i) == Accepted(table, i)
  {
  }

  lemma TurnWorks(v: P.Server, table: S.System, e: S.Event, id: P.StreamId)
    requires e.TakeTurn? && S.Enabled(table, e) && id == table.tasks[e.task].id && id in table.table
    ensures var table' := S.Next(table, e);
            (KeepsRecords(table, table') && table'.current == table.current && KeepsStreams(table, table')) ||
            (DropsRecord(v, table, table', id) && table.table[id].ended)
    ensures S.Next(table, e).streams == table.streams && S.Next(table, e).current == table.current
  {
  }

  lemma WorkKeeps(j: Joint, e: Event)
    requires Inv(j) && e.Work? && Enabled(j, e)
    ensures Inv(Next(j, e))
  {
    var v, table, work := j.pump, j.table, e.work;
    assert S.Careful(table, work);
    var id := TableWorks(v, table, work);
    var table' := S.Next(table, work);
    assert Next(j, e) == Joint(Synced(v, table'), table', j.said);
    assert Synced(v, table').inbox == v.inbox;
    if KeepsRecords(table, table') && table'.current == table.current && KeepsStreams(table, table') {
      assert Synced(v, table') == v by {
        assert v.registered * table'.table.Keys == v.registered;
      }
      hide *;
      S.InvKept(table, work);
      CouplingKept(v, v, table, table');
      HeardSame(j.said, table, table', v.inbox);
      Together(Next(j, e));
    } else {
      assert id in v.ending && v.registered <= table'.table.Keys + {id};
      hide *;
      S.InvKept(table, work);
      CouplingDrops(v, v, table, table', id);
      SyncedKeeps(v, table', id);
      HeardSame(j.said, table, table', v.inbox);
      Together(Next(j, e));
    }
  }

  lemma InvKept(j: Joint, e: Event)
    requires Inv(j) && Enabled(j, e)
    ensures Inv(Next(j, e))
  {
    hide Inv, Enabled, Next;
    match e
    case Pump(_) => PumpKeeps(j, e);
    case Open(_) => OpenKeeps(j, e);
    case Deliver(_, _) => DeliverKeeps(j, e);
    case Remove(_, _, _) => RemoveKeeps(j, e);
    case Work(_) => WorkKeeps(j, e);
  }

  // ---------- every run ----------

  ghost predicate Runs(j: Joint, events: seq<Event>)
    decreases |events|
  {
    events == [] || (Enabled(j, events[0]) && Runs(Next(j, events[0]), events[1..]))
  }

  ghost function After(j: Joint, events: seq<Event>): Joint
    requires Runs(j, events)
    decreases |events|
  {
    if events == [] then j else After(Next(j, events[0]), events[1..])
  }

  lemma {:induction false} RunKeeps(j: Joint, events: seq<Event>)
    requires Inv(j) && Runs(j, events)
    ensures Inv(After(j, events))
    decreases |events|
  {
    hide Inv, Enabled, Next;
    if events != [] {
      InvKept(j, events[0]);
      RunKeeps(Next(j, events[0]), events[1..]);
    }
  }

  lemma StartInv()
    ensures Inv(START)
  {
    O.RunInv([]);
    S.RunInv([]);
    assert AllHeard(map[], S.EMPTY, []);
  }

  /** In every run, what a waiting peer sent on an open stream is what its stream
      accepted, followed by what waits to be dispatched. Of the former, what has
      reached the handler's side, is being written and is queued is a prefix of
      each segment in order, and all of it while no write has failed. */
  lemma PeerIsHeard(events: seq<Event>, id: P.StreamId)
    requires Runs(START, events) && id in After(START, events).pump.readers
    ensures var j := After(START, events);
            id in j.table.current && j.table.current[id] in j.table.streams &&
            var h := j.table.current[id];
            var stream := j.table.streams[h];
            var sent := stream.bytes + S.InFlight(j.table, h) + S.Queued(j.table, h);
            Said(j.said, id) == stream.accepted + Waiting(j.pump.inbox, id) &&
            Prefixes(sent, stream.accepted) && (!stream.lossy ==> sent == Flatten(stream.accepted))
  {
    StartInv();
    RunKeeps(START, events);
    var j := After(START, events);
    assert HeardAt(j.said, j.table, j.pump.inbox, id);
    S.InOrder(j.table, j.table.current[id]);
  }

  /** The handler's side of a stream is shut down only after everything the peer
      ever said on it has reached it, unless a write failed. */
  lemma ShutAfterAllHeard(events: seq<Event>, id: P.StreamId)
    requires Runs(START, events) && id in After(START, events).pump.readers
    ensures var j := After(START, events);
            id in j.table.current && j.table.current[id] in j.table.streams &&
            var stream := j.table.streams[j.table.current[id]];
            (stream.shutdowns > 0 ==>
              Prefixes(stream.bytes, Said(j.said, id)) &&
              (!stream.lossy ==> stream.bytes == Flatten(Said(j.said, id))))
  {
    StartInv();
    RunKeeps(START, events);
    var j := After(START, events);
    var h := j.table.current[id];
    assert HeardAt(j.said, j.table, j.pump.inbox, id);
    if j.table.streams[h].shutdowns > 0 {
      assert S.StreamOk(j.table, h);
      assert S.Closed(j.table, h);
      D.ClosedDrained(j.table, h);
      assert id !in j.table.table && id in j.pump.ending;
      assert O.Over(j.pump.inbox, j.pump.peerEnded, id);
      NoneWaits(j.pump.inbox, id);
      assert j.table.streams[h].accepted + [] == j.table.streams[h].accepted;
    }
  }
}
