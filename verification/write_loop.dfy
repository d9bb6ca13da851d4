/** The write loop itself, run against whatever the rest of the program does to
    the table while the loop awaits its half. Each `write_all` is one `Await`:
    how it ended, and the table operations others completed meanwhile. */
module WriteLoops {
  import opened Sequences
  import opened Delivery
  import opened Streams

  datatype Op =
    | Put(id: Id, half: WriteHalf)
    | Push(id: Id, buf: Segment)
    | Drop(id: Id)

  /** `failed` holds how many bytes left before the error, when there was one. */
  datatype Await = Await(failed: Option<nat>, meanwhile: seq<Op>)

  // ---------- what others do to one record ----------

  function Lookup(table: Table, id: Id): Option<StreamRec> {
    if id in table then Some(table[id]) else None
  }

  function RecordStep(rec: Option<StreamRec>, op: Op, id: Id): Option<StreamRec> {
    if op.id != id then rec else
      match op
      case Put(_, half) => Some(StreamRec(Some(half), [], false))
      case Push(_, buf) =>
        if rec.None? then None else Some(rec.value.(q := rec.value.q + [buf], write := None))
      case Drop(_) =>
        if rec.None? || rec.value.write.Some? then None else Some(rec.value.(ended := true))
  }

  function RecordAfter(rec: Option<StreamRec>, ops: seq<Op>, id: Id): Option<StreamRec> {
    if ops == [] then rec else RecordStep(RecordAfter(rec, ops[..|ops| - 1], id), ops[|ops| - 1], id)
  }

  predicate IsPush(op: Op, id: Id) {
    op.Push? && op.id == id
  }

  ghost predicate Reinserts(ops: seq<Op>, id: Id) {
    exists half :: Put(id, half) in ops
  }

  function Pushed(ops: seq<Op>, id: Id): seq<Segment> {
    if ops == [] then []
    else Pushed(ops[..|ops| - 1], id) + (if IsPush(ops[|ops| - 1], id) then [ops[|ops| - 1].buf] else [])
  }

  lemma {:induction false} PushedConcat(a: seq<Op>, b: seq<Op>, id: Id)
    ensures Pushed(a + b, id) == Pushed(a, id) + Pushed(b, id)
  {
    if b == [] {
      assert a + b == a;
    } else {
      assert (a + b)[..|a + b| - 1] == a + b[..|b| - 1];
      PushedConcat(a, b[..|b| - 1], id);
    }
  }

  lemma {:induction false} RecordAfterConcat(rec: Option<StreamRec>, a: seq<Op>, b: seq<Op>, id: Id)
    ensures RecordAfter(rec, a + b, id) == RecordAfter(RecordAfter(rec, a, id), b, id)
  {
    if b == [] {
      assert a + b == a;
    } else {
      assert (a + b)[..|a + b| - 1] == a + b[..|b| - 1];
      RecordAfterConcat(rec, a, b[..|b| - 1], id);
    }
  }

  /** While the loop holds the half, others can only add to the queue and mark
      the record ended; they cannot make it disappear. */
  lemma {:induction false} OwnedRecordKept(rec: StreamRec, ops: seq<Op>, id: Id)
    requires rec.write == None && !Reinserts(ops, id)
    ensures RecordAfter(Some(rec), ops, id) ==
            Some(StreamRec(None, rec.q + Pushed(ops, id), rec.ended || Drop(id) in ops))
  {
    if ops == [] {
      assert rec.q + [] == rec.q;
    } else {
      var n := |ops| - 1;
      var last := ops[n];
      assert ops == ops[..n] + [last];
      OwnedRecordKept(rec, ops[..n], id);
      assert !(last.Put? && last.id == id) by {
        assert last in ops;
      }
      assert last.id == id && last.Drop? ==> last == Drop(id);
      assert rec.q + Pushed(ops, id) ==
             if IsPush(last, id) then rec.q + Pushed(ops[..n], id) + [last.buf] else rec.q + Pushed(ops[..n], id);
    }
  }

  /** All the operations completed during the first awaits. */
  function Meanwhile(awaits: seq<Await>): seq<Op> {
    if awaits == [] then [] else Meanwhile(awaits[..|awaits| - 1]) + awaits[|awaits| - 1].meanwhile
  }

  predicate AllWritten(awaits: seq<Await>) {
    forall i :: 0 <= i < |awaits| ==> awaits[i].failed == None
  }

  ghost predicate FreshIds(awaits: seq<Await>, id: Id) {
    forall i :: 0 <= i < |awaits| ==> !Reinserts(awaits[i].meanwhile, id)
  }

  /** The segments that no failed write can have dropped: those queued since
      the last failure, or all of them. */
  function Safe(q: seq<Segment>, awaits: seq<Await>, id: Id): seq<Segment> {
    if awaits == [] then q else
      var last := awaits[|awaits| - 1];
      (if last.failed.Some? then [] else Safe(q, awaits[..|awaits| - 1], id)) + Pushed(last.meanwhile, id)
  }

  lemma Associates<T>(a: seq<T>, b: seq<T>, c: seq<T>)
    ensures a + b + c == a + (b + c)
  {
  }

  lemma {:induction false} AllSafe(q: seq<Segment>, awaits: seq<Await>, id: Id)
    requires AllWritten(awaits)
    ensures Safe(q, awaits, id) == q + Pushed(Meanwhile(awaits), id)
  {
    if awaits == [] {
      assert q + [] == q;
    } else {
      var n := |awaits| - 1;
      var before, now := Meanwhile(awaits[..n]), awaits[n].meanwhile;
      AllSafe(q, awaits[..n], id);
      PushedConcat(before, now, id);
      assert awaits[n].failed == None;
      assert Safe(q, awaits, id) == Safe(q, awaits[..n], id) + Pushed(now, id);
      hide *;
      Associates(q, Pushed(before, id), Pushed(now, id));
    }
  }

  // ---------- where the loop stands ----------

  /** Of the segments `whole`, those before `safe` may have been cut short; what
      was sent or is pending has all of `safe` at its end. */
  ghost predicate SafeAt(bytes: seq<Byte>, whole: seq<Segment>, safe: seq<Segment>, lost: seq<Segment>,
      kept: seq<Byte>) {
    whole == lost + safe && Prefixes(kept, lost) && bytes == kept + Flatten(safe)
  }

  ghost predicate KeepsSafe(bytes: seq<Byte>, whole: seq<Segment>, safe: seq<Segment>) {
    exists lost, kept :: SafeAt(bytes, whole, safe, lost, kept)
  }

  lemma AllKept(whole: seq<Segment>)
    ensures KeepsSafe(Flatten(whole), whole, whole)
  {
    PrefixesOfNone([]);
    assert [] + whole == whole && [] + Flatten(whole) == Flatten(whole);
    assert SafeAt(Flatten(whole), whole, whole, [], []);
  }

  lemma SafeGrows(bytes: seq<Byte>, whole: seq<Segment>, safe: seq<Segment>, more: seq<Segment>)
    requires KeepsSafe(bytes, whole, safe)
    ensures KeepsSafe(bytes + Flatten(more), whole + more, safe + more)
  {
    hide Prefixes, Flatten;
    var lost, kept :| SafeAt(bytes, whole, safe, lost, kept);
    FlattenConcat(safe, more);
    assert lost + safe + more == lost + (safe + more);
    assert kept + Flatten(safe) + Flatten(more) == kept + (Flatten(safe) + Flatten(more));
    assert SafeAt(bytes + Flatten(more), whole + more, safe + more, lost, kept);
  }

  /** Nothing is lost where everything is safe. */
  lemma SafeIsAll(bytes: seq<Byte>, whole: seq<Segment>)
    requires KeepsSafe(bytes, whole, whole)
    ensures bytes == Flatten(whole)
  {
    var lost, kept :| SafeAt(bytes, whole, whole, lost, kept);
    assert lost == [] by {
      assert |whole| == |lost| + |whole|;
    }
    assert kept == [];
  }

  /** `items`, then `q`, follow what was sent; of `whole` all of `safe` is kept. */
  ghost predicate Delivered(sent: seq<Byte>, items: seq<Segment>, q: seq<Segment>, whole: seq<Segment>,
      safe: seq<Segment>) {
    Placed(whole, sent, items, q, false) && KeepsSafe(sent + Flatten(items) + Flatten(q), whole, safe)
  }

  lemma DeliveryStarts(q: seq<Segment>)
    ensures Delivered([], [], q, q, q)
  {
    AllQueued(q);
    Inexact(q, [], [], q);
    AllKept(q);
    assert [] + Flatten([]) + Flatten(q) == Flatten(q);
  }

  lemma Inexact(segs: seq<Segment>, sent: seq<Byte>, items: seq<Segment>, q: seq<Segment>)
    requires Placed(segs, sent, items, q, true)
    ensures Placed(segs, sent, items, q, false)
  {
    var past, before, head := Place(segs, sent, items, q, true);
    assert PlacedAt(segs, sent, items, q, false, past, before, head);
  }

  lemma QueueIsBatch(sent: seq<Byte>, q: seq<Segment>, whole: seq<Segment>, safe: seq<Segment>)
    requires Delivered(sent, [], q, whole, safe)
    ensures Delivered(sent, q, [], whole, safe)
  {
    hide Placed, KeepsSafe;
    QueueTaken(whole, sent, q, false);
    assert sent + Flatten([]) + Flatten(q) == sent + Flatten(q) + Flatten([]);
  }

  lemma Arrives(sent: seq<Byte>, items: seq<Segment>, q: seq<Segment>, more: seq<Segment>, whole: seq<Segment>,
      safe: seq<Segment>)
    requires Delivered(sent, items, q, whole, safe)
    ensures Delivered(sent, items, q + more, whole + more, safe + more)
  {
    hide Placed, KeepsSafe, Flatten;
    MoreQueued(whole, sent, items, q, false, more);
    FlattenConcat(q, more);
    SafeGrows(sent + Flatten(items) + Flatten(q), whole, safe, more);
    Associates(sent + Flatten(items), Flatten(q), Flatten(more));
  }

  lemma ItemDelivered(sent: seq<Byte>, items: seq<Segment>, q: seq<Segment>, whole: seq<Segment>, safe: seq<Segment>)
    requires items != [] && Delivered(sent, items, q, whole, safe)
    ensures Delivered(sent + items[0], items[1..], q, whole, safe)
  {
    hide Placed, KeepsSafe;
    ItemSent(whole, sent, items, q, false);
    Associates(sent, items[0], Flatten(items[1..]));
  }

  /** A failed write delivers a prefix of its item and drops the batch; what was
      queued meanwhile, at the end of the queue, is safe. */
  lemma BatchLost(sent: seq<Byte>, items: seq<Segment>, q: seq<Segment>, now: seq<Segment>, whole: seq<Segment>,
      n: nat, safe: seq<Segment>)
    requires items != [] && n <= |items[0]| && Delivered(sent, items, q + now, whole, safe)
    ensures Delivered(sent + items[0][..n], [], q + now, whole, now)
  {
    hide Placed, KeepsSafe, Flatten;
    var sent' := sent + items[0][..n];
    var rest := [items[0][n..]] + items[1..];
    PartSent(whole, sent, items, q + now, false, n);
    assert rest != [];
    BatchDropped(whole, sent', rest, q + now, false);
    QueueSafe(sent', q, now, whole);
    FlattenNone();
    assert sent' + [] == sent';
  }

  lemma FlattenNone()
    ensures Flatten<Byte>([]) == []
  {
  }

  lemma QueueSafe(sent: seq<Byte>, q: seq<Segment>, now: seq<Segment>, whole: seq<Segment>)
    requires Placed(whole, sent, [], q + now, false)
    ensures KeepsSafe(sent + Flatten(q + now), whole, now)
  {
    hide Prefixes, Flatten;
    var past, before, head := Place(whole, sent, [], q + now, false);
    BegunBare([]);
    WholeMore(before, past, q);
    FlattenConcat(q, now);
    assert past + [] + (q + now) == past + q + now;
    assert sent == before;
    assert sent + (Flatten(q) + Flatten(now)) == sent + Flatten(q) + Flatten(now);
    assert SafeAt(sent + Flatten(q + now), whole, now, past + q, before + Flatten(q));
  }

  lemma AwaitGrows(q: seq<Segment>, awaits: seq<Await>, k: nat, id: Id)
    requires k < |awaits|
    ensures Meanwhile(awaits[..k + 1]) == Meanwhile(awaits[..k]) + awaits[k].meanwhile
    ensures Safe(q, awaits[..k + 1], id) ==
            (if awaits[k].failed.Some? then [] else Safe(q, awaits[..k], id)) + Pushed(awaits[k].meanwhile, id)
  {
    assert awaits[..k + 1][..k] == awaits[..k];
  }

  /** What others have done to every record, after one more await. */
  lemma MeanwhileGrows(table: Table, awaits: seq<Await>, k: nat)
    requires k < |awaits|
    ensures forall j :: RecordAfter(Lookup(table, j), Meanwhile(awaits[..k + 1]), j) ==
              RecordAfter(RecordAfter(Lookup(table, j), Meanwhile(awaits[..k]), j), awaits[k].meanwhile, j)
  {
    AwaitGrows([], awaits, k, 0);
    forall j ensures RecordAfter(Lookup(table, j), Meanwhile(awaits[..k + 1]), j) ==
                     RecordAfter(RecordAfter(Lookup(table, j), Meanwhile(awaits[..k]), j), awaits[k].meanwhile, j) {
      RecordAfterConcat(Lookup(table, j), Meanwhile(awaits[..k]), awaits[k].meanwhile, j);
    }
  }

  /** What holds of the loop's own stream after `k` awaits, with `items` still
      to be written from the current batch. */
  ghost predicate Running(rec0: StreamRec, rec: Option<StreamRec>, sent: seq<Byte>, items: seq<Segment>,
      awaits: seq<Await>, k: nat, id: Id) {
    k <= |awaits| && rec.Some? && rec.value.write == None &&
    rec.value.ended == (rec0.ended || Drop(id) in Meanwhile(awaits[..k])) &&
    Delivered(sent, items, rec.value.q, rec0.q + Pushed(Meanwhile(awaits[..k]), id), Safe(rec0.q, awaits[..k], id))
  }

  /** What others did to the remaining records during `k` awaits. */
  ghost predicate OthersDone(table0: Table, table: Table, awaits: seq<Await>, k: nat, id: Id) {
    k <= |awaits| &&
    forall j :: j != id ==> Lookup(table, j) == RecordAfter(Lookup(table0, j), Meanwhile(awaits[..k]), j)
  }

  lemma RunStarts(table: Table, awaits: seq<Await>, id: Id)
    requires id in table && table[id].write == None
    ensures Running(table[id], Lookup(table, id), [], [], awaits, 0, id)
    ensures OthersDone(table, table, awaits, 0, id)
  {
    DeliveryStarts(table[id].q);
    assert table[id].q + [] == table[id].q && awaits[..0] == [];
  }

  lemma BatchTaken(rec0: StreamRec, rec: StreamRec, sent: seq<Byte>, awaits: seq<Await>, k: nat, id: Id)
    requires Running(rec0, Some(rec), sent, [], awaits, k, id)
    ensures Running(rec0, Some(rec.(q := [])), sent, rec.q, awaits, k, id)
  {
    QueueIsBatch(sent, rec.q, rec0.q + Pushed(Meanwhile(awaits[..k]), id), Safe(rec0.q, awaits[..k], id));
  }

  lemma ItemWritten(rec0: StreamRec, rec: Option<StreamRec>, sent: seq<Byte>, items: seq<Segment>,
      awaits: seq<Await>, k: nat, id: Id)
    requires items != [] && Running(rec0, rec, sent, items, awaits, k, id)
    ensures Running(rec0, rec, sent + items[0], items[1..], awaits, k, id)
  {
    ItemDelivered(sent, items, rec.value.q, rec0.q + Pushed(Meanwhile(awaits[..k]), id), Safe(rec0.q, awaits[..k], id));
  }

  /** Others run while `items[0]` is being written. */
  lemma OthersRan(rec0: StreamRec, rec: StreamRec, sent: seq<Byte>, items: seq<Segment>, awaits: seq<Await>, k: nat,
      id: Id)
    requires k < |awaits| && FreshIds(awaits, id) && Running(rec0, Some(rec), sent, items, awaits, k, id)
    ensures var now := Pushed(awaits[k].meanwhile, id);
            RecordAfter(Some(rec), awaits[k].meanwhile, id) ==
            Some(StreamRec(None, rec.q + now, rec0.ended || Drop(id) in Meanwhile(awaits[..k + 1]))) &&
            Delivered(sent, items, rec.q + now, rec0.q + Pushed(Meanwhile(awaits[..k + 1]), id),
                      Safe(rec0.q, awaits[..k], id) + now)
  {
    var before, now := Meanwhile(awaits[..k]), awaits[k].meanwhile;
    AwaitGrows(rec0.q, awaits, k, id);
    OwnedRecordKept(rec, now, id);
    PushedConcat(before, now, id);
    hide *;
    var more := Pushed(now, id);
    Arrives(sent, items, rec.q, more, rec0.q + Pushed(before, id), Safe(rec0.q, awaits[..k], id));
    Associates(rec0.q, Pushed(before, id), more);
  }

  /** What the await of `items[0]` delivers, and what is left of the batch. */
  function Leaving(item: Segment, failed: Option<nat>): Segment {
    if failed.Some? && failed.value < |item| then item[..failed.value] else item
  }

  lemma AwaitDelivers(sent: seq<Byte>, items: seq<Segment>, q: seq<Segment>, now: seq<Segment>, whole: seq<Segment>,
      failed: Option<nat>, safe: seq<Segment>)
    requires items != [] && Delivered(sent, items, q + now, whole, safe + now)
    ensures Delivered(sent + Leaving(items[0], failed), if failed.None? then items[1..] else [], q + now, whole,
                      (if failed.Some? then [] else safe) + now)
  {
    hide Delivered;
    match failed
    case None =>
      ItemDelivered(sent, items, q + now, whole, safe + now);
    case Some(n) =>
      var left := Leaving(items[0], failed);
      assert items[0][..|left|] == left;
      BatchLost(sent, items, q, now, whole, |left|, safe + now);
      assert [] + now == now;
  }

  lemma AwaitPassed(rec0: StreamRec, rec: StreamRec, sent: seq<Byte>, items: seq<Segment>, awaits: seq<Await>,
      k: nat, id: Id)
    requires k < |awaits| && FreshIds(awaits, id) && items != []
    requires Running(rec0, Some(rec), sent, items, awaits, k, id)
    ensures Running(rec0, RecordAfter(Some(rec), awaits[k].meanwhile, id), sent + Leaving(items[0], awaits[k].failed),
                    if awaits[k].failed.None? then items[1..] else [], awaits, k + 1, id)
  {
    OthersRan(rec0, rec, sent, items, awaits, k, id);
    AwaitGrows(rec0.q, awaits, k, id);
    hide Pushed, RecordAfter, Meanwhile, Delivered, Safe, FreshIds, Leaving;
    AwaitDelivers(sent, items, rec.q, Pushed(awaits[k].meanwhile, id), rec0.q + Pushed(Meanwhile(awaits[..k + 1]), id),
                  awaits[k].failed, Safe(rec0.q, awaits[..k], id));
  }

  lemma OthersPassed(table0: Table, table: Table, table': Table, awaits: seq<Await>, k: nat, id: Id)
    requires k < |awaits| && OthersDone(table0, table, awaits, k, id)
    requires forall j :: Lookup(table', j) == RecordAfter(Lookup(table, j), awaits[k].meanwhile, j)
    ensures OthersDone(table0, table', awaits, k + 1, id)
  {
    MeanwhileGrows(table0, awaits, k);
  }

  lemma StillOwned(rec0: StreamRec, table: Table, sent: seq<Byte>, items: seq<Segment>, awaits: seq<Await>, k: nat,
      id: Id)
    requires Running(rec0, Lookup(table, id), sent, items, awaits, k, id)
    ensures k <= |awaits| && id in table && table[id].write == None
  {
  }

  /** What a finished loop delivered of everything queued before or during it:
      a prefix of each segment, in order, and all of every segment that came in
      during or after the last failed write. */
  ghost predicate DeliveredInOrder(q: seq<Segment>, awaits: seq<Await>, id: Id, sent: seq<Byte>) {
    var all := q + Pushed(Meanwhile(awaits), id);
    Prefixes(sent, all) && KeepsSafe(sent, all, Safe(q, awaits, id)) && (AllWritten(awaits) ==> sent == Flatten(all))
  }

  lemma RunEnds(rec0: StreamRec, rec: StreamRec, sent: seq<Byte>, awaits: seq<Await>, k: nat, id: Id)
    requires Running(rec0, Some(rec), sent, [], awaits, k, id) && rec.q == []
    ensures DeliveredInOrder(rec0.q, awaits[..k], id, sent)
    ensures rec.ended <==> rec0.ended || Drop(id) in Meanwhile(awaits[..k])
  {
    hide Prefixes, KeepsSafe, Placed;
    var all := rec0.q + Pushed(Meanwhile(awaits[..k]), id);
    PlacedKeeps(all, sent, [], [], false);
    assert sent + Flatten([]) + Flatten([]) == sent;
    if AllWritten(awaits[..k]) {
      AllSafe(rec0.q, awaits[..k], id);
      SafeIsAll(sent, all);
    }
  }

  lemma OthersEnd(table0: Table, table: Table, table': Table, awaits: seq<Await>, k: nat, id: Id)
    requires OthersDone(table0, table, awaits, k, id)
    requires table' - {id} == table - {id}
    ensures OthersDone(table0, table', awaits, k, id)
  {
    forall j | j != id ensures Lookup(table', j) == Lookup(table, j) {
      assert j in table' <==> j in table' - {id};
      assert j in table <==> j in table - {id};
      assert j in table ==> (table' - {id})[j] == (table - {id})[j];
    }
  }

  /** A drained loop leaves the record parked or removed. */
  lemma TurnEnds(table0: Table, table: Table, w: WriteHalf, sent: seq<Byte>, awaits: seq<Await>, k: nat, id: Id)
    requires id in table0 && Running(table0[id], Lookup(table, id), sent, [], awaits, k, id)
    requires OthersDone(table0, table, awaits, k, id)
    ensures var (table', turn) := TurnTaken(table, id, w);
            turn != Gone && OthersDone(table0, table', awaits, k, id) &&
            (turn in {Finished, Parked} ==>
              DeliveredInOrder(table0[id].q, awaits[..k], id, sent) &&
              (turn == Finished <==> table0[id].ended || Drop(id) in Meanwhile(awaits[..k])) &&
              Lookup(table', id) == if turn == Finished then None else Some(StreamRec(Some(w), [], false)))
  {
    var (table', turn) := TurnTaken(table, id, w);
    StillOwned(table0[id], table, sent, [], awaits, k, id);
    OthersEnd(table0, table, table', awaits, k, id);
    if turn in {Finished, Parked} {
      RunEnds(table0[id], table[id], sent, awaits, k, id);
    }
  }

  lemma TurnContinues(rec0: StreamRec, table: Table, w: WriteHalf, sent: seq<Byte>, awaits: seq<Await>, k: nat, id: Id)
    requires Running(rec0, Lookup(table, id), sent, [], awaits, k, id)
    ensures var (table', turn) := TurnTaken(table, id, w);
            turn.Batch? ==> Running(rec0, Lookup(table', id), sent, turn.items, awaits, k, id) &&
                            turn.items == Queue(table, id) && turn.items != [] && Queue(table', id) == []
  {
    StillOwned(rec0, table, sent, [], awaits, k, id);
    if table[id].q != [] {
      BatchTaken(rec0, table[id], sent, awaits, k, id);
    }
  }

  function Queue(table: Table, id: Id): seq<Segment> {
    if id in table then table[id].q else []
  }

  // ---------- the methods ----------

  /** Others run their operations through the same lock. */
  method Perform(streams: Streams, ops: seq<Op>)
    modifies streams
    ensures forall j :: Lookup(streams.recs, j) == RecordAfter(Lookup(old(streams.recs), j), ops, j)
  {
    for i := 0 to |ops|
      invariant forall j :: Lookup(streams.recs, j) == RecordAfter(Lookup(old(streams.recs), j), ops[..i], j)
    {
      assert ops[..i + 1][..i] == ops[..i];
      match ops[i] {
        case Put(id, half) => streams.Insert(id, half);
        case Push(id, buf) => var _ := streams.Write(id, buf);
        case Drop(id) => var _ := streams.Remove(id);
      }
    }
    assert ops[..|ops|] == ops;
  }

  /** Runs until the record is drained. `sent` is what reached the half, `used`
      how many awaits it took, and `shut` whether the half was shut down rather
      than put back. Once the script is exhausted nobody interferes any more. */
  method WriteLoop(streams: Streams, id: Id, w: WriteHalf, awaits: seq<Await>)
    returns (sent: seq<Byte>, used: nat, shut: bool)
    requires id in streams.recs && streams.recs[id].write == None
    requires FreshIds(awaits, id)
    modifies streams
    ensures used <= |awaits|
    ensures DeliveredInOrder(old(streams.recs[id].q), awaits[..used], id, sent)
    // the half is shut down exactly when the record was ended, and parked otherwise
    ensures shut <==> old(streams.recs[id].ended) || Drop(id) in Meanwhile(awaits[..used])
    ensures Lookup(streams.recs, id) == if shut then None else Some(StreamRec(Some(w), [], false))
    // every other record is left as the others made it
    ensures OthersDone(old(streams.recs), streams.recs, awaits, used, id)
  {
    ghost var table0 := streams.recs;
    RunStarts(table0, awaits, id);
    hide Pushed, RecordAfter, Meanwhile, Delivered, DeliveredInOrder, FreshIds, Running, OthersDone,
         Leaving, TurnTaken, Queue;
    sent, used := [], 0;
    while true
      invariant Running(table0[id], Lookup(streams.recs, id), sent, [], awaits, used, id)
      invariant OthersDone(table0, streams.recs, awaits, used, id)
      invariant used <= |awaits|
      decreases |awaits| - used, |Queue(streams.recs, id)|
    {
      ghost var table := streams.recs;
      TurnEnds(table0, table, w, sent, awaits, used, id);
      TurnContinues(table0[id], table, w, sent, awaits, used, id);
      var turn := streams.TakeTurn(id, w);
      match turn {
        case Gone =>
          assert false;
        case Finished =>
          return sent, used, true;
        case Parked =>
          return sent, used, false;
        case Batch(items) =>
          sent, used := WriteBatch(streams, id, items, awaits, used, sent, table0);
      }
    }
  }

  /** The inner loop: writes the batch, item by item, while others run. */
  method WriteBatch(streams: Streams, id: Id, batch: seq<Segment>, awaits: seq<Await>, before: nat,
      written: seq<Byte>, ghost table0: Table)
    returns (sent: seq<Byte>, used: nat)
    requires id in table0 && FreshIds(awaits, id) && before <= |awaits| && batch != []
    requires Running(table0[id], Lookup(streams.recs, id), written, batch, awaits, before, id)
    requires OthersDone(table0, streams.recs, awaits, before, id)
    modifies streams
    ensures before <= used <= |awaits|
    ensures Running(table0[id], Lookup(streams.recs, id), sent, [], awaits, used, id)
    ensures OthersDone(table0, streams.recs, awaits, used, id)
    ensures used == before ==> used == |awaits| && streams.recs == old(streams.recs)
  {
    hide Pushed, RecordAfter, Meanwhile, Delivered, FreshIds, Running, OthersDone, Leaving;
    sent, used := written, before;
    var items_vec := batch;
    while items_vec != []
      invariant before <= used <= |awaits|
      invariant Running(table0[id], Lookup(streams.recs, id), sent, items_vec, awaits, used, id)
      invariant OthersDone(table0, streams.recs, awaits, used, id)
      invariant used == before ==> (items_vec != [] || used == |awaits|) && streams.recs == old(streams.recs)
      decreases |items_vec|
    {
      ghost var table := streams.recs;
      if used == |awaits| {
        ItemWritten(table0[id], Lookup(table, id), sent, items_vec, awaits, used, id);
        sent, items_vec := sent + items_vec[0], items_vec[1..];
      } else {
        var await := awaits[used];
        StillOwned(table0[id], table, sent, items_vec, awaits, used, id);
        Perform(streams, await.meanwhile);
        AwaitPassed(table0[id], table[id], sent, items_vec, awaits, used, id);
        OthersPassed(table0, table, streams.recs, awaits, used, id);
        used := used + 1;
        sent := sent + Leaving(items_vec[0], await.failed);
        items_vec := if await.failed.None? then items_vec[1..] else [];
      }
    }
  }
}
