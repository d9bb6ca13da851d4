/** The table of duplex streams of an RPC dispatcher: one record per stream id,
    holding the write half while nobody is writing, and the queue of segments
    that arrived meanwhile. */
module Streams {
  import opened Sequences
  import opened Delivery

  type Id = nat

  /** Names one write half; Rust moves it, so it is in one place at a time. */
  type WriteHalf = nat

  datatype StreamRec = StreamRec(write: Option<WriteHalf>, q: seq<Segment>, ended: bool)

  type Table = map<Id, StreamRec>

  /** What one pass of the write loop through its lock region decides. */
  datatype Turn =
    | Gone                        // the record disappeared: shut down
    | Finished                    // drained and ended: record removed, shut down
    | Parked                      // drained: the half is back in the record
    | Batch(items: seq<Segment>)  // segments to write outside the lock

  function Inserted(table: Table, id: Id, half: WriteHalf): Table {
    table[id := StreamRec(Some(half), [], false)]
  }

  /** The table after a write, and the half handed to a newly spawned loop. */
  function Written(table: Table, id: Id, buf: Segment): (Table, Option<WriteHalf>) {
    if id !in table then (table, None) else
      var s := table[id];
      (table[id := s.(q := s.q + [buf], write := None)], s.write)
  }

  /** The table after a removal, and the half the remover must shut down. */
  function Removed(table: Table, id: Id): (Table, Option<WriteHalf>) {
    if id !in table then (table, None)
    else if table[id].write.Some? then (table - {id}, table[id].write)
    else (table[id := table[id].(ended := true)], None)
  }

  function TurnTaken(table: Table, id: Id, w: WriteHalf): (Table, Turn) {
    if id !in table then (table, Gone) else
      var s := table[id];
      if s.q != [] then (table[id := s.(q := [])], Batch(s.q))
      else if s.ended then (table - {id}, Finished)
      else (table[id := s.(write := Some(w))], Parked)
  }

  /** The mutex-guarded map; every method is one lock region. */
  class Streams {
    var recs: Table

    constructor ()
      ensures recs == map[]
    {
      recs := map[];
    }

    method Insert(id: Id, stream: WriteHalf)
      modifies this
      ensures recs == Inserted(old(recs), id, stream)
    {
      recs := recs[id := StreamRec(Some(stream), [], false)];
    }

    method Write(id: Id, buf: Segment) returns (spawned: Option<WriteHalf>)
      modifies this
      ensures (recs, spawned) == Written(old(recs), id, buf)
    {
      spawned := None;
      if id in recs {
        var s := recs[id];
        s := s.(q := s.q + [buf]);
        if s.write.Some? {
          spawned := s.write;
          s := s.(write := None);
        }
        recs := recs[id := s];
      }
    }

    method Remove(id: Id) returns (remove: Option<WriteHalf>)
      modifies this
      ensures (recs, remove) == Removed(old(recs), id)
    {
      remove := None;
      if id in recs {
        var s := recs[id];
        if s.write.Some? {
          recs := recs - {id};
          remove := s.write;
        } else {
          recs := recs[id := s.(ended := true)];
        }
      }
    }

    /** The lock region at the head of `write_loop`. */
    method TakeTurn(id: Id, w: WriteHalf) returns (turn: Turn)
      modifies this
      ensures (recs, turn) == TurnTaken(old(recs), id, w)
    {
      if id !in recs {
        return Gone;
      }
      var rec := recs[id];
      if rec.q == [] {
        if rec.ended {
          recs := recs - {id};
          return Finished;
        } else {
          recs := recs[id := rec.(write := Some(w))];
          return Parked;
        }
      }
      turn := Batch(rec.q);
      recs := recs[id := rec.(q := [])];
    }
  }
}
