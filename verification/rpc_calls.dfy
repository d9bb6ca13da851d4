/** Outbound RPC calls: a call is sent before its callback is registered, and a
    response finds its callback by id. */
module RpcCalls {
  import opened Sequences

  type Id = nat

  datatype Completion = Completion(id: Id, ok: bool)

  /** `unregistered` are the calls whose message is out while the caller has not
      yet taken the lock to register the callback. */
  datatype Client = Client(next: nat, unregistered: set<Id>, calls: set<Id>, completions: seq<Completion>)

  const START := Client(0, {}, {}, [])

  datatype Event = Send | Register(id: Id) | Respond(id: Id, ok: bool)

  predicate Enabled(c: Client, e: Event) {
    e.Register? ==> e.id in c.unregistered
  }

  function Next(c: Client, e: Event): Client {
    match e
    case Send => c.(next := c.next + 1, unregistered := c.unregistered + {c.next})
    case Register(id) => c.(unregistered := c.unregistered - {id}, calls := c.calls + {id})
    case Respond(id, ok) =>
      if id in c.calls then c.(calls := c.calls - {id}, completions := c.completions + [Completion(id, ok)])
      else c
  }

  datatype Dispatched = Handled | Dropped | Panicked

  /** The caller and the response side of the dispatcher, which share `calls`. */
  class RpcCaller {
    var state: Client

    constructor ()
      ensures state == START
    {
      state := START;
    }

    /** The first half of `call`: take an id and send. With the channel closed
        the call is given up. */
    method SendCall(open: bool) returns (id: Option<Id>)
      modifies this
      ensures open ==> id == Some(old(state).next) && state == Next(old(state), Send)
      ensures !open ==> id == None && state == old(state).(next := old(state).next + 1)
    {
      var taken := state.next;
      state := state.(next := state.next + 1);
      if !open {
        return None;
      }
      state := state.(unregistered := state.unregistered + {taken});
      id := Some(taken);
    }

    /** The second half: register the callback. */
    method RegisterCallback(id: Id)
      requires Enabled(state, Register(id))
      modifies this
      ensures state == Next(old(state), Register(id))
    {
      state := state.(unregistered := state.unregistered - {id});
      state := state.(calls := state.calls + {id});
    }

    /** A message without a method: remove the callback and run it. Without an
        id the dispatcher panics. */
    method DispatchResponse(id: Option<Id>, ok: bool) returns (d: Dispatched)
      modifies this
      ensures d == Panicked <==> id.None?
      ensures id.None? ==> state == old(state)
      ensures id.Some? ==> state == Next(old(state), Respond(id.value, ok))
      ensures id.Some? ==> (d == Handled <==> id.value in old(state).calls)
    {
      if id.None? {
        return Panicked;
      }
      if id.value in state.calls {
        state := state.(calls := state.calls - {id.value});
        state := state.(completions := state.completions + [Completion(id.value, ok)]);
        d := Handled;
      } else {
        d := Dropped;
      }
    }
  }

  predicate Runs(events: seq<Event>)
    decreases |events|
  {
    events == [] ||
    (Runs(events[..|events| - 1]) && Enabled(After(events[..|events| - 1]), events[|events| - 1]))
  }

  function After(events: seq<Event>): Client
    decreases |events|
  {
    if events == [] then START
    else Next(After(events[..|events| - 1]), events[|events| - 1])
  }

  /** The results a call's receiver was given. */
  function ResultsOf(completions: seq<Completion>, id: Id): seq<bool> {
    if completions == [] then [] else
      var c := completions[|completions| - 1];
      ResultsOf(completions[..|completions| - 1], id) + (if c.id == id then [c.ok] else [])
  }

  predicate RegisteredIn(events: seq<Event>, id: Id) {
    exists i :: 0 <= i < |events| && events[i] == Register(id)
  }

  predicate RespondedIn(events: seq<Event>, id: Id) {
    exists i :: 0 <= i < |events| && events[i].Respond? && events[i].id == id
  }

  /** A response to `id` that was dispatched when the callback was registered
      and no response to it had come since the registration. */
  predicate AnswersFirst(events: seq<Event>, id: Id, i: int, j: int) {
    0 <= i < j < |events| && events[i] == Register(id) && events[j].Respond? && events[j].id == id &&
    !RespondedIn(events[i..j], id)
  }

  /** Registered at `i`, and no response since. */
  predicate WaitingSince(events: seq<Event>, id: Id, i: int) {
    0 <= i < |events| && events[i] == Register(id) && !RespondedIn(events[i..], id)
  }

  /** Where a call stands after a run. */
  ghost predicate Stands(events: seq<Event>, id: Id, c: Client) {
    var results := ResultsOf(c.completions, id);
    if id in c.unregistered then id !in c.calls && !RegisteredIn(events, id) && results == []
    else if id in c.calls then results == [] && exists i :: WaitingSince(events, id, i)
    else if RegisteredIn(events, id) then exists i, j :: AnswersFirst(events, id, i, j) && results == [events[j].ok]
    else results == []
  }

  /** Ids not yet handed out are nowhere. */
  predicate NotSentYet(events: seq<Event>, id: Id, c: Client) {
    c.next <= id ==> id !in c.unregistered && id !in c.calls && !RegisteredIn(events, id)
  }

  lemma {:induction false} AllStand(events: seq<Event>, id: Id)
    requires Runs(events)
    ensures Stands(events, id, After(events)) && NotSentYet(events, id, After(events))
    decreases |events|
  {
    if events != [] {
      var before, e := events[..|events| - 1], events[|events| - 1];
      AllStand(before, id);
      assert before + [e] == events;
      hide Stands, NotSentYet, Next;
      StandsSnoc(before, e, id, After(before));
    }
  }

  lemma RegisteredSnoc(before: seq<Event>, e: Event, id: Id)
    ensures RegisteredIn(before + [e], id) <==> RegisteredIn(before, id) || e == Register(id)
  {
    if i :| 0 <= i < |before| && before[i] == Register(id) {
      assert (before + [e])[i] == Register(id);
    }
    assert (before + [e])[|before|] == e;
  }

  lemma RespondedSnoc(before: seq<Event>, e: Event, id: Id)
    ensures RespondedIn(before + [e], id) <==> RespondedIn(before, id) || (e.Respond? && e.id == id)
  {
    if i :| 0 <= i < |before| && before[i].Respond? && before[i].id == id {
      assert (before + [e])[i] == before[i];
    }
    assert (before + [e])[|before|] == e;
  }

  lemma ResultsSnoc(completions: seq<Completion>, c: Completion, id: Id)
    ensures ResultsOf(completions + [c], id) == ResultsOf(completions, id) + (if c.id == id then [c.ok] else [])
  {
    assert (completions + [c])[..|completions|] == completions;
  }

  lemma StandsSnoc(before: seq<Event>, e: Event, id: Id, c: Client)
    requires Stands(before, id, c) && NotSentYet(before, id, c) && Enabled(c, e)
    ensures Stands(before + [e], id, Next(c, e)) && NotSentYet(before + [e], id, Next(c, e))
  {
    RegisteredSnoc(before, e, id);
    if e.Respond? && e.id in c.calls {
      ResultsSnoc(c.completions, Completion(e.id, e.ok), id);
    }
    hide RegisteredIn, RespondedIn, ResultsOf;
    if e == Register(id) {
      JustRegistered(before, id);
    } else if id in c.calls && id !in c.unregistered {
      var i :| WaitingSince(before, id, i);
      StillWaiting(before, e, id, i);
    } else if RegisteredIn(before, id) && id !in c.unregistered {
      var i, j :| AnswersFirst(before, id, i, j) && ResultsOf(c.completions, id) == [before[j].ok];
      assert (before + [e])[i..j] == before[i..j];
      assert AnswersFirst(before + [e], id, i, j);
    }
  }

  lemma JustRegistered(before: seq<Event>, id: Id)
    ensures WaitingSince(before + [Register(id)], id, |before|)
  {
    assert (before + [Register(id)])[|before|..] == [Register(id)];
  }

  lemma StillWaiting(before: seq<Event>, e: Event, id: Id, i: int)
    requires WaitingSince(before, id, i)
    ensures if e.Respond? && e.id == id then AnswersFirst(before + [e], id, i, |before|)
            else WaitingSince(before + [e], id, i)
  {
    assert (before + [e])[i..] == before[i..] + [e];
    assert (before + [e])[i..|before|] == before[i..];
    RespondedSnoc(before[i..], e, id);
  }

  /** A call completes at most once; it does exactly when a response with its
      id is dispatched after its registration, with the first such response. */
  lemma CompletesOnce(events: seq<Event>, id: Id)
    requires Runs(events)
    ensures var results := ResultsOf(After(events).completions, id);
            |results| <= 1 &&
            (|results| == 1 <==> exists i, j :: 0 <= i < j < |events| && events[i] == Register(id) &&
                                                events[j].Respond? && events[j].id == id) &&
            (|results| == 1 ==> exists i, j :: AnswersFirst(events, id, i, j) && results == [events[j].ok])
  {
    AllStand(events, id);
    if i, j :| 0 <= i < j < |events| && events[i] == Register(id) && events[j].Respond? && events[j].id == id {
      NotWaiting(events, id, i, j);
    }
    hide RespondedIn;
    if |ResultsOf(After(events).completions, id)| == 1 {
      var i, j :| AnswersFirst(events, id, i, j);
    }
  }

  lemma NotWaiting(events: seq<Event>, id: Id, i: nat, j: nat)
    requires Runs(events) && i < j < |events|
    requires events[i] == Register(id) && events[j].Respond? && events[j].id == id
    ensures id !in After(events).calls && RegisteredIn(events, id) && id !in After(events).unregistered
  {
    AllStand(events, id);
    RespondedSince(events, id, i, j);
    if k :| WaitingSince(events, id, k) {
      RegisteredOnce(events, id, i, k);
      assert false;
    }
  }

  lemma RespondedSince(events: seq<Event>, id: Id, i: nat, j: nat)
    requires i < j < |events| && events[j].Respond? && events[j].id == id
    ensures RespondedIn(events[i..], id)
  {
    assert events[i..][j - i] == events[j];
  }

  lemma {:induction false} RegisteredOnce(events: seq<Event>, id: Id, i: nat, k: nat)
    requires Runs(events) && i < |events| && k < |events| && events[i] == events[k] == Register(id)
    ensures i == k
    decreases |events|
  {
    var last := |events| - 1;
    var before := events[..last];
    AllStand(before, id);
    if i < last && k < last {
      RegisteredOnce(before, id, i, k);
    } else if i < last {
      assert before[i] == Register(id) && RegisteredIn(before, id);
    } else if k < last {
      assert before[k] == Register(id) && RegisteredIn(before, id);
    }
  }

  /** A response that overtakes the registration is dropped: if it is the only
      one, the caller waits for ever. */
  lemma EarlyResponseLost(events: seq<Event>, id: Id, j: nat)
    requires Runs(events) && j < |events| && events[j].Respond? && events[j].id == id
    requires !RegisteredIn(events[..j], id)
    requires forall k :: 0 <= k < |events| && events[k].Respond? && events[k].id == id ==> k == j
    ensures ResultsOf(After(events).completions, id) == []
    ensures RegisteredIn(events, id) ==> id in After(events).calls
  {
    AllStand(events, id);
    hide RespondedIn, WaitingSince;
    if i, k :| AnswersFirst(events, id, i, k) {
      RegisteredBefore(events, id, i, j);
      assert false;
    }
  }

  lemma RegisteredBefore(events: seq<Event>, id: Id, i: nat, j: nat)
    requires i < j <= |events| && events[i] == Register(id)
    ensures RegisteredIn(events[..j], id)
  {
    assert events[..j][i] == Register(id);
  }

  /** The shortest such run: the response comes between sending and registering. */
  lemma OvertakingResponse()
    ensures var events := [Send, Respond(0, true), Register(0)];
            Runs(events) && ResultsOf(After(events).completions, 0) == [] && 0 in After(events).calls
  {
    var two, three := [Send, Respond(0, true)], [Send, Respond(0, true), Register(0)];
    assert two[..1] == [Send] && [Send][..0] == [] && three[..2] == two;
    assert After([Send]) == Next(START, Send);
    assert After(two) == After([Send]);
    assert Runs([Send]) && Runs(two);
  }
}
