/** Small programs under the await rule: what it reports, what it rightly passes,
    and what it misses. */
module AwaitExamples {
  import opened Sequences
  import opened AwaitFlow
  import opened AwaitPaths
  import opened AwaitTries
  import L = AwaitLoops

  /** `await x` */
  function Pause(id: nat): Node {
    Await(id, Ident(id + 1, "x"))
  }

  lemma PauseWalk(id: nat, accessor: string, saw: bool)
    ensures Expression(Pause(id)) && HasAwait(Pause(id))
    ensures Walk(Pause(id), false, accessor, saw) == Flow(true, [])
  {
    L.NameWalk(id + 1, "x", accessor, saw);
    L.AwaitWalk(id, Ident(id + 1, "x"), accessor, saw);
  }

  lemma BlockWalk(id: nat, a: Node, b: Node, accessor: string, saw: bool)
    ensures var f := Walk(a, false, accessor, saw);
            var g := Walk(b, false, accessor, f.saw);
            Walk(Block(id, [a, b]), false, accessor, saw) == Flow(g.saw, f.reports + g.reports)
  {
    BlockIs(id, [a, b], accessor, saw);
    hide *;
    L.TwoWalk(a, b, accessor, saw);
  }

  lemma BlockIs(id: nat, body: seq<Node>, accessor: string, saw: bool)
    ensures Walk(Block(id, body), false, accessor, saw) == WalkAll(body, false, accessor, saw)
  {
    hide WalkAll;
  }

  /** `await x; accessor.get(...)` is reported. */
  lemma GetReported(accessor: string)
    ensures Walk(Block(0, [Pause(1), L.Get(5, accessor)]), false, accessor, false).reports == [5]
  {
    PauseWalk(1, accessor, false);
    L.GetWalk(5, accessor, true);
    BlockWalk(0, Pause(1), L.Get(5, accessor), accessor, false);
  }

  /** `await x; f(accessor)` is reported, at the argument. */
  lemma PassedReported(accessor: string)
    ensures var call := Call(5, Ident(6, "f"), [Ident(7, accessor)]);
            Walk(Block(0, [Pause(1), call]), false, accessor, false).reports == [7]
  {
    var call := Call(5, Ident(6, "f"), [Ident(7, accessor)]);
    PauseWalk(1, accessor, false);
    L.NameWalk(6, "f", accessor, true);
    assert [Ident(7, accessor)][1..] == [];
    assert Walk(Ident(7, accessor), true, accessor, true) == Flow(true, [7]);
    assert WalkAll([], true, accessor, true) == Flow(true, []);
    assert WalkAll([Ident(7, accessor)], true, accessor, true) == Flow(true, [7]);
    assert WalkInside(call, accessor, true) == Report([], Flow(true, [7]));
    BlockWalk(0, Pause(1), call, accessor, false);
  }

  /** `await x; accessor` merely names the accessor, and `await x; other.get(...)`
      uses another; neither is reported. */
  lemma OthersPassed(accessor: string, other: string)
    requires other != accessor
    ensures Walk(Block(0, [Pause(1), Ident(5, accessor)]), false, accessor, false).reports == []
    ensures Walk(Block(0, [Pause(1), L.Get(5, other)]), false, accessor, false).reports == []
  {
    PauseWalk(1, accessor, false);
    L.NameWalk(5, accessor, accessor, true);
    BlockWalk(0, Pause(1), Ident(5, accessor), accessor, false);
    var get := L.Get(5, other);
    L.NameWalk(7, other, accessor, true);
    assert WalkInside(get.callee, accessor, true) == Flow(true, []);
    assert Walk(get.callee, false, accessor, true) == Flow(true, []);
    assert WalkAll([], true, accessor, true) == Flow(true, []);
    assert WalkInside(get, accessor, true) == Report([], Flow(true, []));
    BlockWalk(0, Pause(1), get, accessor, false);
  }

  /** A computed property is evaluated, a plain one is not. */
  lemma PropertyWalked(accessor: string)
    ensures Walk(Member(0, Ident(9, "o"), Pause(1), true), false, accessor, false).saw
    ensures !Walk(Member(0, Ident(9, "o"), Pause(1), false), false, accessor, false).saw
  {
    PauseWalk(1, accessor, false);
    L.NameWalk(9, "o", accessor, false);
    assert WalkInside(Member(0, Ident(9, "o"), Pause(1), true), accessor, false) ==
           Report([], Walk(Pause(1), false, accessor, false));
    assert WalkInside(Member(0, Ident(9, "o"), Pause(1), false), accessor, false) == Flow(false, []);
  }

  /** `try { await x } catch {}` raises the flag for `accessor.get(...)` after it. */
  lemma AfterTryReported(accessor: string)
    ensures var attempt := Try(10, Pause(1), Some(Block(11, [])), None);
            Walk(Block(0, [attempt, L.Get(5, accessor)]), false, accessor, false).reports == [5]
  {
    var attempt := Try(10, Pause(1), Some(Block(11, [])), None);
    PauseWalk(1, accessor, false);
    L.EmptyParts(accessor, false);
    TryWalk(attempt, accessor, false);
    assert WalkOptional(Some(Block(11, [])), accessor, false) == Flow(false, []);
    assert WalkOptional(None, accessor, true) == Flow(true, []);
    L.GetWalk(5, accessor, true);
    BlockWalk(0, attempt, L.Get(5, accessor), accessor, false);
  }

  /** `try { await x } catch { accessor.get(...) }` passes, although an exception
      after the await brings the late use about. */
  lemma CatchMissed(accessor: string)
    ensures var attempt := Try(10, Pause(1), Some(L.Get(5, accessor)), None);
            TryFragment(attempt) && !Reports(attempt, accessor, false) && Late(TryPaths(attempt, accessor), false)
  {
    var attempt := Try(10, Pause(1), Some(L.Get(5, accessor)), None);
    PauseWalk(1, accessor, false);
    L.GetWalk(5, accessor, false);
    L.GetWalk(5, accessor, true);
    ExpressionIsStatement(Pause(1));
    ExpressionIsStatement(L.Get(5, accessor));
    TryWalk(attempt, accessor, false);
    assert WalkOptional(attempt.handler, accessor, false) == Flow(false, []);
    assert WalkOptional(None, accessor, true) == Flow(true, []);
    hide Late, TryPaths, Walk, WalkOptional, HasAwait, Statement;
    TryMissedExactly(attempt, accessor);
  }
}
