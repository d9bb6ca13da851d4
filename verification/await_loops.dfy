/** Loops under the await walk, which visits every part of a loop once and in
    source order: what a loop really does in any number of rounds, and exactly
    when the walk's order finds what is wrong in it. */
module AwaitLoops {
  import opened Sequences
  import opened AwaitFlow
  import opened AwaitPaths

  // ---------- how loops are executed ----------

  function Count(part: bool): nat {
    if part then 1 else 0
  }

  predicate IsLoop(n: Node) {
    n.Loop? &&
    match n.kind
    case While => |n.children| == 2
    case DoWhile => |n.children| == 2
    case ForEach => |n.children| == 3
    case For(init, test, update) => |n.children| == Count(init) + Count(test) + Count(update) + 1
  }

  /** The parts evaluated once, before the first round. */
  function Once(n: Node): seq<Node>
    requires IsLoop(n)
  {
    match n.kind
    case ForEach => [n.children[1]]
    case For(init, _, _) => n.children[..Count(init)]
    case _ => []
  }

  function ForTest(n: Node): seq<Node>
    requires IsLoop(n) && n.kind.For?
  {
    n.children[Count(n.kind.init)..Count(n.kind.init) + Count(n.kind.test)]
  }

  function ForUpdate(n: Node): seq<Node>
    requires IsLoop(n) && n.kind.For?
  {
    n.children[Count(n.kind.init) + Count(n.kind.test)..|n.children| - 1]
  }

  function Body(n: Node): Node
    requires IsLoop(n)
  {
    n.children[|n.children| - 1]
  }

  /** One round, in execution order. */
  function Round(n: Node): seq<Node>
    requires IsLoop(n)
  {
    match n.kind
    case While => [n.children[0], Body(n)]
    case DoWhile => [Body(n), n.children[0]]
    case ForEach => [n.children[0], Body(n)]
    case For(_, _, _) => ForTest(n) + [Body(n)] + ForUpdate(n)
  }

  /** What is evaluated after the last round, to find that it was the last. */
  function Final(n: Node): seq<Node>
    requires IsLoop(n)
  {
    match n.kind
    case While => [n.children[0]]
    case For(_, _, _) => ForTest(n)
    case _ => []
  }

  function Rounds(round: set<Path>, k: nat, last: set<Path>): set<Path> {
    if k == 0 then last else Then(round, Rounds(round, k - 1, last))
  }

  /** The paths of `k` rounds of a loop. */
  function Executions(n: Node, k: nat, accessor: string): set<Path>
    requires IsLoop(n)
  {
    Then(PathsAll(Once(n), false, accessor),
         Rounds(PathsAll(Round(n), false, accessor), k, PathsAll(Final(n), false, accessor)))
  }

  /** Some execution, of any number of rounds that the loop can have, uses the
      accessor at `use` after an await. */
  ghost predicate LateUse(n: Node, k: nat, use: nat, accessor: string)
    requires IsLoop(n)
  {
    (n.kind.DoWhile? ==> k > 0) && Hits(Executions(n, k, accessor), false, use)
  }

  ghost predicate IsWrong(n: Node, accessor: string)
    requires IsLoop(n)
  {
    exists k: nat, use :: LateUse(n, k, use, accessor)
  }

  // ---------- the fragment ----------

  /** The body is a statement of the fragment, every other part an expression. */
  predicate LoopFragment(n: Node) {
    IsLoop(n) && Statement(Body(n)) && forall i :: 0 <= i < |n.children| - 1 ==> Expression(n.children[i])
  }

  predicate AllStatements(ns: seq<Node>) {
    forall i :: 0 <= i < |ns| ==> Statement(ns[i])
  }

  /** The code can be run through. */
  predicate CanFinishAll(ns: seq<Node>) {
    ns == [] || !BlockAlwaysExits(ns[|ns| - 1])
  }

  /** The parts up to the first that always exits. */
  function Reached(ns: seq<Node>): seq<Node> {
    if ns == [] then []
    else if BlockAlwaysExits(ns[0]) then [ns[0]]
    else [ns[0]] + Reached(ns[1..])
  }

  lemma ThenNever(a: set<Path>, b: set<Path>, c: set<Path>)
    requires !CanFinish(a)
    ensures Then(a, b) == Then(a, c)
  {
  }

  /** Code after one that always exits is on no path. */
  lemma {:induction false} ReachedExactly(ns: seq<Node>, accessor: string)
    requires AllStatements(ns)
    ensures Statements(Reached(ns)) && PathsAll(Reached(ns), false, accessor) == PathsAll(ns, false, accessor)
  {
    if ns != [] {
      var first, rest := ns[0], ns[1..];
      assert Statement(first);
      WalkExact(first, false, accessor, false);
      if BlockAlwaysExits(first) {
        assert [first][1..] == [];
        ThenNever(Paths(first, false, accessor), PathsAll(rest, false, accessor), STRAIGHT);
      } else {
        ReachedExactly(rest, accessor);
        assert ([first] + Reached(rest))[1..] == Reached(rest);
      }
    }
  }

  lemma {:induction false} ExpressionList(ns: seq<Node>)
    requires forall i :: 0 <= i < |ns| ==> Expression(ns[i])
    ensures Statements(ns) && CanFinishAll(ns) && AllStatements(ns)
  {
    assert Expressions(ns) by { ExpressionsOf(ns); }
    ExpressionsAreStatements(ns);
    forall i | 0 <= i < |ns| ensures Statement(ns[i]) {
      ExpressionIsStatement(ns[i]);
    }
  }

  lemma {:induction false} ExpressionsOf(ns: seq<Node>)
    requires forall i :: 0 <= i < |ns| ==> Expression(ns[i])
    ensures Expressions(ns)
  {
    if ns != [] {
      ExpressionsOf(ns[1..]);
    }
  }

  lemma PartsInFragment(n: Node)
    requires LoopFragment(n)
    ensures Statements(Once(n)) && CanFinishAll(Once(n))
    ensures Statements(Final(n)) && CanFinishAll(Final(n))
    ensures AllStatements(Round(n)) && Final(n) <= Round(n)
  {
    hide Expression, Statement;
    ExpressionList(Once(n));
    ExpressionList(Final(n));
    if n.kind.For? {
      ExpressionList(ForTest(n));
      ExpressionList(ForUpdate(n));
    } else {
      ExpressionIsStatement(n.children[0]);
    }
  }

  // ---------- any number of rounds ----------

  lemma {:induction false} RoundsNotEmpty(round: set<Path>, k: nat, last: set<Path>)
    requires round != {} && last != {}
    ensures Rounds(round, k, last) != {}
  {
    hide CanFinish, Then;
    if k > 0 {
      RoundsNotEmpty(round, k - 1, last);
      ThenFinish(round, Rounds(round, k - 1, last));
    }
  }

  lemma RoundsStep(round: set<Path>, k: nat, last: set<Path>)
    ensures k == 0 ==> Rounds(round, k, last) == last
    ensures k > 0 ==> Rounds(round, k, last) == Then(round, Rounds(round, k - 1, last))
  {
  }

  /** Whatever goes wrong in `last` goes wrong in a round too. */
  ghost predicate Covered(last: set<Path>, round: set<Path>) {
    forall saw, use :: Hits(last, saw, use) ==> Hits(round, saw, use)
  }

  lemma UseCovered(last: set<Path>, round: set<Path>, saw: bool, use: nat)
    requires Covered(last, round)
    ensures Hits(last, saw, use) ==> Hits(round, saw, use)
  {
  }

  /** Whatever goes wrong in some round goes wrong in the first, or in one that
      is entered after an await. */
  lemma {:induction false} WrongRound(round: set<Path>, k: nat, last: set<Path>, saw: bool, use: nat)
    requires round != {} && last != {} && Covered(last, round)
    requires Hits(Rounds(round, k, last), saw, use)
    ensures Hits(round, saw, use) ||
            (CanFinish(round) && (saw || CanSuspend(round)) && Hits(round, true, use))
  {
    hide *;
    RoundsStep(round, k, last);
    UseCovered(last, round, saw, use);
    if k > 0 {
      RoundsNotEmpty(round, k - 1, last);
      ThenHits(round, Rounds(round, k - 1, last), saw, use);
      if !Hits(round, saw, use) {
        WrongRound(round, k - 1, last, saw || CanSuspend(round), use);
      }
    }
  }

  /** Two rounds are enough to show it. */
  lemma RoundsShow(round: set<Path>, last: set<Path>, saw: bool, use: nat)
    requires round != {} && last != {}
    ensures Hits(round, saw, use) ==> Hits(Rounds(round, 1, last), saw, use)
    ensures CanFinish(round) && (saw || CanSuspend(round)) && Hits(round, true, use) ==>
              Hits(Rounds(round, 2, last), saw, use)
  {
    RoundsNotEmpty(round, 0, last);
    RoundsNotEmpty(round, 1, last);
    RoundsStep(round, 1, last);
    RoundsStep(round, 2, last);
    hide *;
    ThenHits(round, Rounds(round, 0, last), saw, use);
    ThenHits(round, Rounds(round, 0, last), saw || CanSuspend(round), use);
    ThenHits(round, Rounds(round, 1, last), saw, use);
  }

  lemma ReportsHit(a: set<Path>, saw: bool, f: Flow)
    requires Exact(a, saw, f)
    ensures f.reports != [] <==> exists use :: Hits(a, saw, use)
    ensures a != {} && (CanFinish(a) ==> (f.saw <==> saw || CanSuspend(a)))
  {
    hide Hits, CanFinish, CanSuspend;
    if f.reports != [] {
      assert f.reports[0] in f.reports;
    }
  }

  lemma FinalCovered(n: Node, accessor: string)
    requires LoopFragment(n)
    ensures Covered(PathsAll(Final(n), false, accessor), PathsAll(Round(n), false, accessor))
    ensures PathsAll(Final(n), false, accessor) != {}
  {
    PartsInFragment(n);
    assert |Final(n)| <= 1;
    hide LoopFragment, IsLoop, Final, Round, Exact, Paths;
    if Final(n) == [] {
      NothingStraight();
    } else {
      var test, rest := Final(n)[0], Round(n)[1..];
      assert Final(n) == [test] && Round(n)[0] == test && Round(n) == [test] + rest;
      FirstCovered(test, rest, accessor);
    }
  }

  /** What goes wrong in the first part goes wrong in the whole. */
  lemma FirstCovered(test: Node, rest: seq<Node>, accessor: string)
    requires AllStatements([test] + rest)
    ensures Covered(PathsAll([test], false, accessor), PathsAll([test] + rest, false, accessor))
    ensures PathsAll([test], false, accessor) != {}
  {
    var first, others := Paths(test, false, accessor), PathsAll(rest, false, accessor);
    assert Statement(([test] + rest)[0]);
    assert AllStatements(rest) by {
      assert forall i :: 0 <= i < |rest| ==> rest[i] == ([test] + rest)[i + 1];
    }
    assert [test][1..] == [] && ([test] + rest)[1..] == rest;
    assert PathsAll([test], false, accessor) == Then(first, STRAIGHT);
    assert PathsAll([test] + rest, false, accessor) == Then(first, others);
    hide PathsAll, Paths, Walk, WalkAll, AllStatements, Reached;
    WalkExact(test, false, accessor, false);
    LastExact(first, false, Walk(test, false, accessor, false));
    AllNotEmpty(rest, accessor);
    hide Then, Hits, Exact;
    forall saw, use | Hits(first, saw, use) ensures Hits(Then(first, others), saw, use) {
      ThenHitsFirst(first, others, saw, use);
    }
  }

  lemma AllNotEmpty(ns: seq<Node>, accessor: string)
    requires AllStatements(ns)
    ensures PathsAll(ns, false, accessor) != {}
  {
    ReachedExactly(ns, accessor);
    WalkAllExact(Reached(ns), false, accessor, false);
  }

  lemma NothingStraight()
    ensures forall saw, use :: !Hits(STRAIGHT, saw, use)
  {
  }

  /** The rounds of a loop entered with flag `saw`. */
  ghost predicate RoundsWrong(round: set<Path>, last: set<Path>, saw: bool) {
    exists k: nat, use :: k > 0 && Hits(Rounds(round, k, last), saw, use)
  }

  lemma RoundsExactly(round: set<Path>, last: set<Path>, saw: bool, f: Flow, again: Flow)
    requires last != {} && Covered(last, round)
    requires Exact(round, saw, f) && Exact(round, true, again)
    ensures RoundsWrong(round, last, saw) <==>
            f.reports != [] || (CanFinish(round) && f.saw && again.reports != [])
    ensures forall use :: Hits(last, saw, use) ==> f.reports != []
  {
    ReportsHit(round, saw, f);
    ReportsHit(round, true, again);
    hide Hits, CanFinish, CanSuspend, Exact, Rounds;
    if RoundsWrong(round, last, saw) {
      var k: nat, use :| k > 0 && Hits(Rounds(round, k, last), saw, use);
      WrongRound(round, k, last, saw, use);
    }
    if use :| Hits(round, saw, use) {
      RoundsShow(round, last, saw, use);
    }
    if use :| CanFinish(round) && (saw || CanSuspend(round)) && Hits(round, true, use) {
      RoundsShow(round, last, saw, use);
    }
  }

  // ---------- what is wrong with a loop ----------

  function OnceFlow(n: Node, accessor: string): Flow
    requires IsLoop(n)
  {
    WalkAll(Once(n), false, accessor, false)
  }

  /** A walk over one round, as far as it is reached. */
  function RoundFlow(n: Node, accessor: string, saw: bool): Flow
    requires IsLoop(n)
  {
    WalkAll(Reached(Round(n)), false, accessor, saw)
  }

  /** The parts of a loop in execution order, one round, report something. */
  predicate FirstRoundWrong(n: Node, accessor: string)
    requires IsLoop(n)
  {
    OnceFlow(n, accessor).reports != [] ||
    RoundFlow(n, accessor, OnceFlow(n, accessor).saw).reports != []
  }

  /** A second round can follow, after an await, and would report something. */
  predicate LaterRoundWrong(n: Node, accessor: string)
    requires IsLoop(n)
  {
    CanFinishAll(Reached(Round(n))) && RoundFlow(n, accessor, OnceFlow(n, accessor).saw).saw &&
    RoundFlow(n, accessor, true).reports != []
  }

  /** What the executions of a loop, of any kind and any number of rounds, do
      wrong can be read off three walks in execution order. */
  lemma LoopExactly(n: Node, accessor: string)
    requires LoopFragment(n)
    ensures IsWrong(n, accessor) <==> FirstRoundWrong(n, accessor) || LaterRoundWrong(n, accessor)
  {
    LoopPaths(n, accessor);
    var p := OnceFlow(n, accessor);
    var once, round := PathsAll(Once(n), false, accessor), PathsAll(Round(n), false, accessor);
    var last := PathsAll(Final(n), false, accessor);
    ReportsHit(once, false, p);
    RoundsExactly(round, last, p.saw, RoundFlow(n, accessor, p.saw), RoundFlow(n, accessor, true));
    hide PathsAll, Hits, Exact, CanFinish, CanSuspend, RoundFlow, OnceFlow, Rounds;
    hide Once, Round, Final, Reached, LoopFragment;
    if IsWrong(n, accessor) {
      var k: nat, use :| LateUse(n, k, use, accessor);
      LateUseIs(n, k, use, accessor);
      if k == 0 {
        RoundsStep(round, 0, last);
      }
    }
    if use :| Hits(once, false, use) {
      LateUseIs(n, 1, use, accessor);
      assert LateUse(n, 1, use, accessor);
    }
    if k: nat, use :| k > 0 && Hits(Rounds(round, k, last), p.saw, use) {
      LateUseIs(n, k, use, accessor);
      assert LateUse(n, k, use, accessor);
    }
  }

  /** The walks over the parts of a loop are exact. */
  lemma LoopPaths(n: Node, accessor: string)
    requires LoopFragment(n)
    ensures var once, round := PathsAll(Once(n), false, accessor), PathsAll(Round(n), false, accessor);
            var last := PathsAll(Final(n), false, accessor);
            Exact(once, false, OnceFlow(n, accessor)) && CanFinish(once) &&
            last != {} && Covered(last, round) &&
            (forall saw: bool :: Exact(round, saw, RoundFlow(n, accessor, saw))) &&
            (CanFinish(round) <==> CanFinishAll(Reached(Round(n))))
  {
    PartsInFragment(n);
    FinalCovered(n, accessor);
    ReachedExactly(Round(n), accessor);
    WalkAllExact(Once(n), false, accessor, false);
    hide Once, Round, Final, LoopFragment, IsLoop;
    var round := PathsAll(Round(n), false, accessor);
    forall saw: bool ensures Exact(round, saw, RoundFlow(n, accessor, saw)) {
      WalkAllExact(Reached(Round(n)), false, accessor, saw);
    }
    WalkAllExact(Reached(Round(n)), false, accessor, false);
  }

  lemma LateUseIs(n: Node, k: nat, use: nat, accessor: string)
    requires LoopFragment(n)
    ensures LateUse(n, k, use, accessor) <==>
            (n.kind.DoWhile? ==> k > 0) &&
            (Hits(PathsAll(Once(n), false, accessor), false, use) ||
             Hits(Rounds(PathsAll(Round(n), false, accessor), k, PathsAll(Final(n), false, accessor)),
                  OnceFlow(n, accessor).saw, use))
  {
    LoopPaths(n, accessor);
    var once, round := PathsAll(Once(n), false, accessor), PathsAll(Round(n), false, accessor);
    var last := PathsAll(Final(n), false, accessor);
    ReportsHit(once, false, OnceFlow(n, accessor));
    assert round != {} by { ReportsHit(round, true, RoundFlow(n, accessor, true)); }
    RoundsNotEmpty(round, k, last);
    hide PathsAll, Hits, Exact, CanFinish, CanSuspend, RoundFlow, OnceFlow, Rounds;
    hide Once, Round, Final, Reached, LoopFragment;
    ThenHits(once, Rounds(round, k, last), false, use);
  }

  // ---------- what the rule sees of it ----------

  /** The rule reports something in the loop. */
  predicate RuleReports(n: Node, accessor: string) {
    Walk(n, false, accessor, false).reports != []
  }

  /** The source order of a loop is that of its first round, except that the
      parts `early` come before the parts `late`, which are executed first. */
  datatype Order = Order(before: seq<Node>, early: seq<Node>, late: seq<Node>, after: seq<Node>)

  function OrderOf(n: Node): Order
    requires IsLoop(n)
  {
    match n.kind
    case While => Order(n.children, [], [], [])
    case DoWhile => Order([], [n.children[0]], [Body(n)], [])
    case ForEach => Order([], [n.children[0]], [n.children[1]], [Body(n)])
    case For(_, _, _) => Order(Once(n) + ForTest(n), ForUpdate(n), [Body(n)], [])
  }

  lemma OrdersOf(n: Node)
    requires IsLoop(n)
    ensures var o := OrderOf(n);
            n.children == o.before + o.early + o.late + o.after &&
            Once(n) + Round(n) == o.before + o.late + o.early + o.after
  {
    if n.kind.For? {
      ForChildren(n);
      var pre, test, body, update := Once(n), ForTest(n), [Body(n)], ForUpdate(n);
      hide IsLoop, ForTest, ForUpdate, Body;
      assert pre + (test + body + update) == pre + test + body + update + [];
      assert pre + test + update + body == pre + test + update + body + [];
    } else {
      ShortOrders(n);
    }
  }

  lemma ShortOrders(n: Node)
    requires IsLoop(n) && !n.kind.For?
    ensures var o := OrderOf(n);
            n.children == o.before + o.early + o.late + o.after &&
            Once(n) + Round(n) == o.before + o.late + o.early + o.after
  {
  }

  lemma ForChildren(n: Node)
    requires IsLoop(n) && n.kind.For?
    ensures n.children == Once(n) + ForTest(n) + ForUpdate(n) + [Body(n)]
  {
  }

  lemma {:induction false} WalkAllConcat(a: seq<Node>, b: seq<Node>, accessor: string, saw: bool)
    ensures var f := WalkAll(a, false, accessor, saw);
            WalkAll(a + b, false, accessor, saw) == Report(f.reports, WalkAll(b, false, accessor, f.saw))
  {
    hide Walk;
    if a == [] {
      assert a + b == b;
    } else {
      assert (a + b)[1..] == a[1..] + b;
      WalkAllConcat(a[1..], b, accessor, Walk(a[0], false, accessor, saw).saw);
    }
  }

  /** Parts that can be run through keep a raised flag. */
  lemma FinishingParts(ns: seq<Node>, accessor: string)
    requires Statements(ns) && CanFinishAll(ns)
    ensures WalkAll(ns, false, accessor, true).saw
    ensures WalkAll(ns, false, accessor, false).reports != [] ==> WalkAll(ns, false, accessor, true).reports != []
  {
    LateIsWorse(ns, accessor);
    WalkAllExact(ns, false, accessor, true);
    ReportsHit(PathsAll(ns, false, accessor), true, WalkAll(ns, false, accessor, true));
  }

  /** What is wrong without an await before it is wrong after one. */
  lemma LateIsWorse(ns: seq<Node>, accessor: string)
    requires Statements(ns)
    ensures WalkAll(ns, false, accessor, false).reports != [] ==> WalkAll(ns, false, accessor, true).reports != []
  {
    var a := PathsAll(ns, false, accessor);
    WalkAllExact(ns, false, accessor, false);
    WalkAllExact(ns, false, accessor, true);
    ReportsHit(a, false, WalkAll(ns, false, accessor, false));
    ReportsHit(a, true, WalkAll(ns, false, accessor, true));
    hide PathsAll, WalkAll, CanFinish, CanSuspend;
    if use :| Hits(a, false, use) {
      var p :| p in a && UsedLate(p.trace, false, use);
      UsedLateMonotone(p.trace, use);
      assert Hits(a, true, use);
    }
  }

  function Flag(ns: seq<Node>, accessor: string, saw: bool): bool {
    WalkAll(ns, false, accessor, saw).saw
  }

  predicate Reports(ns: seq<Node>, accessor: string, saw: bool) {
    WalkAll(ns, false, accessor, saw).reports != []
  }

  /** Two parts give the same answer in either order: one is wrong by itself, or
      each is wrong after the other, or neither is. */
  predicate OrderIrrelevant(x: seq<Node>, y: seq<Node>, accessor: string) {
    Reports(x, accessor, false) || Reports(y, accessor, false) ||
    (Flag(x, accessor, false) && Reports(y, accessor, true) <==> Flag(y, accessor, false) && Reports(x, accessor, true))
  }

  lemma WalkOrder(o: Order, accessor: string)
    ensures Reports(o.before + o.early + o.late + o.after, accessor, false) <==>
            var s := Flag(o.before, accessor, false);
            var t := Flag(o.early, accessor, s);
            var u := Flag(o.late, accessor, t);
            Reports(o.before, accessor, false) || Reports(o.early, accessor, s) || Reports(o.late, accessor, t) ||
            Reports(o.after, accessor, u)
  {
    var s := Flag(o.before, accessor, false);
    var t := Flag(o.early, accessor, s);
    hide WalkAll;
    WalkAllConcat(o.before + o.early + o.late, o.after, accessor, false);
    WalkAllConcat(o.before + o.early, o.late, accessor, false);
    WalkAllConcat(o.before, o.early, accessor, false);
  }

  /** The answer of the source order is that of the execution order exactly if
      something else decides it, or the order of the two parts is irrelevant. */
  lemma SwapExactly(o: Order, accessor: string)
    requires Statements(o.early) && CanFinishAll(o.early) && Statements(o.late) && CanFinishAll(o.late)
    ensures (Reports(o.before + o.early + o.late + o.after, accessor, false) <==>
             Reports(o.before + o.late + o.early + o.after, accessor, false)) <==>
            Reports(o.before, accessor, false) || Flag(o.before, accessor, false) ||
            OrderIrrelevant(o.early, o.late, accessor) ||
            Reports(o.after, accessor, Flag(o.early, accessor, false) || Flag(o.late, accessor, false))
  {
    WalkOrder(o, accessor);
    WalkOrder(Order(o.before, o.late, o.early, o.after), accessor);
    FinishingParts(o.early, accessor);
    FinishingParts(o.late, accessor);
    hide WalkAll, Statements, CanFinishAll;
  }

  lemma {:induction false} FinishingReached(a: seq<Node>, b: seq<Node>)
    requires forall i :: 0 <= i < |a| ==> !BlockAlwaysExits(a[i])
    ensures Reached(a + b) == a + Reached(b)
  {
    if a == [] {
      assert a + b == b;
    } else {
      assert (a + b)[1..] == a[1..] + b;
      FinishingReached(a[1..], b);
    }
  }

  lemma LastReached(n: Node)
    ensures Reached([n]) == [n]
  {
    assert [n][1..] == [];
  }

  lemma ExpressionsFinish(ns: seq<Node>)
    requires forall i :: 0 <= i < |ns| ==> Expression(ns[i])
    ensures forall i :: 0 <= i < |ns| ==> !BlockAlwaysExits(ns[i])
  {
    forall i | 0 <= i < |ns| ensures !BlockAlwaysExits(ns[i]) {
      ExpressionIsStatement(ns[i]);
    }
  }

  /** Only a body that always exits keeps part of a round from being reached. */
  lemma RoundReached(n: Node)
    requires LoopFragment(n)
    ensures var o := OrderOf(n);
            CanFinishAll(o.late) ==> Once(n) + Reached(Round(n)) == o.before + o.late + o.early + o.after
    ensures var o := OrderOf(n);
            !CanFinishAll(o.late) ==>
              Once(n) + Reached(Round(n)) == o.before + o.late && o.late == [Body(n)] && o.after == []
    ensures Statements(OrderOf(n).early) && CanFinishAll(OrderOf(n).early) && Statements(OrderOf(n).late)
  {
    OrdersOf(n);
    BodyAlone(n);
    if n.kind.For? {
      ForReached(n);
    } else {
      TwoReached(n);
      NoParts();
    }
  }

  lemma NoParts()
    ensures Statements([]) && CanFinishAll([])
  {
  }

  lemma TwoReached(n: Node)
    requires LoopFragment(n) && !n.kind.For?
    ensures var part, body := n.children[0], Body(n);
            Statements([part]) && CanFinishAll([part]) &&
            (n.kind.ForEach? ==> Statements([n.children[1]])) &&
            Reached(Round(n)) == if n.kind.DoWhile? then [body] + (if BlockAlwaysExits(body) then [] else [part])
                                 else [part] + [body]
  {
    var part, body := n.children[0], Body(n);
    ExpressionIsStatement(part);
    ExpressionList([part]);
    if n.kind.ForEach? {
      ExpressionList([n.children[1]]);
    }
    assert [part] + [body] == [part, body] && [body] + [part] == [body, part];
    FinishingReached([part], [body]);
    LastReached(body);
    LastReached(part);
    assert [body, part][1..] == [part];
  }

  lemma BodyAlone(n: Node)
    requires LoopFragment(n)
    ensures Statements([Body(n)])
  {
    assert [Body(n)][1..] == [];
  }

  lemma ForReached(n: Node)
    requires LoopFragment(n) && n.kind.For?
    ensures Statements(ForUpdate(n)) && CanFinishAll(ForUpdate(n))
    ensures Reached(Round(n)) ==
            ForTest(n) + [Body(n)] + if BlockAlwaysExits(Body(n)) then [] else ForUpdate(n)
  {
    var test, body, update := ForTest(n), Body(n), ForUpdate(n);
    ExpressionList(update);
    ExpressionsFinish(test);
    ExpressionsFinish(update);
    assert test + [body] + update == test + ([body] + update);
    FinishingReached(test, [body] + update);
    if BlockAlwaysExits(body) {
      assert Reached([body] + update) == [body];
    } else {
      FinishingReached([body], update);
      FinishingReached(update, []);
      assert update + [] == update;
    }
  }

  /** What the rule walks, and what is executed in the first round. */
  lemma RuleAndFirstRound(n: Node, accessor: string)
    requires IsLoop(n)
    ensures RuleReports(n, accessor) <==> Reports(n.children, accessor, false)
    ensures FirstRoundWrong(n, accessor) <==> Reports(Once(n) + Reached(Round(n)), accessor, false)
  {
    assert Walk(n, false, accessor, false) == WalkAll(n.children, false, accessor, false);
    WalkAllConcat(Once(n), Reached(Round(n)), accessor, false);
    hide WalkAll, Walk;
  }

  /** Where a loop's body can be run through, the rule, whose walk is in source
      order, finds what is wrong in the first round exactly under this condition.
      It always holds of a `while`. */
  lemma OrderExactly(n: Node, accessor: string)
    requires LoopFragment(n) && CanFinishAll(OrderOf(n).late)
    ensures var o := OrderOf(n);
            (RuleReports(n, accessor) <==> FirstRoundWrong(n, accessor)) <==>
            Reports(o.before, accessor, false) || Flag(o.before, accessor, false) ||
            OrderIrrelevant(o.early, o.late, accessor) ||
            Reports(o.after, accessor, Flag(o.early, accessor, false) || Flag(o.late, accessor, false))
    ensures n.kind.While? ==> (RuleReports(n, accessor) <==> FirstRoundWrong(n, accessor))
  {
    OrdersOf(n);
    RoundReached(n);
    RuleAndFirstRound(n, accessor);
    SwapExactly(OrderOf(n), accessor);
    assert n.kind.While? ==> OrderIrrelevant([], [], accessor);
    hide Reports, Flag, FirstRoundWrong, RuleReports, OrderIrrelevant, LoopFragment;
  }

  /** Where the body of a `do` or plain `for` always exits, the part that the rule
      walks before it is never executed. The rule is right exactly if that part
      changes nothing, or something is wrong anyway. */
  lemma OrderWithoutRepeat(n: Node, accessor: string)
    requires LoopFragment(n) && !CanFinishAll(OrderOf(n).late)
    ensures var o := OrderOf(n);
            var s := Flag(o.before, accessor, false);
            (RuleReports(n, accessor) <==> FirstRoundWrong(n, accessor)) <==>
            Reports(o.before, accessor, false) || Reports(o.late, accessor, s) ||
            !(Reports(o.early, accessor, s) || Reports(o.late, accessor, Flag(o.early, accessor, s)))
  {
    var o := OrderOf(n);
    OrdersOf(n);
    RoundReached(n);
    RuleAndFirstRound(n, accessor);
    WalkOrder(o, accessor);
    WalkOrder(Order(o.before, [], o.late, []), accessor);
    assert o.before + [] + o.late + [] == o.before + o.late;
    NothingWalked(accessor);
    LateIsWorse(o.late, accessor);
    FinishingParts(o.early, accessor);
    hide WalkAll, FirstRoundWrong, RuleReports, LoopFragment;
  }

  lemma NothingWalked(accessor: string)
    ensures forall saw: bool :: !Reports([], accessor, saw) && Flag([], accessor, saw) == saw
  {
  }

  // ---------- examples ----------

  /** `accessor.get(...)` */
  function Get(id: nat, accessor: string): Node {
    Call(id, Member(id + 1, Ident(id + 2, accessor), Ident(id + 3, "get"), false), [])
  }

  lemma GetWalk(id: nat, accessor: string, saw: bool)
    ensures Expression(Get(id, accessor))
    ensures Walk(Get(id, accessor), false, accessor, saw) == Flow(saw, if saw then [id] else [])
  {
    var get := Get(id, accessor);
    var callee := get.callee;
    assert Expression(callee.target) && Expression(callee.property) && Expression(callee);
    assert Walk(callee.target, false, accessor, saw) == Flow(saw, []);
    assert Walk(callee, false, accessor, saw) == Flow(saw, []);
    assert WalkAll([], true, accessor, saw) == Flow(saw, []);
    assert WalkInside(get, accessor, saw) == Report([], Flow(saw, []));
  }

  lemma NameWalk(id: nat, name: string, accessor: string, saw: bool)
    ensures Expression(Ident(id, name)) && Walk(Ident(id, name), false, accessor, saw) == Flow(saw, [])
  {
    assert WalkInside(Ident(id, name), accessor, saw) == Flow(saw, []);
  }

  lemma AwaitWalk(id: nat, n: Node, accessor: string, saw: bool)
    requires Expression(n)
    ensures Expression(Await(id, n))
    ensures Walk(Await(id, n), false, accessor, saw) == Flow(true, Walk(n, false, accessor, saw).reports)
  {
  }

  lemma TwoWalk(a: Node, b: Node, accessor: string, saw: bool)
    ensures var f := Walk(a, false, accessor, saw);
            var g := Walk(b, false, accessor, f.saw);
            WalkAll([a, b], false, accessor, saw) == Flow(g.saw, f.reports + g.reports)
  {
    var f := Walk(a, false, accessor, saw);
    var g := Walk(b, false, accessor, f.saw);
    hide Walk;
    assert [a, b][1..] == [b] && [b][1..] == [];
    assert WalkAll([b], false, accessor, f.saw) == Report(g.reports, Flow(g.saw, []));
    assert g.reports + [] == g.reports;
  }

  /** `while (c) await accessor.get(...)` passes the rule, although its second
      round uses the accessor after an await. */
  lemma WhileMissed(accessor: string)
    ensures var loop := Loop(0, While, [Ident(9, "c"), Await(1, Get(2, accessor))]);
            LoopFragment(loop) && !RuleReports(loop, accessor) && IsWrong(loop, accessor)
  {
    var test, body := Ident(9, "c"), Await(1, Get(2, accessor));
    var loop := Loop(0, While, [test, body]);
    LateGet(test, body, accessor, false);
    LateGet(test, body, accessor, true);
    hide Walk, WalkAll, Expression, IsWrong, RuleReports;
    WhileJudged(loop, accessor);
  }

  lemma LateGet(test: Node, body: Node, accessor: string, saw: bool)
    requires test == Ident(9, "c") && body == Await(1, Get(2, accessor))
    ensures Expression(test) && Expression(body)
    ensures WalkAll([test, body], false, accessor, saw) == Flow(true, if saw then [2] else [])
  {
    NameWalk(9, "c", accessor, saw);
    GetWalk(2, accessor, saw);
    AwaitWalk(1, Get(2, accessor), accessor, saw);
    TwoWalk(test, body, accessor, saw);
  }

  lemma WhileJudged(n: Node, accessor: string)
    requires n.Loop? && n.kind.While? && |n.children| == 2 && Expression(n.children[0]) && Expression(n.children[1])
    requires WalkAll(n.children, false, accessor, false) == Flow(true, [])
    requires WalkAll(n.children, false, accessor, true).reports != []
    ensures LoopFragment(n) && !RuleReports(n, accessor) && IsWrong(n, accessor)
  {
    ExpressionIsStatement(n.children[0]);
    ExpressionIsStatement(n.children[1]);
    RuleAndFirstRound(n, accessor);
    assert Round(n) == n.children && n.children[1..] == [Body(n)];
    LastReached(Body(n));
    assert Reached(Round(n)) == n.children;
    NothingWalked(accessor);
    LoopExactly(n, accessor);
  }

  /** `do await x; while (accessor.get(...))` passes too, and is wrong in its first
      round: the rule walks the test before the body. */
  lemma DoWhileMissed(accessor: string)
    ensures var loop := Loop(0, DoWhile, [Get(2, accessor), Await(1, Ident(9, "x"))]);
            LoopFragment(loop) && !RuleReports(loop, accessor) &&
            FirstRoundWrong(loop, accessor) && IsWrong(loop, accessor)
  {
    var test, body := Get(2, accessor), Await(1, Ident(9, "x"));
    var loop := Loop(0, DoWhile, [test, body]);
    GetWalk(2, accessor, false);
    GetWalk(2, accessor, true);
    NameWalk(9, "x", accessor, false);
    AwaitWalk(1, Ident(9, "x"), accessor, false);
    TwoWalk(test, body, accessor, false);
    TwoWalk(body, test, accessor, false);
    ExpressionIsStatement(test);
    ExpressionIsStatement(body);
    FinishingReached([body], [test]);
    LastReached(test);
    assert [body] + [test] == [body, test] && Reached(Round(loop)) == [body, test];
    NothingWalked(accessor);
    hide Walk, WalkAll, Expression, Statement, Reached, BlockAlwaysExits;
    RuleAndFirstRound(loop, accessor);
    assert FirstRoundWrong(loop, accessor);
    LoopExactly(loop, accessor);
  }

  /** `do { accessor.get(...); return; } while (await y)` is blamed for a use that
      no await precedes: its test is never executed. */
  lemma DoWhileBlamed(accessor: string)
    ensures var body := Block(3, [Get(4, accessor), Exit(10, None)]);
            var loop := Loop(0, DoWhile, [Await(1, Ident(9, "y")), body]);
            LoopFragment(loop) && RuleReports(loop, accessor) && !IsWrong(loop, accessor)
  {
    var test, body := Await(1, Ident(9, "y")), Block(3, [Get(4, accessor), Exit(10, None)]);
    var loop := Loop(0, DoWhile, [test, body]);
    NameWalk(9, "y", accessor, false);
    AwaitWalk(1, Ident(9, "y"), accessor, false);
    UseAndReturn(3, 4, 10, accessor, false);
    UseAndReturn(3, 4, 10, accessor, true);
    TwoWalk(test, body, accessor, false);
    assert Reached(Round(loop)) == [body];
    assert [body][1..] == [] && WalkAll([body], false, accessor, false) == Flow(false, []);
    NothingWalked(accessor);
    hide Walk, WalkAll, Expression, Statement, Reached, BlockAlwaysExits;
    RuleAndFirstRound(loop, accessor);
    assert !FirstRoundWrong(loop, accessor) && !LaterRoundWrong(loop, accessor);
    LoopExactly(loop, accessor);
  }

  lemma UseAndReturn(id: nat, use: nat, exit: nat, accessor: string, saw: bool)
    ensures var body := Block(id, [Get(use, accessor), Exit(exit, None)]);
            Statement(body) && BlockAlwaysExits(body) &&
            Walk(body, false, accessor, saw) == Flow(saw, if saw then [use] else [])
  {
    var get, leave := Get(use, accessor), Exit(exit, None);
    GetWalk(use, accessor, saw);
    ExpressionIsStatement(get);
    assert Statement(leave) && Statements([]) && [leave][1..] == [];
    assert Statements([leave]);
    assert [get, leave][1..] == [leave];
    assert Statements([get, leave]);
    assert WalkInside(leave, accessor, saw) == WalkOptional(None, accessor, saw) == Flow(saw, []);
    TwoWalk(get, leave, accessor, saw);
    assert WalkInside(Block(id, [get, leave]), accessor, saw) == WalkAll([get, leave], false, accessor, saw);
  }

  /** `for (const s of await accessor.get(...)) {}` is rightly passed: the awaited
      part is evaluated once. */
  lemma AwaitedOnce(accessor: string)
    ensures var loop := Loop(0, ForEach, [Ordered(10, []), Await(1, Get(2, accessor)), Block(11, [])]);
            LoopFragment(loop) && !RuleReports(loop, accessor) && !IsWrong(loop, accessor)
  {
    var left, right, body := Ordered(10, []), Await(1, Get(2, accessor)), Block(11, []);
    var loop := Loop(0, ForEach, [left, right, body]);
    EmptyParts(accessor, false);
    EmptyParts(accessor, true);
    GetWalk(2, accessor, false);
    AwaitWalk(1, Get(2, accessor), accessor, false);
    TwoWalk(left, body, accessor, true);
    assert [right][1..] == [] && WalkAll([right], false, accessor, false) == Flow(true, []);
    FinishingReached([left], [body]);
    LastReached(body);
    assert [left] + [body] == [left, body] && Reached(Round(loop)) == [left, body];
    assert Once(loop) + Reached(Round(loop)) == [right, left, body];
    hide Walk, WalkAll, Expression, Statement, Reached, BlockAlwaysExits;
    assert !FirstRoundWrong(loop, accessor) && !LaterRoundWrong(loop, accessor);
    LoopExactly(loop, accessor);
    RuleAndFirstRound(loop, accessor);
    OrderOfEmpty(left, right, body, accessor);
  }

  lemma EmptyParts(accessor: string, saw: bool)
    ensures Expression(Ordered(10, [])) && Statement(Block(11, [])) && !BlockAlwaysExits(Ordered(10, []))
    ensures Walk(Ordered(10, []), false, accessor, saw) == Flow(saw, [])
    ensures Walk(Block(11, []), false, accessor, saw) == Flow(saw, [])
  {
    assert Expressions([]) && Statements([]);
    assert WalkAll([], false, accessor, saw) == Flow(saw, []);
    assert WalkInside(Ordered(10, []), accessor, saw) == Flow(saw, []);
    assert WalkInside(Block(11, []), accessor, saw) == Flow(saw, []);
  }

  lemma OrderOfEmpty(left: Node, right: Node, body: Node, accessor: string)
    requires Walk(left, false, accessor, false) == Flow(false, [])
    requires Walk(right, false, accessor, false) == Flow(true, [])
    requires Walk(body, false, accessor, true) == Flow(true, [])
    ensures !Reports([left, right, body], accessor, false)
  {
    assert [left] + [right, body] == [left, right, body];
    WalkAllConcat([left], [right, body], accessor, false);
    assert [left][1..] == [];
    TwoWalk(right, body, accessor, false);
  }
}
