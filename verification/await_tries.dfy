/** Statements that the await walk joins without regard to exceptions: `try`,
    `switch` and `for await`. What they do when no exception crosses them is
    judged exactly; what a `try` does when one may come at any point, and which
    of that the walk misses, is stated exactly too. */
module AwaitTries {
  import opened Sequences
  import opened AwaitFlow
  import opened AwaitPaths
  import L = AwaitLoops

  // ---------- awaits in the fragment ----------

  /** The code contains an `await` that is evaluated on some path. */
  predicate HasAwait(n: Node)
    decreases n, 1
  {
    match n
    case Await(_, _) => true
    case Member(_, target, property, computed) => HasAwait(target) || (computed && HasAwait(property))
    case Call(_, callee, args) => HasAwait(callee) || HasAwaits(args)
    case Conditional(_, test, consequent, alternate) => HasAwait(test) || HasAwait(consequent) || HasAwait(alternate)
    case Logical(_, left, right) => HasAwait(left) || HasAwait(right)
    case Ordered(_, children) => HasAwaits(children)
    case Block(_, body) => HasAwaits(body)
    case If(_, test, consequent, otherwise) => HasAwait(test) || HasAwait(consequent) || HasAwaitIn(otherwise)
    case Exit(_, value) => HasAwaitIn(value)
    case _ => false
  }

  predicate HasAwaits(ns: seq<Node>)
    decreases ns, 2
  {
    ns != [] && (HasAwait(ns[0]) || HasAwaits(ns[1..]))
  }

  predicate HasAwaitIn(o: Option<Node>)
    decreases o, 2
  {
    o.Some? && HasAwait(o.value)
  }

  /** Some path suspends, whether it then leaves the function or not. */
  ghost predicate MaySuspend(a: set<Path>) {
    exists p :: p in a && Suspend in p.trace
  }

  lemma ThenMaySuspend(a: set<Path>, b: set<Path>)
    requires b != {}
    ensures MaySuspend(Then(a, b)) <==> MaySuspend(a) || (CanFinish(a) && MaySuspend(b))
  {
    if p :| p in a && Suspend in p.trace {
      if p.exits {
        assert p in Then(a, b);
      } else {
        var q :| q in b;
        ThenMember(a, b, p, q);
      }
    }
    if p, q :| p in a && !p.exits && q in b && Suspend in q.trace {
      ThenMember(a, b, p, q);
    }
  }

  lemma EitherMaySuspend(a: set<Path>, b: set<Path>)
    ensures MaySuspend(a + b) <==> MaySuspend(a) || MaySuspend(b)
  {
  }

  lemma ConstantsSuspend()
    ensures !MaySuspend(STRAIGHT) && MaySuspend(PAUSE) && !MaySuspend(LEAVE)
  {
    assert Path([Suspend], false) in PAUSE;
  }

  /** The paths of a statement: there are some, and they suspend as its awaits say. */
  ghost predicate Told(a: set<Path>, awaits: bool, finishes: bool) {
    a != {} && (MaySuspend(a) <==> awaits) && (CanFinish(a) <==> finishes)
  }

  lemma ThenTold(a: set<Path>, b: set<Path>, x: bool, y: bool, finishes: bool)
    requires Told(a, x, true) && Told(b, y, finishes)
    ensures Told(Then(a, b), x || y, finishes)
  {
    ThenMaySuspend(a, b);
    ThenFinish(a, b);
    hide MaySuspend, CanFinish, Then;
  }

  lemma EitherTold(a: set<Path>, b: set<Path>, x: bool, y: bool, f: bool, g: bool)
    requires Told(a, x, f) && Told(b, y, g)
    ensures Told(a + b, x || y, f || g)
  {
  }

  lemma StraightTold()
    ensures Told(STRAIGHT, false, true) && Told(PAUSE, true, true) && Told(LEAVE, false, false)
  {
    ConstantsSuspend();
    assert Path([], false) in STRAIGHT && Path([Suspend], false) in PAUSE && Path([], true) in LEAVE;
  }

  lemma {:induction false} AwaitsTold(n: Node, isArgument: bool, accessor: string)
    requires Statement(n)
    ensures Told(Paths(n, isArgument, accessor), HasAwait(n), !BlockAlwaysExits(n))
    decreases n, 1
  {
    hide Told, Then;
    var here := if IsAccessorUsage(n, isArgument, accessor) then {Path([Use(n.id)], false)} else STRAIGHT;
    assert Told(here, false, true) by { HereTold(here, n.id); }
    StraightTold();
    match n
    case Ident(_, _) =>
    case Member(_, target, property, computed) =>
      ExpressionTold(target, accessor);
      if computed {
        ExpressionTold(property, accessor);
        ThenTold(Paths(target, false, accessor), Paths(property, false, accessor),
          HasAwait(target), HasAwait(property), true);
      }
    case Call(_, callee, args) =>
      ExpressionTold(callee, accessor);
      ExpressionsAreStatements(args);
      AllTold(args, true, accessor);
      ThenTold(Paths(callee, false, accessor), PathsAll(args, true, accessor), HasAwait(callee), HasAwaits(args), true);
      ThenTold(here, Then(Paths(callee, false, accessor), PathsAll(args, true, accessor)), false, HasAwait(n), true);
    case Await(_, argument) =>
      ExpressionTold(argument, accessor);
      ThenTold(Paths(argument, false, accessor), PAUSE, HasAwait(argument), true, true);
    case Conditional(_, test, consequent, alternate) =>
      ExpressionTold(test, accessor);
      ExpressionTold(consequent, accessor);
      ExpressionTold(alternate, accessor);
      var c, a := Paths(consequent, false, accessor), Paths(alternate, false, accessor);
      EitherTold(c, a, HasAwait(consequent), HasAwait(alternate), true, true);
      ThenTold(Paths(test, false, accessor), c + a, HasAwait(test), HasAwait(consequent) || HasAwait(alternate), true);
    case Logical(_, left, right) =>
      ExpressionTold(left, accessor);
      ExpressionTold(right, accessor);
      EitherTold(STRAIGHT, Paths(right, false, accessor), false, HasAwait(right), true, true);
      ThenTold(Paths(left, false, accessor), STRAIGHT + Paths(right, false, accessor),
        HasAwait(left), HasAwait(right), true);
    case Ordered(_, children) =>
      ExpressionsAreStatements(children);
      AllTold(children, false, accessor);
    case Block(_, body) =>
      AllTold(body, false, accessor);
    case If(_, test, consequent, otherwise) =>
      ExpressionTold(test, accessor);
      AwaitsTold(consequent, false, accessor);
      OptionalTold(otherwise, accessor);
      var c, a := Paths(consequent, false, accessor), PathsOptional(otherwise, accessor);
      EitherTold(c, a, HasAwait(consequent), HasAwaitIn(otherwise), !BlockAlwaysExits(consequent),
                 otherwise.None? || !BlockAlwaysExits(otherwise.value));
      ThenTold(Paths(test, false, accessor), c + a, HasAwait(test), HasAwait(consequent) || HasAwaitIn(otherwise),
               !BlockAlwaysExits(n));
    case Exit(_, value) =>
      if value.Some? {
        ExpressionIsStatement(value.value);
      }
      OptionalTold(value, accessor);
      ThenTold(PathsOptional(value, accessor), LEAVE, HasAwaitIn(value), false, false);
  }

  lemma HereTold(here: set<Path>, id: nat)
    requires here == STRAIGHT || here == {Path([Use(id)], false)}
    ensures Told(here, false, true)
  {
    StraightTold();
    if here != STRAIGHT {
      assert Path([Use(id)], false) in here;
    }
  }

  lemma {:induction false} ExpressionTold(n: Node, accessor: string)
    requires Expression(n)
    ensures Told(Paths(n, false, accessor), HasAwait(n), true)
    decreases n, 2
  {
    ExpressionIsStatement(n);
    AwaitsTold(n, false, accessor);
  }

  lemma {:induction false} OptionalTold(o: Option<Node>, accessor: string)
    requires o.Some? ==> Statement(o.value)
    ensures Told(PathsOptional(o, accessor), HasAwaitIn(o), o.None? || !BlockAlwaysExits(o.value))
    decreases o, 2
  {
    if o.Some? {
      AwaitsTold(o.value, false, accessor);
    } else {
      StraightTold();
    }
  }

  lemma {:induction false} AllTold(ns: seq<Node>, areArguments: bool, accessor: string)
    requires Statements(ns)
    ensures Told(PathsAll(ns, areArguments, accessor), HasAwaits(ns), L.CanFinishAll(ns))
    decreases ns, 2
  {
    hide Told, Then;
    StraightTold();
    if ns != [] {
      AwaitsTold(ns[0], areArguments, accessor);
      AllTold(ns[1..], areArguments, accessor);
      if |ns| == 1 {
        LastTold(Paths(ns[0], areArguments, accessor), HasAwait(ns[0]), !BlockAlwaysExits(ns[0]));
      } else {
        ThenTold(Paths(ns[0], areArguments, accessor), PathsAll(ns[1..], areArguments, accessor),
                 HasAwait(ns[0]), HasAwaits(ns[1..]), L.CanFinishAll(ns));
      }
    }
  }

  lemma LastTold(a: set<Path>, awaits: bool, finishes: bool)
    requires Told(a, awaits, finishes)
    ensures Told(Then(a, STRAIGHT), awaits, finishes)
  {
    StraightTold();
    ThenMaySuspend(a, STRAIGHT);
    ThenFinish(a, STRAIGHT);
    hide MaySuspend, CanFinish, Then;
  }

  // ---------- a try that no exception crosses ----------

  /** Without exceptions inside the parts: the block is run, or the handler is,
      from the start; and then the finalizer. */
  function CalmTry(n: Node, accessor: string): set<Path>
    requires n.Try?
  {
    var handled := match n.handler case Some(h) => Paths(h, false, accessor) case None => {};
    Then(Paths(n.block, false, accessor) + handled, PathsOptional(n.finalizer, accessor))
  }

  predicate InFragment(o: Option<Node>) {
    o.Some? ==> Statement(o.value)
  }

  predicate TryFragment(n: Node) {
    n.Try? && Statement(n.block) && InFragment(n.handler) && InFragment(n.finalizer)
  }

  predicate RunsThrough(o: Option<Node>) {
    o.Some? ==> !BlockAlwaysExits(o.value)
  }

  /** The flag with which the walk goes on after block and handler. */
  function JoinedFlag(n: Node, accessor: string, saw: bool): bool
    requires n.Try?
  {
    Walk(n.block, false, accessor, saw).saw || WalkOptional(n.handler, accessor, saw).saw
  }

  lemma TryWalk(n: Node, accessor: string, saw: bool)
    requires n.Try?
    ensures var f := WalkOptional(n.finalizer, accessor, JoinedFlag(n, accessor, saw));
            Walk(n, false, accessor, saw) ==
            Flow(f.saw, Walk(n.block, false, accessor, saw).reports +
                        WalkOptional(n.handler, accessor, saw).reports + f.reports)
  {
  }

  /** The finalizer, or the code after a `try` without one, is walked with the
      flag up exactly if it was up before, or some path runs through the block and
      suspends, or some path of the handler does. */
  lemma FlagJoins(n: Node, accessor: string, saw: bool)
    requires TryFragment(n) && !BlockAlwaysExits(n.block) && RunsThrough(n.handler)
    ensures JoinedFlag(n, accessor, saw) <==>
            saw || CanSuspend(Paths(n.block, false, accessor)) ||
            (n.handler.Some? && CanSuspend(Paths(n.handler.value, false, accessor)))
    ensures n.finalizer.None? ==> Walk(n, false, accessor, saw).saw == JoinedFlag(n, accessor, saw)
  {
    TryWalk(n, accessor, saw);
    WalkExact(n.block, false, accessor, saw);
    if n.handler.Some? {
      WalkExact(n.handler.value, false, accessor, saw);
    }
    hide Walk, CanSuspend, CanFinish, Hits, Paths;
  }

  /** The walk is exact for a `try` that no exception crosses. */
  lemma TryExact(n: Node, accessor: string, saw: bool)
    requires TryFragment(n) && !BlockAlwaysExits(n.block) && RunsThrough(n.handler)
    ensures Exact(CalmTry(n, accessor), saw, Walk(n, false, accessor, saw))
  {
    TryWalk(n, accessor, saw);
    WalkExact(n.block, false, accessor, saw);
    var b, bs := Walk(n.block, false, accessor, saw), Paths(n.block, false, accessor);
    var h := WalkOptional(n.handler, accessor, saw);
    var hs := match n.handler case Some(h) => Paths(h, false, accessor) case None => {};
    var joined := Flow(b.saw || h.saw, b.reports + h.reports);
    assert Exact(bs + hs, saw, joined) && CanFinish(bs + hs) by {
      if n.handler.Some? {
        WalkExact(n.handler.value, false, accessor, saw);
        EitherExact(bs, hs, saw, b, h, b.saw || h.saw);
      } else {
        assert bs + hs == bs && b.reports + [] == b.reports;
        ExactKeepsFlag(bs, saw, b);
      }
    }
    hide Walk, Exact, CanFinish, CanSuspend, Hits, Then, Paths, BlockAlwaysExits;
    WalkOptionalExact(n.finalizer, accessor, joined.saw);
    ThenExact(bs + hs, PathsOptional(n.finalizer, accessor), saw,
      joined, WalkOptional(n.finalizer, accessor, joined.saw));
  }

  // ---------- a try that exceptions may cross ----------

  /** The ways to begin `a` that an exception can cut short, at any point. */
  function Cut(a: set<Path>): set<Path> {
    set p, k | p in a && 0 <= k <= |p.trace| :: Path(p.trace[..k], true)
  }

  /** First a path of `a`, and then always one of `b`; `caught` if what left `a`
      does not leave the whole. */
  function AlwaysThen(a: set<Path>, b: set<Path>, caught: bool): set<Path> {
    set p, q | p in a && q in b :: Path(p.trace + q.trace, (!caught && p.exits) || q.exits)
  }

  /** What a `try` can do: the block is run, or cut short; then the handler, if
      there is one, is run or cut short; and the finalizer is run in any case. */
  function TryPaths(n: Node, accessor: string): set<Path>
    requires n.Try?
  {
    var block := Paths(n.block, false, accessor);
    var interrupted :=
      match n.handler
      case Some(h) =>
        var handler := Paths(h, false, accessor);
        AlwaysThen(Cut(block), handler + Cut(handler), true)
      case None => Cut(block);
    AlwaysThen(block + interrupted, PathsOptional(n.finalizer, accessor), false)
  }

  /** Some path uses the accessor after an await, entered with flag `saw`. */
  ghost predicate Late(a: set<Path>, saw: bool) {
    exists use :: Hits(a, saw, use)
  }

  lemma CutTold(a: set<Path>, saw: bool, use: nat)
    requires a != {}
    ensures Cut(a) != {} && (MaySuspend(Cut(a)) <==> MaySuspend(a)) && (Hits(Cut(a), saw, use) <==> Hits(a, saw, use))
  {
    var p :| p in a;
    assert Path(p.trace[..0], true) in Cut(a);
    if p :| p in a && Suspend in p.trace {
      assert p.trace[..|p.trace|] == p.trace && Path(p.trace, true) in Cut(a);
    }
    if p :| p in a && UsedLate(p.trace, saw, use) {
      assert p.trace[..|p.trace|] == p.trace && Path(p.trace, true) in Cut(a);
    }
    if r :| r in Cut(a) && UsedLate(r.trace, saw, use) {
      var p, k :| p in a && 0 <= k <= |p.trace| && r == Path(p.trace[..k], true);
      UsedLateConcat(p.trace[..k], p.trace[k..], saw, use);
      assert p.trace[..k] + p.trace[k..] == p.trace;
    }
  }

  lemma AlwaysMember(a: set<Path>, b: set<Path>, caught: bool, p: Path, q: Path)
    requires p in a && q in b
    ensures Path(p.trace + q.trace, (!caught && p.exits) || q.exits) in AlwaysThen(a, b, caught)
  {
  }

  lemma AlwaysSuspends(a: set<Path>, b: set<Path>, caught: bool)
    requires a != {} && b != {}
    ensures AlwaysThen(a, b, caught) != {}
    ensures MaySuspend(AlwaysThen(a, b, caught)) <==> MaySuspend(a) || MaySuspend(b)
  {
    var p0 :| p0 in a;
    var q0 :| q0 in b;
    AlwaysMember(a, b, caught, p0, q0);
    if p :| p in a && Suspend in p.trace {
      AlwaysMember(a, b, caught, p, q0);
    }
    if q :| q in b && Suspend in q.trace {
      AlwaysMember(a, b, caught, p0, q);
    }
  }

  lemma AlwaysHits(a: set<Path>, b: set<Path>, caught: bool, saw: bool, use: nat)
    requires a != {} && b != {}
    ensures Hits(AlwaysThen(a, b, caught), saw, use) <==> Hits(a, saw, use) || Hits(b, saw || MaySuspend(a), use)
  {
    if r :| r in AlwaysThen(a, b, caught) && UsedLate(r.trace, saw, use) {
      var p, q :| p in a && q in b && r.trace == p.trace + q.trace;
      UsedLateConcat(p.trace, q.trace, saw, use);
      if !(saw || Suspend in p.trace) && UsedLate(q.trace, false, use) {
        UsedLateMonotone(q.trace, use);
      }
    }
    if p :| p in a && UsedLate(p.trace, saw, use) {
      var q :| q in b;
      UsedLateConcat(p.trace, q.trace, saw, use);
      AlwaysMember(a, b, caught, p, q);
    }
    if q :| q in b && UsedLate(q.trace, saw || MaySuspend(a), use) {
      var p :| p in a && (MaySuspend(a) ==> Suspend in p.trace);
      UsedLateConcat(p.trace, q.trace, saw, use);
      AlwaysMember(a, b, caught, p, q);
    }
  }

  lemma CutEither(a: set<Path>, saw: bool)
    requires a != {}
    ensures a + Cut(a) != {} && (MaySuspend(a + Cut(a)) <==> MaySuspend(a)) && (Late(a + Cut(a), saw) <==> Late(a, saw))
  {
    EitherMaySuspend(a, Cut(a));
    CutTold(a, saw, 0);
    forall use ensures Hits(a + Cut(a), saw, use) <==> Hits(a, saw, use) {
      UnionHits(a, Cut(a), saw, use);
      CutTold(a, saw, use);
    }
  }

  lemma CutLate(a: set<Path>, saw: bool)
    requires a != {}
    ensures Cut(a) != {} && (MaySuspend(Cut(a)) <==> MaySuspend(a)) && (Late(Cut(a), saw) <==> Late(a, saw))
  {
    CutTold(a, saw, 0);
    forall use ensures Hits(Cut(a), saw, use) <==> Hits(a, saw, use) {
      CutTold(a, saw, use);
    }
  }

  lemma AlwaysLate(a: set<Path>, b: set<Path>, caught: bool, saw: bool)
    requires a != {} && b != {}
    ensures Late(AlwaysThen(a, b, caught), saw) <==> Late(a, saw) || Late(b, saw || MaySuspend(a))
  {
    forall use
      ensures Hits(AlwaysThen(a, b, caught), saw, use) <==> Hits(a, saw, use) || Hits(b, saw || MaySuspend(a), use) {
      AlwaysHits(a, b, caught, saw, use);
    }
    hide Hits, AlwaysThen;
    var after := saw || MaySuspend(a);
    if use :| Hits(a, saw, use) {
      assert Hits(AlwaysThen(a, b, caught), saw, use);
    }
    if use :| Hits(b, after, use) {
      assert Hits(AlwaysThen(a, b, caught), saw, use);
    }
  }

  lemma EitherLate(a: set<Path>, b: set<Path>, saw: bool)
    ensures Late(a + b, saw) <==> Late(a, saw) || Late(b, saw)
  {
    forall use ensures Hits(a + b, saw, use) <==> Hits(a, saw, use) || Hits(b, saw, use) {
      UnionHits(a, b, saw, use);
    }
  }

  /** The code reports something when walked from flag `saw`. */
  predicate Reports(n: Node, accessor: string, saw: bool) {
    Walk(n, false, accessor, saw).reports != []
  }

  predicate ReportsIn(o: Option<Node>, accessor: string, saw: bool) {
    o.Some? && Reports(o.value, accessor, saw)
  }

  lemma ReportsLate(n: Node, accessor: string, saw: bool)
    requires Statement(n)
    ensures Reports(n, accessor, saw) <==> Late(Paths(n, false, accessor), saw)
    ensures Paths(n, false, accessor) != {} && (MaySuspend(Paths(n, false, accessor)) <==> HasAwait(n))
  {
    WalkExact(n, false, accessor, saw);
    L.ReportsHit(Paths(n, false, accessor), saw, Walk(n, false, accessor, saw));
    AwaitsTold(n, false, accessor);
  }

  lemma ReportsLateIn(o: Option<Node>, accessor: string, saw: bool)
    requires InFragment(o)
    ensures ReportsIn(o, accessor, saw) <==> Late(PathsOptional(o, accessor), saw)
    ensures PathsOptional(o, accessor) != {} && (MaySuspend(PathsOptional(o, accessor)) <==> HasAwaitIn(o))
  {
    if o.Some? {
      ReportsLate(o.value, accessor, saw);
    } else {
      L.NothingStraight();
      ConstantsSuspend();
      assert Path([], false) in STRAIGHT;
    }
  }

  /** What a `try` does wrong, with exceptions at any point of it: something in the
      block, in a handler entered from any point of the block, or in a finalizer
      entered from any point of either. */
  lemma TryReally(n: Node, accessor: string, saw: bool)
    requires TryFragment(n)
    ensures Late(TryPaths(n, accessor), saw) <==>
            Reports(n.block, accessor, saw) ||
            ReportsIn(n.handler, accessor, saw || HasAwait(n.block)) ||
            ReportsIn(n.finalizer, accessor, saw || HasAwait(n.block) || HasAwaitIn(n.handler))
  {
    var block, last := Paths(n.block, false, accessor), PathsOptional(n.finalizer, accessor);
    var before := saw || HasAwait(n.block);
    ReportsLate(n.block, accessor, saw);
    ReportsLateIn(n.finalizer, accessor, before || HasAwaitIn(n.handler));
    CutLate(block, saw);
    var interrupted :=
      match n.handler
      case Some(h) => AlwaysThen(Cut(block), Paths(h, false, accessor) + Cut(Paths(h, false, accessor)), true)
      case None => Cut(block);
    assert TryPaths(n, accessor) == AlwaysThen(block + interrupted, last, false);
    hide TryPaths, Paths, Cut, AlwaysThen, Late, MaySuspend, Reports, HasAwait, Statement;
    if n.handler.Some? {
      var handler := Paths(n.handler.value, false, accessor);
      ReportsLate(n.handler.value, accessor, before);
      CutEither(handler, before);
      AlwaysSuspends(Cut(block), handler + Cut(handler), true);
      AlwaysLate(Cut(block), handler + Cut(handler), true, saw);
    }
    EitherLate(block, interrupted, saw);
    EitherMaySuspend(block, interrupted);
    AlwaysLate(block + interrupted, last, false, saw);
  }

  // ---------- what the walk misses of it ----------

  /** Without an `await` the flag stays down. */
  lemma {:induction false} NoAwaitNoFlag(n: Node, isArgument: bool, accessor: string)
    requires Statement(n) && !HasAwait(n)
    ensures !Walk(n, isArgument, accessor, false).saw
    decreases n, 1
  {
    match n
    case Ident(_, _) =>
    case Member(_, target, property, computed) =>
      NoAwaitPart(target, accessor);
      if computed {
        NoAwaitPart(property, accessor);
      }
    case Call(_, callee, args) =>
      NoAwaitPart(callee, accessor);
      ExpressionsAreStatements(args);
      NoAwaitsNoFlag(args, true, accessor);
    case Conditional(_, test, consequent, alternate) =>
      NoAwaitPart(test, accessor);
      NoAwaitPart(consequent, accessor);
      NoAwaitPart(alternate, accessor);
    case Logical(_, left, right) =>
      NoAwaitPart(left, accessor);
      NoAwaitPart(right, accessor);
    case Ordered(_, children) =>
      ExpressionsAreStatements(children);
      NoAwaitsNoFlag(children, false, accessor);
    case Block(_, body) => NoAwaitsNoFlag(body, false, accessor);
    case If(_, test, consequent, otherwise) =>
      NoAwaitPart(test, accessor);
      NoAwaitNoFlag(consequent, false, accessor);
      NoAwaitOptional(otherwise, accessor);
    case Exit(_, value) =>
      if value.Some? {
        ExpressionIsStatement(value.value);
      }
      NoAwaitOptional(value, accessor);
  }

  lemma {:induction false} NoAwaitOptional(o: Option<Node>, accessor: string)
    requires (o.Some? ==> Statement(o.value)) && !HasAwaitIn(o)
    ensures !WalkOptional(o, accessor, false).saw
    decreases o, 2
  {
    if o.Some? {
      NoAwaitNoFlag(o.value, false, accessor);
    }
  }

  lemma {:induction false} NoAwaitPart(n: Node, accessor: string)
    requires Expression(n) && !HasAwait(n)
    ensures !Walk(n, false, accessor, false).saw
    decreases n, 2
  {
    ExpressionIsStatement(n);
    NoAwaitNoFlag(n, false, accessor);
  }

  lemma {:induction false} NoAwaitsNoFlag(ns: seq<Node>, areArguments: bool, accessor: string)
    requires Statements(ns) && !HasAwaits(ns)
    ensures !WalkAll(ns, areArguments, accessor, false).saw
    decreases ns, 2
  {
    if ns != [] {
      NoAwaitNoFlag(ns[0], areArguments, accessor);
      NoAwaitsNoFlag(ns[1..], areArguments, accessor);
    }
  }

  lemma LaterIsWorse(o: Option<Node>, accessor: string)
    requires InFragment(o)
    ensures ReportsIn(o, accessor, false) ==> ReportsIn(o, accessor, true)
  {
    ReportsLateIn(o, accessor, false);
    ReportsLateIn(o, accessor, true);
    var a := PathsOptional(o, accessor);
    hide PathsOptional, ReportsIn;
    if use :| Hits(a, false, use) {
      var p :| p in a && UsedLate(p.trace, false, use);
      UsedLateMonotone(p.trace, use);
      assert Hits(a, true, use);
    }
  }

  lemma JoinedNeedsAwait(n: Node, accessor: string)
    requires TryFragment(n) && JoinedFlag(n, accessor, false)
    ensures HasAwait(n.block) || HasAwaitIn(n.handler)
  {
    if !HasAwait(n.block) {
      NoAwaitNoFlag(n.block, false, accessor);
    }
    if n.handler.Some? && !HasAwait(n.handler.value) {
      NoAwaitNoFlag(n.handler.value, false, accessor);
    }
  }

  /** What the walk reports of a `try` is right, whatever exceptions may come; and
      it misses something exactly if the handler uses the accessor late after an
      await in the block, or the finalizer does after an await that the joined
      flag does not show. */
  lemma TryMissedExactly(n: Node, accessor: string)
    requires TryFragment(n)
    ensures Reports(n, accessor, false) ==> Late(TryPaths(n, accessor), false)
    ensures !Reports(n, accessor, false) ==>
              (Late(TryPaths(n, accessor), false) <==>
               (HasAwait(n.block) && ReportsIn(n.handler, accessor, true)) ||
               ((HasAwait(n.block) || HasAwaitIn(n.handler)) && ReportsIn(n.finalizer, accessor, true)))
  {
    TryReally(n, accessor, false);
    TryWalk(n, accessor, false);
    LaterIsWorse(n.handler, accessor);
    LaterIsWorse(n.finalizer, accessor);
    if JoinedFlag(n, accessor, false) {
      JoinedNeedsAwait(n, accessor);
    }
    hide Late, TryPaths, JoinedFlag, HasAwait;
    assert Reports(n, accessor, false) <==>
           Reports(n.block, accessor, false) || ReportsIn(n.handler, accessor, false) ||
           ReportsIn(n.finalizer, accessor, JoinedFlag(n, accessor, false));
  }

  // ---------- switch, for await, nested functions ----------

  predicate CaseFragment(c: Node) {
    c.Case? && (c.guard.Some? ==> Expression(c.guard.value)) && Statements(c.body) && L.CanFinishAll(c.body)
  }

  predicate CasesFragment(cases: seq<Node>) {
    forall i :: 0 <= i < |cases| ==> CaseFragment(cases[i])
  }

  /** The guard of a case is evaluated, and its body run through. */
  function CasePaths(c: Node, accessor: string): set<Path>
    requires c.Case?
  {
    Then(PathsOptional(c.guard, accessor), PathsAll(c.body, false, accessor))
  }

  function AnyCase(cases: seq<Node>, accessor: string): set<Path>
    requires CasesFragment(cases)
  {
    if cases == [] then {} else CasePaths(cases[0], accessor) + AnyCase(cases[1..], accessor)
  }

  lemma CaseExact(c: Node, accessor: string, saw: bool)
    requires CaseFragment(c)
    ensures Exact(CasePaths(c, accessor), saw, WalkCase(c, accessor, saw)) && CanFinish(CasePaths(c, accessor))
  {
    if c.guard.Some? {
      ExpressionIsStatement(c.guard.value);
    }
    WalkOptionalExact(c.guard, accessor, saw);
    var g := WalkOptional(c.guard, accessor, saw);
    WalkAllExact(c.body, false, accessor, g.saw);
    hide Exact, CanFinish, CanSuspend, Hits, Then;
    ThenExact(PathsOptional(c.guard, accessor), PathsAll(c.body, false, accessor), saw, g,
              WalkAll(c.body, false, accessor, g.saw));
  }

  lemma {:induction false} CasesExact(cases: seq<Node>, accessor: string, saw: bool)
    requires cases != [] && CasesFragment(cases)
    ensures Exact(AnyCase(cases, accessor), saw, WalkCases(cases, accessor, saw)) && CanFinish(AnyCase(cases, accessor))
  {
    var first, f := CasePaths(cases[0], accessor), WalkCase(cases[0], accessor, saw);
    var rest, g := AnyCase(cases[1..], accessor), WalkCases(cases[1..], accessor, saw);
    FirstCase(cases, accessor, saw);
    CaseExact(cases[0], accessor, saw);
    assert CasesFragment(cases[1..]);
    hide *;
    if |cases| == 1 {
      NoCases(accessor, saw);
      assert cases[1..] == [];
      assert first + {} == first && f.reports + [] == f.reports;
    } else {
      CasesExact(cases[1..], accessor, saw);
      EitherExact(first, rest, saw, f, g, f.saw || g.saw);
    }
  }

  lemma FirstCase(cases: seq<Node>, accessor: string, saw: bool)
    requires cases != [] && CasesFragment(cases)
    ensures var f, g := WalkCase(cases[0], accessor, saw), WalkCases(cases[1..], accessor, saw);
            WalkCases(cases, accessor, saw) == Flow(f.saw || g.saw, f.reports + g.reports)
    ensures AnyCase(cases, accessor) == CasePaths(cases[0], accessor) + AnyCase(cases[1..], accessor)
  {
  }

  lemma NoCases(accessor: string, saw: bool)
    ensures AnyCase([], accessor) == {} && WalkCases([], accessor, saw) == Flow(false, [])
  {
  }

  lemma SwitchWalk(n: Node, accessor: string, saw: bool)
    requires n.Switch?
    ensures var d := Walk(n.discriminant, false, accessor, saw);
            Walk(n, false, accessor, saw) == Report(d.reports, WalkCases(n.cases, accessor, d.saw))
  {
  }

  /** A `switch` each of whose cases can be run through is judged exactly, as a
      choice of one case. */
  lemma SwitchExact(n: Node, accessor: string, saw: bool)
    requires n.Switch? && Expression(n.discriminant) && n.cases != [] && CasesFragment(n.cases)
    ensures Exact(Then(Paths(n.discriminant, false, accessor), AnyCase(n.cases, accessor)), saw,
                  Walk(n, false, accessor, saw))
  {
    ExpressionIsStatement(n.discriminant);
    WalkExact(n.discriminant, false, accessor, saw);
    var d := Walk(n.discriminant, false, accessor, saw);
    CasesExact(n.cases, accessor, d.saw);
    SwitchWalk(n, accessor, saw);
    hide *;
    ThenExact(Paths(n.discriminant, false, accessor), AnyCase(n.cases, accessor), saw, d,
              WalkCases(n.cases, accessor, d.saw));
  }

  /** The first round of a `for await` is judged exactly: it suspends before its
      body. */
  lemma ForAwaitExact(n: Node, accessor: string, saw: bool)
    requires n.ForAwait? && Expression(n.left) && Expression(n.right) && Statement(n.each)
    ensures Exact(Then(Paths(n.left, false, accessor),
                       Then(Then(Paths(n.right, false, accessor), PAUSE), Paths(n.each, false, accessor))), saw,
                  Walk(n, false, accessor, saw))
  {
    var l := Walk(n.left, false, accessor, saw);
    var r, e := Walk(n.right, false, accessor, l.saw), Walk(n.each, false, accessor, true);
    ForAwaitWalk(n, accessor, saw);
    PauseExact(r.saw);
    hide *;
    ExpressionIsStatement(n.left);
    ExpressionIsStatement(n.right);
    WalkExact(n.left, false, accessor, saw);
    WalkExact(n.right, false, accessor, l.saw);
    WalkExact(n.each, false, accessor, true);
    var left, right := Paths(n.left, false, accessor), Paths(n.right, false, accessor);
    var each := Paths(n.each, false, accessor);
    ThenExact(right, PAUSE, l.saw, r, Flow(true, []));
    Reported(r.reports, [], true);
    ThenExact(Then(right, PAUSE), each, l.saw, Flow(true, r.reports), e);
    ThenExact(left, Then(Then(right, PAUSE), each), saw, l, Report(r.reports, e));
    Reported(l.reports, r.reports + e.reports, e.saw);
    Reported(r.reports, e.reports, e.saw);
  }

  lemma Reported(before: seq<nat>, after: seq<nat>, saw: bool)
    ensures Report(before, Flow(saw, after)) == Flow(saw, before + after)
    ensures before + [] == before
  {
  }

  lemma ForAwaitWalk(n: Node, accessor: string, saw: bool)
    requires n.ForAwait?
    ensures var l := Walk(n.left, false, accessor, saw);
            var r, e := Walk(n.right, false, accessor, l.saw), Walk(n.each, false, accessor, true);
            Walk(n, false, accessor, saw) == Flow(e.saw, l.reports + (r.reports + e.reports))
  {
    var l := Walk(n.left, false, accessor, saw);
    var r, e := Walk(n.right, false, accessor, l.saw), Walk(n.each, false, accessor, true);
    assert l.reports + (r.reports + e.reports) == l.reports + r.reports + e.reports;
  }

  /** A nested function is not entered. */
  lemma FunctionExact(id: nat, isArgument: bool, accessor: string, saw: bool)
    ensures Exact(STRAIGHT, saw, Walk(Function(id), isArgument, accessor, saw))
  {
    StraightExact(saw);
  }
}
