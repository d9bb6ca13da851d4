/** The await walk is exact: on code without loops, switches, tries and nested
    functions it reports something exactly when some execution path uses the
    accessor after suspending at an `await`. */
module AwaitPaths {
  import opened Sequences
  import opened AwaitFlow

  datatype Event = Suspend | Use(id: nat)

  /** One way through a piece of code: what happens, and whether the function
      is left by a return or throw. */
  datatype Path = Path(trace: seq<Event>, exits: bool)

  /** First a path of `a`; unless it leaves the function, then one of `b`. */
  function Then(a: set<Path>, b: set<Path>): set<Path> {
    (set p | p in a && p.exits) +
    (set p, q | p in a && q in b && !p.exits :: Path(p.trace + q.trace, q.exits))
  }

  const STRAIGHT := {Path([], false)}
  const PAUSE := {Path([Suspend], false)}
  const LEAVE := {Path([], true)}

  /** The execution paths, following evaluation order. An accessor call counts
      where its callee is evaluated. */
  function Paths(n: Node, isArgument: bool, accessor: string): set<Path>
    decreases n, 1
  {
    var here := if IsAccessorUsage(n, isArgument, accessor) then {Path([Use(n.id)], false)} else STRAIGHT;
    match n
    case Ident(_, _) => here
    case Member(_, target, property, computed) =>
      var t := Paths(target, false, accessor);
      if computed then Then(t, Paths(property, false, accessor)) else t
    case Call(_, callee, args) =>
      Then(here, Then(Paths(callee, false, accessor), PathsAll(args, true, accessor)))
    case Await(_, argument) => Then(Paths(argument, false, accessor), PAUSE)
    case Conditional(_, test, consequent, alternate) =>
      Then(Paths(test, false, accessor), Paths(consequent, false, accessor) + Paths(alternate, false, accessor))
    case Logical(_, left, right) =>
      Then(Paths(left, false, accessor), STRAIGHT + Paths(right, false, accessor))
    case Ordered(_, children) => PathsAll(children, false, accessor)
    case Block(_, body) => PathsAll(body, false, accessor)
    case If(_, test, consequent, otherwise) =>
      Then(Paths(test, false, accessor),
           Paths(consequent, false, accessor) +
           PathsOptional(otherwise, accessor))
    case Exit(_, value) => Then(PathsOptional(value, accessor), LEAVE)
    case _ => {}
  }

  function PathsOptional(o: Option<Node>, accessor: string): set<Path>
    decreases o, 2
  {
    match o case Some(n) => Paths(n, false, accessor) case None => STRAIGHT
  }

  function PathsAll(ns: seq<Node>, areArguments: bool, accessor: string): set<Path>
    decreases ns, 2
  {
    if ns == [] then STRAIGHT
    else Then(Paths(ns[0], areArguments, accessor), PathsAll(ns[1..], areArguments, accessor))
  }

  // ---------- the fragment ----------

  predicate Expression(n: Node)
    decreases n, 1
  {
    match n
    case Ident(_, _) => true
    case Member(_, target, property, _) => Expression(target) && Expression(property)
    case Call(_, callee, args) => Expression(callee) && Expressions(args)
    case Await(_, argument) => Expression(argument)
    case Conditional(_, test, consequent, alternate) =>
      Expression(test) && Expression(consequent) && Expression(alternate)
    case Logical(_, left, right) => Expression(left) && Expression(right)
    case Ordered(_, children) => Expressions(children)
    case _ => false
  }

  predicate Expressions(ns: seq<Node>)
    decreases ns, 2
  {
    ns == [] || (Expression(ns[0]) && Expressions(ns[1..]))
  }

  /** A statement of the fragment, with no statement after one that always exits. */
  predicate Statement(n: Node)
    decreases n, 1
  {
    match n
    case Block(_, body) => Statements(body)
    case If(_, test, consequent, otherwise) =>
      Expression(test) && Statement(consequent) && (otherwise.None? || Statement(otherwise.value))
    case Exit(_, value) => value.None? || Expression(value.value)
    case _ => Expression(n)
  }

  predicate Statements(ns: seq<Node>)
    decreases ns, 2
  {
    ns == [] ||
    (Statement(ns[0]) && Statements(ns[1..]) && (|ns| > 1 ==> !BlockAlwaysExits(ns[0])))
  }

  // ---------- what a set of paths can do ----------

  ghost predicate CanFinish(a: set<Path>) {
    exists p :: p in a && !p.exits
  }

  ghost predicate CanSuspend(a: set<Path>) {
    exists p :: p in a && !p.exits && Suspend in p.trace
  }

  /** `trace` uses the accessor at `id` when it has suspended before. */
  predicate UsedLate(trace: seq<Event>, saw: bool, id: nat) {
    trace != [] && ((saw && trace[0] == Use(id)) || UsedLate(trace[1..], saw || trace[0] == Suspend, id))
  }

  ghost predicate Hits(a: set<Path>, saw: bool, id: nat) {
    exists p :: p in a && UsedLate(p.trace, saw, id)
  }

  lemma {:induction false} UsedLateConcat(t: seq<Event>, u: seq<Event>, saw: bool, id: nat)
    ensures UsedLate(t + u, saw, id) <==> UsedLate(t, saw, id) || UsedLate(u, saw || Suspend in t, id)
  {
    if t == [] {
      assert t + u == u;
    } else {
      assert (t + u)[1..] == t[1..] + u;
      UsedLateConcat(t[1..], u, saw || t[0] == Suspend, id);
    }
  }

  lemma {:induction false} UsedLateMonotone(t: seq<Event>, id: nat)
    requires UsedLate(t, false, id)
    ensures UsedLate(t, true, id)
  {
    if t[0] != Suspend {
      UsedLateMonotone(t[1..], id);
    }
  }

  lemma UsedLateSingle(e: Event, saw: bool, id: nat)
    ensures UsedLate([e], saw, id) <==> saw && e == Use(id)
  {
    assert [e][1..] == [];
  }

  /** A use after a suspension, spelled out by positions in the trace. */
  lemma {:induction false} UsedLateMeaning(t: seq<Event>, saw: bool, id: nat)
    ensures UsedLate(t, saw, id) <==>
            exists j :: 0 <= j < |t| && t[j] == Use(id) && (saw || Suspend in t[..j])
  {
    if t != [] {
      var saw' := saw || t[0] == Suspend;
      UsedLateMeaning(t[1..], saw', id);
      if j :| 0 <= j < |t[1..]| && t[1..][j] == Use(id) && (saw' || Suspend in t[1..][..j]) {
        assert t[j + 1] == Use(id) && t[..j + 1] == [t[0]] + t[1..][..j];
      }
      if j :| 0 <= j < |t| && t[j] == Use(id) && (saw || Suspend in t[..j]) {
        if j > 0 {
          assert t[..j] == [t[0]] + t[1..][..j - 1];
          assert t[1..][j - 1] == Use(id);
        }
      }
    }
  }

  // ---------- sequencing ----------

  lemma ThenMember(a: set<Path>, b: set<Path>, p: Path, q: Path)
    requires p in a && !p.exits && q in b
    ensures Path(p.trace + q.trace, q.exits) in Then(a, b)
  {
  }

  lemma ThenFinish(a: set<Path>, b: set<Path>)
    ensures CanFinish(Then(a, b)) <==> CanFinish(a) && CanFinish(b)
    ensures a != {} && b != {} ==> Then(a, b) != {}
  {
    if p, q :| p in a && !p.exits && q in b && !q.exits {
      ThenMember(a, b, p, q);
    }
    if a != {} && b != {} {
      var p :| p in a;
      var q :| q in b;
      if !p.exits {
        ThenMember(a, b, p, q);
      } else {
        assert p in Then(a, b);
      }
    }
  }

  lemma ThenSuspend(a: set<Path>, b: set<Path>)
    ensures CanSuspend(Then(a, b)) <==> (CanSuspend(a) && CanFinish(b)) || (CanFinish(a) && CanSuspend(b))
  {
    if p, q :| p in a && !p.exits && q in b && !q.exits && (Suspend in p.trace || Suspend in q.trace) {
      ThenMember(a, b, p, q);
    }
  }

  lemma ThenHitsOnly(a: set<Path>, b: set<Path>, saw: bool, id: nat)
    requires Hits(Then(a, b), saw, id) && !Hits(a, saw, id)
    ensures CanFinish(a) && Hits(b, saw || CanSuspend(a), id)
  {
    var r :| r in Then(a, b) && UsedLate(r.trace, saw, id);
    var p, q :| p in a && q in b && !p.exits && r == Path(p.trace + q.trace, q.exits);
    UsedLateConcat(p.trace, q.trace, saw, id);
    if !(saw || Suspend in p.trace) {
      UsedLateMonotone(q.trace, id);
    }
  }

  lemma ThenHitsFirst(a: set<Path>, b: set<Path>, saw: bool, id: nat)
    requires b != {} && Hits(a, saw, id)
    ensures Hits(Then(a, b), saw, id)
  {
    var p :| p in a && UsedLate(p.trace, saw, id);
    if p.exits {
      assert p in Then(a, b);
    } else {
      var q :| q in b;
      UsedLateConcat(p.trace, q.trace, saw, id);
      ThenMember(a, b, p, q);
    }
  }

  lemma ThenHitsSecond(a: set<Path>, b: set<Path>, saw: bool, id: nat)
    requires CanFinish(a) && Hits(b, saw || CanSuspend(a), id)
    ensures Hits(Then(a, b), saw, id)
  {
    var q :| q in b && UsedLate(q.trace, saw || CanSuspend(a), id);
    var p :| p in a && !p.exits && (CanSuspend(a) ==> Suspend in p.trace);
    UsedLateConcat(p.trace, q.trace, saw, id);
    ThenMember(a, b, p, q);
  }

  /** In a sequence the second part is reached with the flag raised exactly
      when the first part can finish suspended. */
  lemma ThenHits(a: set<Path>, b: set<Path>, saw: bool, id: nat)
    requires b != {}
    ensures Hits(Then(a, b), saw, id) <==>
            Hits(a, saw, id) || (CanFinish(a) && Hits(b, saw || CanSuspend(a), id))
  {
    hide Hits, Then, CanFinish, CanSuspend;
    if Hits(a, saw, id) {
      ThenHitsFirst(a, b, saw, id);
    } else if Hits(Then(a, b), saw, id) {
      ThenHitsOnly(a, b, saw, id);
    } else if CanFinish(a) && Hits(b, saw || CanSuspend(a), id) {
      ThenHitsSecond(a, b, saw, id);
    }
  }

  lemma UnionHits(a: set<Path>, b: set<Path>, saw: bool, id: nat)
    ensures Hits(a + b, saw, id) <==> Hits(a, saw, id) || Hits(b, saw, id)
    ensures CanFinish(a + b) <==> CanFinish(a) || CanFinish(b)
    ensures CanSuspend(a + b) <==> CanSuspend(a) || CanSuspend(b)
  {
  }

  // ---------- exactness ----------

  /** The walk result `f` tells the truth about the paths `a` entered with flag
      `saw`: the flag afterwards, whether anything is wrong, and only uses that
      some path makes too late are reported. */
  ghost predicate Exact(a: set<Path>, saw: bool, f: Flow) {
    a != {} &&
    (CanFinish(a) ==> (f.saw <==> saw || CanSuspend(a))) &&
    (forall id :: id in f.reports ==> Hits(a, saw, id)) &&
    ((exists id :: Hits(a, saw, id)) ==> f.reports != [])
  }

  lemma ThenExact(a: set<Path>, b: set<Path>, saw: bool, f: Flow, g: Flow)
    requires Exact(a, saw, f) && CanFinish(a) && Exact(b, f.saw, g)
    ensures Exact(Then(a, b), saw, Report(f.reports, g))
    ensures CanFinish(Then(a, b)) <==> CanFinish(b)
  {
    ThenFinish(a, b);
    ThenSuspend(a, b);
    forall id ensures Hits(Then(a, b), saw, id) <==> Hits(a, saw, id) || Hits(b, f.saw, id) {
      ThenHits(a, b, saw, id);
    }
    hide Hits, Then, CanFinish, CanSuspend;
  }

  lemma EitherExact(a: set<Path>, b: set<Path>, saw: bool, f: Flow, g: Flow, after: bool)
    requires Exact(a, saw, f) && Exact(b, saw, g)
    requires CanFinish(a) && CanFinish(b) ==> after == (f.saw || g.saw)
    requires CanFinish(a) && !CanFinish(b) ==> after == f.saw
    requires !CanFinish(a) && CanFinish(b) ==> after == g.saw
    ensures Exact(a + b, saw, Flow(after, f.reports + g.reports))
    ensures CanFinish(a + b) <==> CanFinish(a) || CanFinish(b)
  {
    forall id ensures Hits(a + b, saw, id) <==> Hits(a, saw, id) || Hits(b, saw, id) {
      UnionHits(a, b, saw, id);
    }
    UnionHits(a, b, saw, 0);
    assert !CanFinish(a) ==> !CanSuspend(a);
    assert !CanFinish(b) ==> !CanSuspend(b);
    hide Hits, CanFinish, CanSuspend;
  }

  lemma ExactKeepsFlag(a: set<Path>, saw: bool, f: Flow)
    requires Exact(a, saw, f) && CanFinish(a)
    ensures saw ==> f.saw
  {
  }

  lemma StraightExact(saw: bool)
    ensures Exact(STRAIGHT, saw, Flow(saw, [])) && CanFinish(STRAIGHT) && !CanSuspend(STRAIGHT)
  {
    assert Path([], false) in STRAIGHT;
  }

  lemma ExpressionIsStatement(n: Node)
    requires Expression(n)
    ensures Statement(n) && !BlockAlwaysExits(n)
  {
  }

  lemma {:induction false} ExpressionsAreStatements(ns: seq<Node>)
    requires Expressions(ns)
    ensures Statements(ns) && (ns != [] ==> !BlockAlwaysExits(ns[|ns| - 1]))
  {
    if ns != [] {
      ExpressionIsStatement(ns[0]);
      ExpressionsAreStatements(ns[1..]);
    }
  }

  /** The walk is exact on every statement and expression of the fragment, and
      `BlockAlwaysExits` holds exactly of the code no path can finish. */
  lemma {:induction false} WalkExact(n: Node, isArgument: bool, accessor: string, saw: bool)
    requires Statement(n)
    ensures Exact(Paths(n, isArgument, accessor), saw, Walk(n, isArgument, accessor, saw))
    ensures CanFinish(Paths(n, isArgument, accessor)) <==> !BlockAlwaysExits(n)
    decreases n, 1
  {
    hide Exact, Hits, CanFinish, CanSuspend, Then;
    match n
    case Ident(_, _) => UseExact(n, isArgument, accessor, saw);
    case Member(_, target, property, computed) =>
      ExpressionIsStatement(target);
      ExpressionIsStatement(property);
      WalkExact(target, false, accessor, saw);
      var t := Walk(target, false, accessor, saw);
      if computed {
        WalkExact(property, false, accessor, t.saw);
        ThenExact(Paths(target, false, accessor), Paths(property, false, accessor), saw, t,
                  Walk(property, false, accessor, t.saw));
      }
    case Call(_, _, _) => CallExact(n, isArgument, accessor, saw);
    case Await(_, argument) => AwaitExact(n, isArgument, accessor, saw);
    case Conditional(_, test, consequent, alternate) =>
      ConditionalExact(n, isArgument, accessor, saw);
    case Logical(_, left, right) => LogicalExact(n, isArgument, accessor, saw);
    case Ordered(_, children) =>
      ExpressionsAreStatements(children);
      WalkAllExact(children, false, accessor, saw);
    case Block(_, body) => WalkAllExact(body, false, accessor, saw);
    case If(_, _, _, _) => IfExact(n, isArgument, accessor, saw);
    case Exit(_, value) => ExitExact(n, isArgument, accessor, saw);
  }

  lemma UseExact(n: Node, isArgument: bool, accessor: string, saw: bool)
    requires n.Ident?
    ensures Exact(Paths(n, isArgument, accessor), saw, Walk(n, isArgument, accessor, saw))
    ensures CanFinish(Paths(n, isArgument, accessor))
  {
    StraightExact(saw);
    var used := Path([Use(n.id)], false);
    forall id ensures UsedLate(used.trace, saw, id) <==> saw && id == n.id {
      UsedLateSingle(Use(n.id), saw, id);
    }
    assert used in {used};
  }

  lemma {:induction false} CallExact(n: Node, isArgument: bool, accessor: string, saw: bool)
    requires Statement(n) && n.Call?
    ensures Exact(Paths(n, isArgument, accessor), saw, Walk(n, isArgument, accessor, saw))
    ensures CanFinish(Paths(n, isArgument, accessor))
    decreases n, 0
  {
    hide Exact, Hits, CanFinish, CanSuspend, Then;
    ExpressionIsStatement(n.callee);
    var callee, args := Paths(n.callee, false, accessor), PathsAll(n.args, true, accessor);
    WalkExact(n.callee, false, accessor, saw);
    var c := Walk(n.callee, false, accessor, saw);
    ExpressionsAreStatements(n.args);
    WalkAllExact(n.args, true, accessor, c.saw);
    var inside := Report(c.reports, WalkAll(n.args, true, accessor, c.saw));
    ThenExact(callee, args, saw, c, WalkAll(n.args, true, accessor, c.saw));
    var here := if IsAccessorUsage(n, isArgument, accessor) then {Path([Use(n.id)], false)} else STRAIGHT;
    HereExact(here, Then(callee, args), IsAccessorUsage(n, isArgument, accessor), n.id, saw, inside);
  }

  /** The use itself: too late exactly when the flag is up. */
  lemma UseHits(id: nat, saw: bool, k: nat)
    ensures Hits({Path([Use(id)], false)}, saw, k) <==> saw && k == id
    ensures CanFinish({Path([Use(id)], false)}) && !CanSuspend({Path([Use(id)], false)})
  {
    UsedLateSingle(Use(id), saw, k);
    assert Path([Use(id)], false) in {Path([Use(id)], false)};
  }

  /** An accessor call reached with the flag up is reported itself. */
  lemma LateCallExact(id: nat, rest: set<Path>, inside: Flow)
    requires Exact(rest, true, inside) && CanFinish(rest)
    ensures Exact(Then({Path([Use(id)], false)}, rest), true, Flow(true, [id]))
    ensures CanFinish(Then({Path([Use(id)], false)}, rest))
  {
    var here := {Path([Use(id)], false)};
    UseHits(id, true, id);
    hide Hits, Then, CanFinish, CanSuspend;
    ThenHits(here, rest, true, id);
    ThenFinish(here, rest);
  }

  /** Otherwise what is inside the call decides. */
  lemma HereExact(here: set<Path>, rest: set<Path>, use: bool, id: nat, saw: bool, inside: Flow)
    requires here == if use then {Path([Use(id)], false)} else STRAIGHT
    requires Exact(rest, saw, inside) && CanFinish(rest)
    ensures Exact(Then(here, rest), saw, if use && saw then Flow(saw, [id]) else inside)
    ensures CanFinish(Then(here, rest))
  {
    if use && saw {
      LateCallExact(id, rest, inside);
    } else {
      if use {
        forall k ensures Hits(here, saw, k) <==> saw && k == id {
          UseHits(id, saw, k);
        }
        UseHits(id, saw, id);
        assert here != {};
      } else {
        StraightExact(saw);
      }
      assert Exact(here, saw, Flow(saw, []));
      hide Exact, Hits, CanFinish, CanSuspend, Then;
      ThenExact(here, rest, saw, Flow(saw, []), inside);
      assert Report([], inside) == inside;
    }
  }

  lemma PauseExact(saw: bool)
    ensures Exact(PAUSE, saw, Flow(true, [])) && CanFinish(PAUSE)
  {
    assert Path([Suspend], false) in PAUSE && Suspend in [Suspend];
    forall id ensures !Hits(PAUSE, saw, id) {
      UsedLateSingle(Suspend, saw, id);
    }
  }

  lemma LeaveExact(saw: bool)
    ensures Exact(LEAVE, saw, Flow(saw, [])) && !CanFinish(LEAVE)
  {
    assert Path([], true) in LEAVE;
    forall id ensures !Hits(LEAVE, saw, id) {
    }
  }

  lemma {:induction false} AwaitExact(n: Node, isArgument: bool, accessor: string, saw: bool)
    requires Statement(n) && n.Await?
    ensures Exact(Paths(n, isArgument, accessor), saw, Walk(n, isArgument, accessor, saw))
    ensures CanFinish(Paths(n, isArgument, accessor))
    decreases n, 0
  {
    hide Exact, Hits, CanFinish, CanSuspend, Then;
    ExpressionIsStatement(n.argument);
    WalkExact(n.argument, false, accessor, saw);
    var f := Walk(n.argument, false, accessor, saw);
    PauseExact(f.saw);
    ThenExact(Paths(n.argument, false, accessor), PAUSE, saw, f, Flow(true, []));
    assert f.reports + [] == f.reports;
  }

  lemma {:induction false} ConditionalExact(n: Node, isArgument: bool, accessor: string, saw: bool)
    requires Statement(n) && n.Conditional?
    ensures Exact(Paths(n, isArgument, accessor), saw, Walk(n, isArgument, accessor, saw))
    ensures CanFinish(Paths(n, isArgument, accessor))
    decreases n, 0
  {
    hide Exact, Hits, CanFinish, CanSuspend, Then;
    ExpressionIsStatement(n.test);
    WalkExact(n.test, false, accessor, saw);
    var t := Walk(n.test, false, accessor, saw);
    ExpressionIsStatement(n.consequent);
    ExpressionIsStatement(n.alternate);
    WalkExact(n.consequent, false, accessor, t.saw);
    WalkExact(n.alternate, false, accessor, t.saw);
    var c, a := Walk(n.consequent, false, accessor, t.saw), Walk(n.alternate, false, accessor, t.saw);
    var cs, as' := Paths(n.consequent, false, accessor), Paths(n.alternate, false, accessor);
    EitherExact(cs, as', t.saw, c, a, a.saw || c.saw);
    ThenExact(Paths(n.test, false, accessor), cs + as', saw, t, Flow(a.saw || c.saw, c.reports + a.reports));
    assert t.reports + (c.reports + a.reports) == t.reports + c.reports + a.reports;
  }

  lemma {:induction false} LogicalExact(n: Node, isArgument: bool, accessor: string, saw: bool)
    requires Statement(n) && n.Logical?
    ensures Exact(Paths(n, isArgument, accessor), saw, Walk(n, isArgument, accessor, saw))
    ensures CanFinish(Paths(n, isArgument, accessor))
    decreases n, 0
  {
    hide Exact, Hits, CanFinish, CanSuspend, Then;
    ExpressionIsStatement(n.left);
    ExpressionIsStatement(n.right);
    WalkExact(n.left, false, accessor, saw);
    var l := Walk(n.left, false, accessor, saw);
    WalkExact(n.right, false, accessor, l.saw);
    var r := Walk(n.right, false, accessor, l.saw);
    StraightExact(l.saw);
    ExactKeepsFlag(Paths(n.right, false, accessor), l.saw, r);
    EitherExact(STRAIGHT, Paths(n.right, false, accessor), l.saw, Flow(l.saw, []), r, r.saw);
    assert [] + r.reports == r.reports;
    ThenExact(Paths(n.left, false, accessor), STRAIGHT + Paths(n.right, false, accessor), saw, l, r);
  }

  lemma {:induction false} IfExact(n: Node, isArgument: bool, accessor: string, saw: bool)
    requires Statement(n) && n.If?
    ensures Exact(Paths(n, isArgument, accessor), saw, Walk(n, isArgument, accessor, saw))
    ensures CanFinish(Paths(n, isArgument, accessor)) <==> !BlockAlwaysExits(n)
    decreases n, 0
  {
    hide Exact, Hits, CanFinish, CanSuspend, Then;
    ExpressionIsStatement(n.test);
    WalkExact(n.test, false, accessor, saw);
    var t := Walk(n.test, false, accessor, saw);
    WalkExact(n.consequent, false, accessor, t.saw);
    var c, cs := Walk(n.consequent, false, accessor, t.saw), Paths(n.consequent, false, accessor);
    WalkOptionalExact(n.otherwise, accessor, t.saw);
    var a, as' := WalkOptional(n.otherwise, accessor, t.saw), PathsOptional(n.otherwise, accessor);
    var alternateExits := n.otherwise.Some? && BlockAlwaysExits(n.otherwise.value);
    var after := AfterIf(BlockAlwaysExits(n.consequent), c.saw, alternateExits, a.saw);
    EitherExact(cs, as', t.saw, c, a, after);
    ThenExact(Paths(n.test, false, accessor), cs + as', saw, t, Flow(after, c.reports + a.reports));
    assert t.reports + (c.reports + a.reports) == t.reports + c.reports + a.reports;
    assert Walk(n, isArgument, accessor, saw) == Flow(after, t.reports + c.reports + a.reports);
  }

  lemma {:induction false} ExitExact(n: Node, isArgument: bool, accessor: string, saw: bool)
    requires Statement(n) && n.Exit?
    ensures Exact(Paths(n, isArgument, accessor), saw, Walk(n, isArgument, accessor, saw))
    ensures !CanFinish(Paths(n, isArgument, accessor))
    decreases n, 0
  {
    hide Exact, Hits, CanFinish, CanSuspend, Then;
    if n.value.Some? {
      ExpressionIsStatement(n.value.value);
    }
    WalkOptionalExact(n.value, accessor, saw);
    var v, vs := WalkOptional(n.value, accessor, saw), PathsOptional(n.value, accessor);
    LeaveExact(v.saw);
    ThenExact(vs, LEAVE, saw, v, Flow(v.saw, []));
    assert v.reports + [] == v.reports;
  }

  lemma {:induction false} WalkOptionalExact(o: Option<Node>, accessor: string, saw: bool)
    requires o.Some? ==> Statement(o.value)
    ensures Exact(PathsOptional(o, accessor), saw, WalkOptional(o, accessor, saw))
    ensures CanFinish(PathsOptional(o, accessor)) <==> o.None? || !BlockAlwaysExits(o.value)
    decreases o, 2
  {
    hide Exact, Hits, CanFinish, CanSuspend;
    if o.Some? {
      WalkExact(o.value, false, accessor, saw);
    } else {
      StraightExact(saw);
    }
  }

  lemma {:induction false} WalkAllExact(ns: seq<Node>, areArguments: bool, accessor: string, saw: bool)
    requires Statements(ns)
    ensures Exact(PathsAll(ns, areArguments, accessor), saw, WalkAll(ns, areArguments, accessor, saw))
    ensures CanFinish(PathsAll(ns, areArguments, accessor)) <==> ns == [] || !BlockAlwaysExits(ns[|ns| - 1])
    decreases ns, 2
  {
    hide Exact, Hits, CanFinish, CanSuspend, Then;
    if ns == [] {
      StraightExact(saw);
    } else {
      WalkExact(ns[0], areArguments, accessor, saw);
      var f := Walk(ns[0], areArguments, accessor, saw);
      if |ns| == 1 {
        LastExact(Paths(ns[0], areArguments, accessor), saw, f);
      } else {
        WalkAllExact(ns[1..], areArguments, accessor, f.saw);
        ThenExact(Paths(ns[0], areArguments, accessor), PathsAll(ns[1..], areArguments, accessor), saw, f,
                  WalkAll(ns[1..], areArguments, accessor, f.saw));
      }
    }
  }

  lemma LastExact(a: set<Path>, saw: bool, f: Flow)
    requires Exact(a, saw, f)
    ensures Then(a, STRAIGHT) == a && Report(f.reports, Flow(f.saw, [])) == f
  {
    forall p ensures p in Then(a, STRAIGHT) <==> p in a {
      if p in a && !p.exits {
        ThenMember(a, STRAIGHT, p, Path([], false));
        assert p.trace + [] == p.trace;
      }
      if p in Then(a, STRAIGHT) && !(p in a && p.exits) {
        var q :| q in a && !q.exits && p == Path(q.trace + [], false);
        assert q.trace + [] == q.trace;
      }
    }
  }

  /** The rule's promise: the checked function body is reported if and only if
      some path through it uses the accessor after an `await`, and every report
      names such a use. */
  lemma ReportsExactly(body: Node, accessor: string)
    requires Statement(body)
    ensures var reports := Walk(body, false, accessor, false).reports;
            (reports != [] <==>
             exists id, p :: p in Paths(body, false, accessor) && UsedAfterAwait(p.trace, id)) &&
            (forall id :: id in reports ==>
             exists p :: p in Paths(body, false, accessor) && UsedAfterAwait(p.trace, id))
  {
    WalkExact(body, false, accessor, false);
    forall t, id ensures UsedLate(t, false, id) <==> UsedAfterAwait(t, id) {
      UsedLateMeaning(t, false, id);
    }
    var reports := Walk(body, false, accessor, false).reports;
    if reports != [] {
      assert reports[0] in reports;
    }
    if id, p :| p in Paths(body, false, accessor) && UsedAfterAwait(p.trace, id) {
      assert Hits(Paths(body, false, accessor), false, id);
    }
  }

  ghost predicate UsedAfterAwait(t: seq<Event>, id: nat) {
    exists j :: 0 <= j < |t| && t[j] == Use(id) && Suspend in t[..j]
  }
}
