/** The lint rule that forbids a services accessor after an `await`: its syntax
    tree, the flag-carrying walk over it, and the checker object that runs the
    walk. Every node carries the identity under which it is reported. */
module AwaitFlow {
  import opened Sequences

  /** What the children of a loop are, in source order: test and body of a
      `while` or `do`; left, right and body of `for (left of right)`, or `in`;
      of a plain `for` the parts it has of init, test and update, and the body. */
  datatype LoopKind = While | DoWhile | ForEach | For(init: bool, test: bool, update: bool)

  datatype Node =
    | Ident(id: nat, name: string)
    | Member(id: nat, target: Node, property: Node, computed: bool)
    | Call(id: nat, callee: Node, args: seq<Node>)
    | Await(id: nat, argument: Node)
    | Conditional(id: nat, test: Node, consequent: Node, alternate: Node)
    | Logical(id: nat, left: Node, right: Node)
    | Ordered(id: nat, children: seq<Node>)  // children merely visited in source order
    | Block(id: nat, body: seq<Node>)
    | If(id: nat, test: Node, consequent: Node, otherwise: Option<Node>)
    | Exit(id: nat, value: Option<Node>)     // return or throw
    | Loop(id: nat, kind: LoopKind, children: seq<Node>)
    | ForAwait(id: nat, left: Node, right: Node, each: Node)
    | Switch(id: nat, discriminant: Node, cases: seq<Node>)
    | Case(id: nat, guard: Option<Node>, body: seq<Node>)
    | Try(id: nat, block: Node, handler: Option<Node>, finalizer: Option<Node>)
    | Function(id: nat)                      // a nested function, never entered

  /** A statement that always leaves the function, as far as its shape tells. */
  predicate BlockAlwaysExits(n: Node) {
    match n
    case Exit(_, _) => true
    case Block(_, body) => body != [] && BlockAlwaysExits(body[|body| - 1])
    case If(_, _, consequent, Some(alternate)) => BlockAlwaysExits(consequent) && BlockAlwaysExits(alternate)
    case _ => false
  }

  /** `accessor.get(...)`, or the accessor itself passed as a call argument. */
  predicate IsAccessorUsage(n: Node, isArgument: bool, accessor: string) {
    match n
    case Call(_, Member(_, Ident(_, name), _, _), _) => name == accessor
    case Ident(_, name) => name == accessor && isArgument
    case _ => false
  }

  /** The flag after a walk, and the nodes reported during it. */
  datatype Flow = Flow(saw: bool, reports: seq<nat>)

  function Report(reports: seq<nat>, f: Flow): Flow {
    Flow(f.saw, reports + f.reports)
  }

  /** The flag for code after an if-statement: raised by a branch from which that
      code is reached, or, when it is not reached at all, by either branch. */
  predicate AfterIf(consequentExits: bool, afterConsequent: bool, alternateExits: bool, afterAlternate: bool) {
    (!consequentExits && afterConsequent) || (!alternateExits && afterAlternate) ||
    (consequentExits && alternateExits && (afterConsequent || afterAlternate))
  }

  function Walk(n: Node, isArgument: bool, accessor: string, saw: bool): Flow
    decreases n, 1
  {
    if n.Function? then Flow(saw, [])
    else if n.Await? then Flow(true, Walk(n.argument, false, accessor, saw).reports)
    else if IsAccessorUsage(n, isArgument, accessor) && saw then Flow(saw, [n.id])
    else WalkInside(n, accessor, saw)
  }

  function WalkInside(n: Node, accessor: string, saw: bool): Flow
    decreases n, 0
  {
    match n
    case Ident(_, _) => Flow(saw, [])
    case Member(_, target, property, computed) =>
      var o := Walk(target, false, accessor, saw);
      if computed then Report(o.reports, Walk(property, false, accessor, o.saw)) else o
    case Call(_, callee, args) =>
      var c := Walk(callee, false, accessor, saw);
      Report(c.reports, WalkAll(args, true, accessor, c.saw))
    case Conditional(_, test, consequent, alternate) =>
      var t := Walk(test, false, accessor, saw);
      var c := Walk(consequent, false, accessor, t.saw);
      var a := Walk(alternate, false, accessor, t.saw);
      Flow(a.saw || c.saw, t.reports + c.reports + a.reports)
    case Logical(_, left, right) =>
      var l := Walk(left, false, accessor, saw);
      Report(l.reports, Walk(right, false, accessor, l.saw))
    case Ordered(_, children) => WalkAll(children, false, accessor, saw)
    case Block(_, body) => WalkAll(body, false, accessor, saw)
    case If(_, test, consequent, otherwise) =>
      var t := Walk(test, false, accessor, saw);
      var c := Walk(consequent, false, accessor, t.saw);
      var a := WalkOptional(otherwise, accessor, t.saw);
      Flow(AfterIf(BlockAlwaysExits(consequent), c.saw, otherwise.Some? && BlockAlwaysExits(otherwise.value), a.saw),
           t.reports + c.reports + a.reports)
    case Exit(_, value) => WalkOptional(value, accessor, saw)
    case Loop(_, _, children) => WalkAll(children, false, accessor, saw)
    case ForAwait(_, left, right, each) =>
      var l := Walk(left, false, accessor, saw);
      var r := Walk(right, false, accessor, l.saw);
      var e := Walk(each, false, accessor, true);
      Flow(e.saw, l.reports + r.reports + e.reports)
    case Switch(_, discriminant, cases) =>
      var d := Walk(discriminant, false, accessor, saw);
      Report(d.reports, WalkCases(cases, accessor, d.saw))
    case Try(_, block, handler, finalizer) =>
      var b := Walk(block, false, accessor, saw);
      var h := WalkOptional(handler, accessor, saw);
      var f := WalkOptional(finalizer, accessor, b.saw || h.saw);
      Flow(f.saw, b.reports + h.reports + f.reports)
    case _ => Flow(saw, [])
  }

  function WalkOptional(o: Option<Node>, accessor: string, saw: bool): Flow
    decreases o, 2
  {
    match o case Some(n) => Walk(n, false, accessor, saw) case None => Flow(saw, [])
  }

  function WalkAll(ns: seq<Node>, areArguments: bool, accessor: string, saw: bool): Flow
    decreases ns, 2
  {
    if ns == [] then Flow(saw, []) else
      var f := Walk(ns[0], areArguments, accessor, saw);
      Report(f.reports, WalkAll(ns[1..], areArguments, accessor, f.saw))
  }

  /** Every case starts from the flag before the cases; the result is their
      disjunction, so it is false when there is no case. */
  function WalkCases(cases: seq<Node>, accessor: string, before: bool): Flow
    decreases cases, 2
  {
    if cases == [] then Flow(false, []) else
      var f := WalkCase(cases[0], accessor, before);
      var rest := WalkCases(cases[1..], accessor, before);
      Flow(f.saw || rest.saw, f.reports + rest.reports)
  }

  function WalkCase(c: Node, accessor: string, before: bool): Flow
    decreases c, 1
  {
    if !c.Case? then Flow(before, []) else
      var g := WalkOptional(c.guard, accessor, before);
      Report(g.reports, WalkAll(c.body, false, accessor, g.saw))
  }
}
