/** The checker as the rule runs it: a mutable flag saved and restored at
    branches, a set of visited nodes, and the reports made so far. On a tree,
    where no node occurs twice, the visited set changes nothing. */
module AwaitChecker {
  import opened Sequences
  import F = AwaitFlow

  type Node = F.Node

  /** The nodes below `n` that a walk may visit. */
  function Parts(n: Node): (parts: seq<Node>)
    ensures forall i :: 0 <= i < |parts| ==> parts[i] < n
  {
    match n
    case Ident(_, _) => []
    case Member(_, target, property, _) => [target, property]
    case Call(_, callee, args) => [callee] + args
    case Await(_, argument) => [argument]
    case Conditional(_, test, consequent, alternate) => [test, consequent, alternate]
    case Logical(_, left, right) => [left, right]
    case Ordered(_, children) => children
    case Block(_, body) => body
    case If(_, test, consequent, otherwise) => [test, consequent] + Present(otherwise)
    case Exit(_, value) => Present(value)
    case Loop(_, _, children) => children
    case ForAwait(_, left, right, each) => [left, right, each]
    case Switch(_, discriminant, cases) => [discriminant] + cases
    case Case(_, guard, body) => Present(guard) + body
    case Try(_, block, handler, finalizer) => [block] + Present(handler) + Present(finalizer)
    case Function(_) => []
  }

  function Present(n: Option<Node>): seq<Node> {
    match n case Some(v) => [v] case None => []
  }

  ghost function Ids(n: Node): set<nat>
    decreases n
  {
    {n.id} + set i, k | 0 <= i < |Parts(n)| && k in Ids(Parts(n)[i]) :: k
  }

  ghost function IdsOf(ns: seq<Node>): set<nat> {
    set i, k | 0 <= i < |ns| && k in Ids(ns[i]) :: k
  }

  /** No node identity occurs twice in the trees `ns`. */
  ghost predicate Apart(ns: seq<Node>) {
    forall i, j :: 0 <= i < j < |ns| ==> Ids(ns[i]) !! Ids(ns[j])
  }

  ghost predicate IsTree(n: Node)
    decreases n
  {
    Apart(Parts(n)) &&
    forall i :: 0 <= i < |Parts(n)| ==> n.id !in Ids(Parts(n)[i]) && IsTree(Parts(n)[i])
  }

  /** The trees `parts` are being visited in order, starting from the visited
      set `before`; the first `k` of them have been dealt with. */
  ghost predicate Visiting(parts: seq<Node>, before: set<nat>, k: nat, visited: set<nat>) {
    k <= |parts| && Apart(parts) && (forall i :: 0 <= i < |parts| ==> IsTree(parts[i])) &&
    IdsOf(parts) !! before && visited <= before + IdsOf(parts[..k])
  }

  lemma StartVisiting(n: Node, visited: set<nat>)
    requires IsTree(n) && Ids(n) !! visited
    ensures Visiting(Parts(n), visited, 0, visited)
    ensures Visiting(Parts(n), visited + {n.id}, 0, visited + {n.id})
    ensures Ids(n) == {n.id} + IdsOf(Parts(n))
  {
  }

  lemma NextPart(parts: seq<Node>, before: set<nat>, k: nat, visited: set<nat>)
    requires Visiting(parts, before, k, visited) && k < |parts|
    ensures IsTree(parts[k]) && Ids(parts[k]) !! visited
  {
  }

  lemma PartVisited(parts: seq<Node>, before: set<nat>, k: nat, visited: set<nat>, visited': set<nat>)
    requires Visiting(parts, before, k, visited) && k < |parts|
    requires visited' <= visited + Ids(parts[k])
    ensures Visiting(parts, before, k + 1, visited')
  {
    forall x | x in visited' ensures x in before + IdsOf(parts[..k + 1]) {
      if x in IdsOf(parts[..k]) {
        var i :| 0 <= i < k && x in Ids(parts[..k][i]);
        assert x in Ids(parts[..k + 1][i]);
      } else if x !in before {
        assert parts[..k + 1][k] == parts[k];
      }
    }
  }

  lemma AllVisited(parts: seq<Node>, before: set<nat>, visited: set<nat>)
    requires Visiting(parts, before, |parts|, visited)
    ensures visited <= before + IdsOf(parts)
  {
    assert parts[..|parts|] == parts;
  }

  class Checker {
    const accessor: string
    var sawAwait: bool
    var visited: set<nat>
    var reports: seq<nat>

    constructor (accessor: string)
      ensures this.accessor == accessor && !sawAwait && visited == {} && reports == []
    {
      this.accessor := accessor;
      sawAwait, visited, reports := false, {}, [];
    }

    /** The checker has come to `f` from a state with reports `earlier`. */
    ghost predicate At(earlier: seq<nat>, f: F.Flow)
      reads this
    {
      sawAwait == f.saw && reports == earlier + f.reports
    }

    method Walk(n: Node, isArgument: bool)
      requires IsTree(n) && Ids(n) !! visited
      modifies this
      ensures visited <= old(visited) + Ids(n)
      ensures At(old(reports), F.Walk(n, isArgument, accessor, old(sawAwait)))
      decreases n, 3
    {
      assert n.id in Ids(n);
      hide Ids, IdsOf, Visiting, IsTree, F.Walk, Parts;
      if n.id in visited {
        return;
      }
      StartVisiting(n, visited);
      visited := visited + {n.id};
      Visit(n, isArgument);
    }

    method Visit(n: Node, isArgument: bool)
      requires Visiting(Parts(n), visited, 0, visited)
      modifies this
      ensures visited <= old(visited) + IdsOf(Parts(n))
      ensures At(old(reports), F.Walk(n, isArgument, accessor, old(sawAwait)))
      decreases n, 2
    {
      hide Ids, IdsOf, Visiting, IsTree, F.WalkInside;
      ghost var before := visited;
      if n.Function? {
        return;
      }
      if n.Await? {
        WalkPart(n.argument, false, Parts(n), before, 0);
        sawAwait := true;
        AllVisited(Parts(n), before, visited);
        return;
      }
      if F.IsAccessorUsage(n, isArgument, accessor) && sawAwait {
        reports := reports + [n.id];
        return;
      }
      WalkInside(n);
    }

    /** Visits the next of several parts. */
    method WalkPart(n: Node, isArgument: bool, ghost parts: seq<Node>, ghost before: set<nat>, ghost k: nat)
      requires Visiting(parts, before, k, visited) && k < |parts| && parts[k] == n
      modifies this
      ensures Visiting(parts, before, k + 1, visited)
      ensures At(old(reports), F.Walk(n, isArgument, accessor, old(sawAwait)))
      decreases n, 4
    {
      hide Ids, IdsOf, Visiting, IsTree, F.Walk;
      NextPart(parts, before, k, visited);
      Walk(n, isArgument);
      PartVisited(parts, before, k, old(visited), visited);
    }

    /** Visits the part `o`, if it is there. */
    method WalkPresent(o: Option<Node>, ghost parts: seq<Node>, ghost before: set<nat>, ghost k: nat)
      requires Visiting(parts, before, k, visited)
      requires o.Some? ==> k < |parts| && parts[k] == o.value
      modifies this
      ensures Visiting(parts, before, k + |Present(o)|, visited)
      ensures At(old(reports), F.WalkOptional(o, accessor, old(sawAwait)))
      decreases o, 5
    {
      hide Ids, IdsOf, Visiting, IsTree, F.Walk;
      if o.Some? {
        WalkPart(o.value, false, parts, before, k);
      }
    }

    method WalkAll(ns: seq<Node>, areArguments: bool, ghost parts: seq<Node>, ghost before: set<nat>, ghost k: nat)
      requires Visiting(parts, before, k, visited) && k + |ns| <= |parts| && parts[k..k + |ns|] == ns
      modifies this
      ensures Visiting(parts, before, k + |ns|, visited)
      ensures At(old(reports), F.WalkAll(ns, areArguments, accessor, old(sawAwait)))
      decreases ns, 5
    {
      hide Ids, IdsOf, Visiting, IsTree, F.Walk;
      for i := 0 to |ns|
        invariant Visiting(parts, before, k + i, visited)
        invariant At(old(reports), F.WalkAll(ns[..i], areArguments, accessor, old(sawAwait)))
      {
        assert parts[k..k + |ns|][i] == parts[k + i];
        WalkPart(ns[i], areArguments, parts, before, k + i);
        WalkAllSnoc(ns[..i], ns[i], areArguments, accessor, old(sawAwait));
        assert ns[..i + 1] == ns[..i] + [ns[i]];
      }
      assert ns[..|ns|] == ns;
    }

    method WalkInside(n: Node)
      requires Visiting(Parts(n), visited, 0, visited)
      requires !n.Await? && !n.Function?
      modifies this
      ensures visited <= old(visited) + IdsOf(Parts(n))
      ensures At(old(reports), F.WalkInside(n, accessor, old(sawAwait)))
      decreases n, 1
    {
      hide Ids, IdsOf, Visiting, IsTree, F.Walk, F.WalkAll, F.WalkOptional;
      ghost var parts, before := Parts(n), visited;
      match n
      case Member(_, target, property, computed) =>
        WalkPart(target, false, parts, before, 0);
        if computed {
          WalkPart(property, false, parts, before, 1);
        } else {
          PartVisited(parts, before, 1, visited, visited);
        }
        AllVisited(parts, before, visited);
      case Call(_, callee, args) =>
        WalkPart(callee, false, parts, before, 0);
        WalkAll(args, true, parts, before, 1);
        AllVisited(parts, before, visited);
      case Logical(_, left, right) =>
        WalkPart(left, false, parts, before, 0);
        WalkPart(right, false, parts, before, 1);
        AllVisited(parts, before, visited);
      case Ordered(_, children) =>
        WalkAll(children, false, parts, before, 0);
        AllVisited(parts, before, visited);
      case Block(_, body) =>
        WalkAll(body, false, parts, before, 0);
        AllVisited(parts, before, visited);
      case Exit(_, value) =>
        WalkPresent(value, parts, before, 0);
        AllVisited(parts, before, visited);
      case Loop(_, _, children) =>
        WalkAll(children, false, parts, before, 0);
        AllVisited(parts, before, visited);
      case ForAwait(_, _, _, _) => WalkForAwait(n);
      case Conditional(_, _, _, _) => WalkConditional(n);
      case If(_, _, _, _) => WalkIf(n);
      case Switch(_, _, _) => WalkSwitch(n);
      case Try(_, _, _, _) => WalkTry(n);
      case _ =>
    }

    /** `for await` suspends before its body. */
    method WalkForAwait(n: Node)
      requires n.ForAwait? && Visiting(Parts(n), visited, 0, visited)
      modifies this
      ensures visited <= old(visited) + IdsOf(Parts(n))
      ensures At(old(reports), F.WalkInside(n, accessor, old(sawAwait)))
      decreases n, 0
    {
      hide Ids, IdsOf, Visiting, IsTree, F.Walk, F.WalkAll, F.WalkOptional;
      ghost var parts, before := Parts(n), visited;
      WalkPart(n.left, false, parts, before, 0);
      WalkPart(n.right, false, parts, before, 1);
      sawAwait := true;
      WalkPart(n.each, false, parts, before, 2);
      AllVisited(parts, before, visited);
    }

    method WalkConditional(n: Node)
      requires n.Conditional? && Visiting(Parts(n), visited, 0, visited)
      modifies this
      ensures visited <= old(visited) + IdsOf(Parts(n))
      ensures At(old(reports), F.WalkInside(n, accessor, old(sawAwait)))
      decreases n, 0
    {
      hide Ids, IdsOf, Visiting, IsTree, F.Walk, F.WalkAll, F.WalkOptional;
      ghost var parts, before := Parts(n), visited;
      WalkPart(n.test, false, parts, before, 0);
      var beforeBranches := sawAwait;
      WalkPart(n.consequent, false, parts, before, 1);
      var awaitAfterConsequent := sawAwait;
      sawAwait := beforeBranches;
      WalkPart(n.alternate, false, parts, before, 2);
      sawAwait := sawAwait || awaitAfterConsequent;
      AllVisited(parts, before, visited);
    }

    method WalkIf(n: Node)
      requires n.If? && Visiting(Parts(n), visited, 0, visited)
      modifies this
      ensures visited <= old(visited) + IdsOf(Parts(n))
      ensures At(old(reports), F.WalkInside(n, accessor, old(sawAwait)))
      decreases n, 0
    {
      hide Ids, IdsOf, Visiting, IsTree, F.Walk, F.WalkAll, F.WalkOptional;
      ghost var parts, before := Parts(n), visited;
      assert parts == [n.test, n.consequent] + Present(n.otherwise);
      hide Parts, F.AfterIf, F.BlockAlwaysExits;
      WalkPart(n.test, false, parts, before, 0);
      var beforeBranches := sawAwait;
      WalkPart(n.consequent, false, parts, before, 1);
      var awaitAfterConsequent := sawAwait;
      var consequentExits := F.BlockAlwaysExits(n.consequent);
      sawAwait := beforeBranches;
      WalkPresent(n.otherwise, parts, before, 2);
      AllVisited(parts, before, visited);
      var awaitAfterAlternate := sawAwait;
      var alternateExits := if n.otherwise.Some? then F.BlockAlwaysExits(n.otherwise.value) else false;
      sawAwait := JoinBranches(consequentExits, awaitAfterConsequent, alternateExits, awaitAfterAlternate);
    }

    /** The flag for code after an if-statement. */
    static method JoinBranches(consequentExits: bool, awaitAfterConsequent: bool,
        alternateExits: bool, awaitAfterAlternate: bool)
      returns (after: bool)
      ensures after == F.AfterIf(consequentExits, awaitAfterConsequent, alternateExits, awaitAfterAlternate)
    {
      if consequentExits && alternateExits {
        after := awaitAfterConsequent || awaitAfterAlternate;
      } else if consequentExits {
        after := awaitAfterAlternate;
      } else if alternateExits {
        after := awaitAfterConsequent;
      } else {
        after := awaitAfterConsequent || awaitAfterAlternate;
      }
    }

    method WalkSwitch(n: Node)
      requires n.Switch? && Visiting(Parts(n), visited, 0, visited)
      modifies this
      ensures visited <= old(visited) + IdsOf(Parts(n))
      ensures At(old(reports), F.WalkInside(n, accessor, old(sawAwait)))
      decreases n, 0
    {
      hide Ids, IdsOf, Visiting, IsTree, F.Walk, F.WalkAll, F.WalkOptional, F.WalkCase, F.IsAccessorUsage;
      ghost var parts, before := Parts(n), visited;
      WalkPart(n.discriminant, false, parts, before, 0);
      var beforeCases := sawAwait;
      ghost var seen := reports;
      var anyCaseHadAwait := false;
      for i := 0 to |n.cases|
        invariant Visiting(parts, before, 1 + i, visited)
        invariant anyCaseHadAwait == F.WalkCases(n.cases[..i], accessor, beforeCases).saw
        invariant reports == seen + F.WalkCases(n.cases[..i], accessor, beforeCases).reports
      {
        sawAwait := beforeCases;
        WalkCase(n.cases[i], parts, before, 1 + i);
        anyCaseHadAwait := anyCaseHadAwait || sawAwait;
        WalkCasesSnoc(n.cases[..i], n.cases[i], accessor, beforeCases);
        assert n.cases[..i + 1] == n.cases[..i] + [n.cases[i]];
      }
      assert n.cases[..|n.cases|] == n.cases;
      sawAwait := anyCaseHadAwait;
      AllVisited(parts, before, visited);
    }

    method WalkCase(c: Node, ghost parts: seq<Node>, ghost before: set<nat>, ghost k: nat)
      requires Visiting(parts, before, k, visited) && k < |parts| && parts[k] == c
      modifies this
      ensures Visiting(parts, before, k + 1, visited)
      ensures At(old(reports), F.WalkCase(c, accessor, old(sawAwait)))
      decreases c, 4
    {
      NextPart(parts, before, k, visited);
      StartVisiting(c, visited);
      ghost var start := visited;
      hide Ids, IdsOf, Visiting, IsTree, Parts, F.WalkInside, F.WalkAll, F.WalkOptional;
      if c.Case? {
        WalkCaseParts(c);
      }
      PartVisited(parts, before, k, start, visited);
    }

    method WalkCaseParts(c: Node)
      requires c.Case? && Visiting(Parts(c), visited, 0, visited)
      modifies this
      ensures visited <= old(visited) + IdsOf(Parts(c))
      ensures At(old(reports), F.WalkCase(c, accessor, old(sawAwait)))
      decreases c, 3
    {
      hide Ids, IdsOf, Visiting, IsTree, F.Walk, F.WalkAll, F.WalkOptional, F.WalkInside;
      ghost var parts, before := Parts(c), visited;
      assert parts == Present(c.guard) + c.body;
      assert parts[|Present(c.guard)|..|Present(c.guard)| + |c.body|] == c.body;
      hide Parts;
      WalkPresent(c.guard, parts, before, 0);
      WalkAll(c.body, false, parts, before, |Present(c.guard)|);
      AllVisited(parts, before, visited);
    }

    method WalkTry(n: Node)
      requires n.Try? && Visiting(Parts(n), visited, 0, visited)
      modifies this
      ensures visited <= old(visited) + IdsOf(Parts(n))
      ensures At(old(reports), F.WalkInside(n, accessor, old(sawAwait)))
      decreases n, 0
    {
      hide Ids, IdsOf, Visiting, IsTree, F.Walk, F.WalkAll, F.WalkOptional;
      ghost var parts, before := Parts(n), visited;
      assert parts == [n.block] + Present(n.handler) + Present(n.finalizer);
      hide Parts;
      var beforeTry := sawAwait;
      WalkPart(n.block, false, parts, before, 0);
      var awaitAfterTry := sawAwait;
      sawAwait := beforeTry;
      WalkPresent(n.handler, parts, before, 1);
      var awaitAfterCatch := sawAwait;
      sawAwait := awaitAfterTry || awaitAfterCatch;
      WalkPresent(n.finalizer, parts, before, 1 + |Present(n.handler)|);
      AllVisited(parts, before, visited);
    }
  }

  lemma {:induction false} WalkAllSnoc(ns: seq<Node>, n: Node, areArguments: bool, accessor: string, saw: bool)
    ensures var f := F.WalkAll(ns, areArguments, accessor, saw);
            F.WalkAll(ns + [n], areArguments, accessor, saw) ==
            F.Report(f.reports, F.Walk(n, areArguments, accessor, f.saw))
  {
    hide F.Walk;
    if ns == [] {
      assert [n][1..] == [];
    } else {
      var g := F.Walk(ns[0], areArguments, accessor, saw);
      WalkAllSnoc(ns[1..], n, areArguments, accessor, g.saw);
      assert (ns + [n])[1..] == ns[1..] + [n];
    }
  }

  lemma {:induction false} WalkCasesSnoc(cases: seq<Node>, c: Node, accessor: string, before: bool)
    ensures var f, g := F.WalkCases(cases, accessor, before), F.WalkCase(c, accessor, before);
            F.WalkCases(cases + [c], accessor, before) == F.Flow(f.saw || g.saw, f.reports + g.reports)
  {
    hide F.WalkCase;
    if cases == [] {
      assert [c][1..] == [];
    } else {
      WalkCasesSnoc(cases[1..], c, accessor, before);
      assert (cases + [c])[1..] == cases[1..] + [c];
    }
  }

  /** One call of the rule's check on a function body. */
  method CheckBody(body: Node, accessor: string) returns (reports: seq<nat>)
    requires IsTree(body)
    ensures reports == F.Walk(body, false, accessor, false).reports
  {
    var checker := new Checker(accessor);
    checker.Walk(body, false);
    reports := checker.reports;
  }
}
