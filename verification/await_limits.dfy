/** When the flag of the await walk may fall: never in code whose `switch`
    statements all have cases, and exactly there otherwise. */
module AwaitLimits {
  import opened Sequences
  import opened AwaitFlow
  import C = AwaitChecker

  /** No `switch` in the tree is without cases. */
  predicate NoEmptySwitch(n: Node)
    decreases n
  {
    !(n.Switch? && n.cases == []) &&
    forall i :: 0 <= i < |C.Parts(n)| ==> NoEmptySwitch(C.Parts(n)[i])
  }

  predicate NoEmptySwitches(ns: seq<Node>) {
    forall i :: 0 <= i < |ns| ==> NoEmptySwitch(ns[i])
  }

  lemma PartsClean(n: Node)
    requires NoEmptySwitch(n)
    ensures NoEmptySwitches(C.Parts(n))
  {
  }

  /** A raised flag stays raised through code of any kind in which no `switch` is
      without cases. */
  lemma {:induction false} FlagNeverFalls(n: Node, isArgument: bool, accessor: string)
    requires NoEmptySwitch(n)
    ensures Walk(n, isArgument, accessor, true).saw
    decreases n, 1
  {
    if !n.Function? && !n.Await? && !IsAccessorUsage(n, isArgument, accessor) {
      InsideNeverFalls(n, accessor);
    }
  }

  lemma {:induction false} InsideNeverFalls(n: Node, accessor: string)
    requires NoEmptySwitch(n) && !n.Await? && !n.Function?
    ensures WalkInside(n, accessor, true).saw
    decreases n, 0
  {
    hide Walk, WalkAll, WalkOptional, WalkCases;
    PartsClean(n);
    match n
    case Member(_, target, property, computed) =>
      PartNeverFalls(n, 0, accessor);
      PartNeverFalls(n, 1, accessor);
    case Call(_, callee, args) =>
      PartNeverFalls(n, 0, accessor);
      assert C.Parts(n)[1..] == args;
      AllNeverFall(args, true, accessor);
    case Logical(_, left, right) =>
      PartNeverFalls(n, 0, accessor);
      PartNeverFalls(n, 1, accessor);
    case Ordered(_, children) => AllNeverFall(children, false, accessor);
    case Block(_, body) => AllNeverFall(body, false, accessor);
    case Loop(_, _, children) => AllNeverFall(children, false, accessor);
    case Exit(_, value) => OptionalNeverFalls(value, accessor);
    case Conditional(_, _, _, _) =>
      PartNeverFalls(n, 0, accessor);
      PartNeverFalls(n, 1, accessor);
      PartNeverFalls(n, 2, accessor);
    case If(_, _, _, otherwise) =>
      PartNeverFalls(n, 0, accessor);
      PartNeverFalls(n, 1, accessor);
      assert otherwise.Some? ==> C.Parts(n)[2] == otherwise.value;
      OptionalNeverFalls(otherwise, accessor);
    case ForAwait(_, _, _, _) => PartNeverFalls(n, 2, accessor);
    case Switch(_, _, cases) =>
      PartNeverFalls(n, 0, accessor);
      assert C.Parts(n)[1..] == cases;
      CasesNeverFall(cases, accessor);
    case Try(_, _, handler, finalizer) =>
      PartNeverFalls(n, 0, accessor);
      assert finalizer.Some? ==> C.Parts(n)[|C.Parts(n)| - 1] == finalizer.value;
      OptionalNeverFalls(finalizer, accessor);
    case _ =>
  }

  lemma {:induction false} PartNeverFalls(n: Node, i: nat, accessor: string)
    requires NoEmptySwitches(C.Parts(n)) && i < |C.Parts(n)|
    ensures Walk(C.Parts(n)[i], false, accessor, true).saw
    decreases C.Parts(n)[i], 2
  {
    FlagNeverFalls(C.Parts(n)[i], false, accessor);
  }

  lemma {:induction false} OptionalNeverFalls(o: Option<Node>, accessor: string)
    requires o.Some? ==> NoEmptySwitch(o.value)
    ensures WalkOptional(o, accessor, true).saw
    decreases o, 2
  {
    if o.Some? {
      FlagNeverFalls(o.value, false, accessor);
    }
  }

  lemma {:induction false} AllNeverFall(ns: seq<Node>, areArguments: bool, accessor: string)
    requires NoEmptySwitches(ns)
    ensures WalkAll(ns, areArguments, accessor, true).saw
    decreases ns, 2
  {
    if ns != [] {
      FlagNeverFalls(ns[0], areArguments, accessor);
      AllNeverFall(ns[1..], areArguments, accessor);
    }
  }

  lemma {:induction false} CaseNeverFalls(c: Node, accessor: string)
    requires NoEmptySwitch(c)
    ensures WalkCase(c, accessor, true).saw
    decreases c, 3
  {
    hide Walk, WalkAll, WalkOptional;
    PartsClean(c);
    if c.Case? {
      assert c.guard.Some? ==> C.Parts(c)[0] == c.guard.value;
      OptionalNeverFalls(c.guard, accessor);
      assert C.Parts(c)[|C.Present(c.guard)|..] == c.body;
      AllNeverFall(c.body, false, accessor);
    }
  }

  lemma {:induction false} CasesNeverFall(cases: seq<Node>, accessor: string)
    requires cases != [] && NoEmptySwitches(cases)
    ensures WalkCases(cases, accessor, true).saw
    decreases cases, 3
  {
    CaseNeverFalls(cases[0], accessor);
  }

  /** A `switch` keeps a raised flag if and only if it has a case, as long as no
      `switch` inside its parts is without cases. */
  lemma SwitchKeepsFlagExactly(id: nat, discriminant: Node, cases: seq<Node>, isArgument: bool, accessor: string)
    requires NoEmptySwitch(discriminant) && NoEmptySwitches(cases)
    ensures Walk(Switch(id, discriminant, cases), isArgument, accessor, true).saw <==> cases != []
  {
    FlagNeverFalls(discriminant, false, accessor);
    if cases != [] {
      CasesNeverFall(cases, accessor);
    }
    var d := Walk(discriminant, false, accessor, true);
    assert WalkInside(Switch(id, discriminant, cases), accessor, true) ==
           Report(d.reports, WalkCases(cases, accessor, d.saw));
  }

  /** Without cases it lowers the flag whatever came before it. */
  lemma EmptySwitchForgets(id: nat, discriminant: Node, isArgument: bool, accessor: string, saw: bool)
    ensures !Walk(Switch(id, discriminant, []), isArgument, accessor, saw).saw
  {
    var d := Walk(discriminant, false, accessor, saw);
    assert WalkInside(Switch(id, discriminant, []), accessor, saw) == Report(d.reports, WalkCases([], accessor, d.saw));
  }
}
