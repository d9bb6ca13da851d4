/** Merging duplicate imports: every module imported by a source file ends up
    on one import line. Lines are already parsed, names already trimmed. */
module Imports {
  import opened Sequences

  datatype Line =
    | TypeImport(names: seq<string>, mod: string)   // import type { names } from 'mod'
    | ValueImport(names: seq<string>, mod: string)  // import { names } from 'mod'
    | Other(text: string)

  const PLACEHOLDER := "__IMPORT_PLACEHOLDER__"
  const TYPE := "type "

  predicate StartsWith(s: string, prefix: string) {
    |prefix| <= |s| && s[..|prefix|] == prefix
  }

  /** No line of the file looks like the merger's own placeholder. */
  predicate Unmarked(lines: seq<Line>) {
    forall l :: l in lines && l.Other? ==> !StartsWith(l.text, PLACEHOLDER)
  }

  datatype Entry = Entry(typeNames: seq<string>, valueNames: seq<string>)

  // ---------- what a file imports ----------

  function Modules(lines: seq<Line>): set<string> {
    set l | l in lines && !l.Other? :: l.mod
  }

  /** The names written for a module on its type lines, or on its value lines. */
  function Names(lines: seq<Line>, mod: string, types: bool): seq<string> {
    if lines == [] then [] else
      var last := lines[|lines| - 1];
      Names(lines[..|lines| - 1], mod, types) +
      if !last.Other? && last.mod == mod && last.TypeImport? == types then last.names else []
  }

  datatype Binding = Binding(mod: string, name: string, isType: bool)

  /** What one written name binds: `type X` on a value line binds a type. */
  function Bound(mod: string, name: string, onTypeLine: bool): Binding {
    if onTypeLine then Binding(mod, name, true)
    else if StartsWith(name, TYPE) then Binding(mod, name[|TYPE|..], true)
    else Binding(mod, name, false)
  }

  predicate Binds(l: Line, b: Binding) {
    !l.Other? && exists n :: n in l.names && Bound(l.mod, n, l.TypeImport?) == b
  }

  predicate FileBinds(lines: seq<Line>, b: Binding) {
    exists l :: l in lines && Binds(l, b)
  }

  // ---------- names without repetition, in order of first occurrence ----------

  function Unique(names: seq<string>): seq<string> {
    if names == [] then [] else
      var init := names[..|names| - 1];
      Unique(init) + if names[|names| - 1] in init then [] else [names[|names| - 1]]
  }

  predicate NoRepeats(names: seq<string>) {
    forall i, j :: 0 <= i < j < |names| ==> names[i] != names[j]
  }

  lemma {:induction false} UniqueKeeps(names: seq<string>)
    ensures NoRepeats(Unique(names))
    ensures forall n :: n in Unique(names) <==> n in names
    ensures |Unique(names)| <= |names|
    ensures NoRepeats(names) <==> Unique(names) == names
  {
    if names != [] {
      var init, last := names[..|names| - 1], names[|names| - 1];
      assert names == init + [last];
      UniqueKeeps(init);
      if NoRepeats(names) {
        assert NoRepeats(init);
        assert last !in init;
      }
    }
  }

  /** Where a name stands first, or the length of the list. */
  function FirstPlace(names: seq<string>, n: string): nat {
    if names == [] then 0 else if names[0] == n then 0 else 1 + FirstPlace(names[1..], n)
  }

  lemma {:induction false} FirstPlaceSnoc(init: seq<string>, last: string, n: string)
    ensures FirstPlace(init + [last], n) ==
            if n in init then FirstPlace(init, n) else if n == last then |init| else |init| + 1
    ensures n in init ==> FirstPlace(init, n) < |init|
  {
    if init == [] {
      assert ([] + [last])[1..] == [];
    } else {
      assert (init + [last])[1..] == init[1..] + [last];
      FirstPlaceSnoc(init[1..], last, n);
    }
  }

  /** The names keep the order of their first places. */
  lemma {:induction false} UniqueInOrder(names: seq<string>, i: nat, j: nat)
    requires i < j < |Unique(names)|
    ensures FirstPlace(names, Unique(names)[i]) < FirstPlace(names, Unique(names)[j])
    decreases |names|
  {
    var init, last := names[..|names| - 1], names[|names| - 1];
    assert names == init + [last];
    UniqueKeeps(init);
    assert Unique(init)[i] in Unique(init);
    FirstPlaceSnoc(init, last, Unique(names)[i]);
    FirstPlaceSnoc(init, last, Unique(names)[j]);
    if j < |Unique(init)| {
      assert Unique(init)[j] in Unique(init);
      UniqueInOrder(init, i, j);
    }
  }

  // ---------- the merge as a function ----------

  /** A kept line: another line, or the place of a module's import. */
  datatype Slot = Text(text: string) | Place(mod: string)

  function SlotOf(l: Line): Slot {
    if !l.Other? then Place(l.mod)
    else if StartsWith(l.text, PLACEHOLDER) then Place(l.text[|PLACEHOLDER|..])
    else Text(l.text)
  }

  /** All lines but the import lines whose module was imported before. */
  function Kept(lines: seq<Line>): seq<Slot> {
    if lines == [] then [] else
      var init, last := lines[..|lines| - 1], lines[|lines| - 1];
      Kept(init) + if !last.Other? && last.mod in Modules(init) then [] else [SlotOf(last)]
  }

  function TypePrefixed(names: seq<string>): (r: seq<string>)
    ensures |r| == |names| && forall i :: 0 <= i < |r| ==> r[i] == TYPE + names[i]
  {
    seq(|names|, i requires 0 <= i < |names| => TYPE + names[i])
  }

  function Rendered(mod: string, entry: Entry): Line {
    var types, values := Unique(entry.typeNames), Unique(entry.valueNames);
    if |values| > 0 && |types| > 0 then ValueImport(values + TypePrefixed(types), mod)
    else if |values| > 0 then ValueImport(values, mod)
    else TypeImport(types, mod)
  }

  function EntryOf(lines: seq<Line>, mod: string): Entry {
    Entry(Names(lines, mod, true), Names(lines, mod, false))
  }

  function Filled(lines: seq<Line>, slot: Slot): Line {
    if slot.Text? then Other(slot.text) else Rendered(slot.mod, EntryOf(lines, slot.mod))
  }

  predicate HasUnknownPlace(lines: seq<Line>) {
    exists slot :: slot in Kept(lines) && slot.Place? && slot.mod !in Modules(lines)
  }

  /** None when a placeholder names a module that is not imported: the lookup
      of its entry then throws. */
  function Merged(lines: seq<Line>): Option<seq<Line>> {
    var kept := Kept(lines);
    if HasUnknownPlace(lines) then None
    else Some(seq(|kept|, k requires 0 <= k < |kept| => Filled(lines, kept[k])))
  }

  lemma {:induction false} NoNames(lines: seq<Line>, mod: string, types: bool)
    requires mod !in Modules(lines)
    ensures Names(lines, mod, types) == []
  {
    if lines != [] {
      var init, last := lines[..|lines| - 1], lines[|lines| - 1];
      assert last in lines;
      NoNames(init, mod, types);
    }
  }

  lemma EntryRead(lines: seq<Line>, l: Line, m: string)
    ensures EntryOf(lines + [l], m) ==
            if l.Other? || m != l.mod then EntryOf(lines, m) else Added(EntryOf(lines, m), l)
    ensures m !in Modules(lines) ==> EntryOf(lines, m) == Entry([], [])
  {
    assert (lines + [l])[..|lines|] == lines;
    assert Names(lines, m, true) + [] == Names(lines, m, true);
    assert Names(lines, m, false) + [] == Names(lines, m, false);
    if m !in Modules(lines) {
      NoNames(lines, m, true);
      NoNames(lines, m, false);
    }
  }

  lemma LineRead(lines: seq<Line>, i: nat)
    requires i < |lines|
    ensures lines[..i + 1][..i] == lines[..i]
    ensures Modules(lines[..i + 1]) == Modules(lines[..i]) + if lines[i].Other? then {} else {lines[i].mod}
    ensures Kept(lines[..i + 1]) ==
            Kept(lines[..i]) +
            if !lines[i].Other? && lines[i].mod in Modules(lines[..i]) then [] else [SlotOf(lines[i])]
    ensures Table(lines[..i + 1]) ==
            if lines[i].Other? then Table(lines[..i]) else
              var m := lines[i].mod;
              var before := if m in Table(lines[..i]) then Table(lines[..i])[m] else Entry([], []);
              Table(lines[..i])[m := Added(before, lines[i])]
  {
    var l := lines[i];
    assert lines[..i + 1] == lines[..i] + [l];
    hide EntryOf, Added, Names, SlotOf;
    forall m ensures EntryOf(lines[..i] + [l], m) ==
                     if l.Other? || m != l.mod then EntryOf(lines[..i], m) else Added(EntryOf(lines[..i], m), l) {
      EntryRead(lines[..i], l, m);
    }
    if !l.Other? {
      EntryRead(lines[..i], l, l.mod);
    }
  }

  // ---------- the program ----------

  function Table(lines: seq<Line>): map<string, Entry> {
    map m | m in Modules(lines) :: EntryOf(lines, m)
  }

  function Added(entry: Entry, line: Line): Entry
    requires !line.Other?
  {
    if line.TypeImport? then entry.(typeNames := entry.typeNames + line.names)
    else entry.(valueNames := entry.valueNames + line.names)
  }

  method MergeDuplicateImports(lines: seq<Line>) returns (merged: Option<seq<Line>>)
    ensures merged == Merged(lines)
  {
    var importsByModule: map<string, Entry> := map[];
    var otherLines: seq<Slot> := [];
    var seenModules: set<string> := {};
    assert Table([]) == map[];
    hide Kept, Table, Modules, Names, EntryOf, SlotOf, Added, Merged;
    for i := 0 to |lines|
      invariant importsByModule == Table(lines[..i])
      invariant seenModules == Modules(lines[..i])
      invariant otherLines == Kept(lines[..i])
    {
      var line := lines[i];
      LineRead(lines, i);
      if line.Other? {
        otherLines := otherLines + [SlotOf(line)];
      } else {
        if line.mod !in importsByModule {
          importsByModule := importsByModule[line.mod := Entry([], [])];
        }
        importsByModule := importsByModule[line.mod := Added(importsByModule[line.mod], line)];
        if line.mod !in seenModules {
          seenModules := seenModules + {line.mod};
          otherLines := otherLines + [Place(line.mod)];
        }
      }
    }
    assert lines[..|lines|] == lines;
    merged := FillPlaces(lines, importsByModule, otherLines);
  }

  method FillPlaces(ghost lines: seq<Line>, importsByModule: map<string, Entry>, otherLines: seq<Slot>)
    returns (merged: Option<seq<Line>>)
    requires importsByModule == Table(lines) && otherLines == Kept(lines)
    ensures merged == Merged(lines)
  {
    var out: seq<Line> := [];
    for k := 0 to |otherLines|
      invariant |out| == k
      invariant forall j :: 0 <= j < k ==> out[j] == Filled(lines, otherLines[j])
      invariant forall j :: 0 <= j < k && otherLines[j].Place? ==> otherLines[j].mod in Modules(lines)
    {
      var slot := otherLines[k];
      if slot.Place? {
        if slot.mod !in importsByModule {
          assert HasUnknownPlace(lines);
          return None;
        }
        out := out + [Rendered(slot.mod, importsByModule[slot.mod])];
      } else {
        out := out + [Other(slot.text)];
      }
    }
    assert !HasUnknownPlace(lines);
    assert out == Merged(lines).value;
    merged := Some(out);
  }

  // ---------- one line per module, at its first occurrence ----------

  predicate OneLineEach(lines: seq<Line>) {
    forall i, j :: 0 <= i < j < |lines| && !lines[i].Other? && !lines[j].Other? ==> lines[i].mod != lines[j].mod
  }

  function Others(lines: seq<Line>): seq<string> {
    if lines == [] then [] else
      var last := lines[|lines| - 1];
      Others(lines[..|lines| - 1]) + if last.Other? then [last.text] else []
  }

  function Texts(slots: seq<Slot>): seq<string> {
    if slots == [] then [] else
      var last := slots[|slots| - 1];
      Texts(slots[..|slots| - 1]) + if last.Text? then [last.text] else []
  }

  lemma UnmarkedInit(lines: seq<Line>)
    requires lines != [] && Unmarked(lines)
    ensures Unmarked(lines[..|lines| - 1])
    ensures lines[|lines| - 1].Other? ==> SlotOf(lines[|lines| - 1]) == Text(lines[|lines| - 1].text)
  {
    assert lines[|lines| - 1] in lines;
  }

  ghost predicate PlacesAre(slots: seq<Slot>, modules: set<string>) {
    (forall m :: Place(m) in slots <==> m in modules) &&
    (forall i, j :: 0 <= i < j < |slots| && slots[i].Place? ==> slots[i] != slots[j])
  }

  ghost predicate TextsUnmarked(slots: seq<Slot>) {
    forall t :: Text(t) in slots ==> !StartsWith(t, PLACEHOLDER)
  }

  lemma SlotAdded(slots: seq<Slot>, modules: set<string>, slot: Slot)
    requires PlacesAre(slots, modules) && TextsUnmarked(slots)
    requires if slot.Place? then slot.mod !in modules else !StartsWith(slot.text, PLACEHOLDER)
    ensures PlacesAre(slots + [slot], modules + if slot.Place? then {slot.mod} else {})
    ensures TextsUnmarked(slots + [slot])
    ensures Texts(slots + [slot]) == Texts(slots) + if slot.Text? then [slot.text] else []
  {
    assert (slots + [slot])[..|slots|] == slots;
    if slot.Place? {
      assert Place(slot.mod) !in slots;
    }
  }

  /** The places are the imported modules, each once; the texts are the other
      lines in order. */
  lemma {:induction false} KeptSlots(lines: seq<Line>)
    requires Unmarked(lines)
    ensures PlacesAre(Kept(lines), Modules(lines)) && TextsUnmarked(Kept(lines))
    ensures Texts(Kept(lines)) == Others(lines)
  {
    if lines != [] {
      var init, last := lines[..|lines| - 1], lines[|lines| - 1];
      UnmarkedInit(lines);
      KeptSlots(init);
      LastLine(lines);
      if last.Other? || last.mod !in Modules(init) {
        SlotAdded(Kept(init), Modules(init), SlotOf(last));
      }
      hide PlacesAre, TextsUnmarked, Modules, Kept, Others, Texts, Unmarked;
      assert Modules(init) + {} == Modules(init) && Kept(init) + [] == Kept(init) && Others(init) + [] == Others(init);
    }
  }

  lemma LastLine(lines: seq<Line>)
    requires lines != [] && Unmarked(lines)
    ensures var init, last := lines[..|lines| - 1], lines[|lines| - 1];
            (if last.Other? then SlotOf(last) == Text(last.text) && !StartsWith(last.text, PLACEHOLDER)
             else SlotOf(last) == Place(last.mod)) &&
            Modules(lines) == Modules(init) + (if last.Other? then {} else {last.mod}) &&
            Others(lines) == Others(init) + (if last.Other? then [last.text] else []) &&
            Kept(lines) == Kept(init) + if !last.Other? && last.mod in Modules(init) then [] else [SlotOf(last)]
  {
    var init, last := lines[..|lines| - 1], lines[|lines| - 1];
    assert last in lines;
    assert lines == init + [last];
  }

  lemma FilledSlot(lines: seq<Line>, slot: Slot)
    requires slot.Text? ==> !StartsWith(slot.text, PLACEHOLDER)
    ensures SlotOf(Filled(lines, slot)) == slot && (Filled(lines, slot).Other? ==> slot.Text?)
  {
  }

  lemma SlotText(slots: seq<Slot>, k: nat)
    requires k < |slots| && TextsUnmarked(slots)
    ensures slots[k].Text? ==> !StartsWith(slots[k].text, PLACEHOLDER)
  {
    assert slots[k] in slots;
  }

  lemma MergedIs(lines: seq<Line>)
    requires PlacesAre(Kept(lines), Modules(lines))
    ensures var kept := Kept(lines);
            Merged(lines) == Some(seq(|kept|, k requires 0 <= k < |kept| => Filled(lines, kept[k])))
  {
  }

  /** `out` fills the slots `kept` one by one. */
  ghost predicate Fills(out: seq<Line>, kept: seq<Slot>) {
    |out| == |kept| && forall k :: 0 <= k < |out| ==> SlotOf(out[k]) == kept[k] && (out[k].Other? ==> kept[k].Text?)
  }

  lemma FillsUnmarked(out: seq<Line>, kept: seq<Slot>)
    requires Fills(out, kept) && TextsUnmarked(kept)
    ensures Unmarked(out)
  {
    forall l | l in out && l.Other? ensures !StartsWith(l.text, PLACEHOLDER) {
      var k :| 0 <= k < |out| && out[k] == l;
      assert SlotOf(out[k]) == kept[k];
      assert kept[k] in kept;
    }
  }

  lemma FillsOnce(out: seq<Line>, kept: seq<Slot>, modules: set<string>)
    requires Fills(out, kept) && PlacesAre(kept, modules)
    ensures OneLineEach(out)
  {
    hide StartsWith;
    forall i, j | 0 <= i < j < |out| && !out[i].Other? && !out[j].Other?
      ensures out[i].mod != out[j].mod {
      assert SlotOf(out[i]) == kept[i] && SlotOf(out[j]) == kept[j];
    }
  }

  /** The merged file, line by line. */
  lemma MergedLines(lines: seq<Line>)
    requires Unmarked(lines)
    ensures Merged(lines).Some?
    ensures var out, kept := Merged(lines).value, Kept(lines);
            |out| == |kept| && Unmarked(out) && OneLineEach(out) &&
            forall k :: 0 <= k < |out| ==> SlotOf(out[k]) == kept[k] && out[k] == Filled(lines, kept[k])
  {
    KeptSlots(lines);
    MergedIs(lines);
    var out, kept := Merged(lines).value, Kept(lines);
    hide Merged, Kept, Filled, TextsUnmarked, PlacesAre, Modules, Unmarked, OneLineEach, SlotOf;
    forall k | 0 <= k < |out| ensures SlotOf(out[k]) == kept[k] && (out[k].Other? ==> kept[k].Text?) {
      SlotText(kept, k);
      FilledSlot(lines, kept[k]);
    }
    FillsUnmarked(out, kept);
    FillsOnce(out, kept, Modules(lines));
  }

  /** Where every module is on one line, the kept lines are all the lines. */
  lemma {:induction false} KeepsAll(lines: seq<Line>)
    requires Unmarked(lines) && OneLineEach(lines)
    ensures |Kept(lines)| == |lines| && forall k :: 0 <= k < |lines| ==> Kept(lines)[k] == SlotOf(lines[k])
  {
    if lines != [] {
      UnmarkedInit(lines);
      KeepsAll(lines[..|lines| - 1]);
    }
  }

  /** Merging leaves exactly one line for every imported module, at its first
      occurrence among the lines, and every other line, in order. */
  lemma MergeKeepsShape(lines: seq<Line>)
    requires Unmarked(lines)
    ensures Merged(lines).Some?
    ensures var out := Merged(lines).value;
            OneLineEach(out) && Modules(out) == Modules(lines) && Others(out) == Others(lines) &&
            Kept(out) == Kept(lines)
  {
    MergedLines(lines);
    KeptSlots(lines);
    var out := Merged(lines).value;
    KeepsAll(out);
    KeptSlots(out);
    assert Kept(out) == Kept(lines);
    forall m ensures m in Modules(out) <==> m in Modules(lines) {
      assert Place(m) in Kept(out) <==> Place(m) in Kept(lines);
    }
  }

  /** The line is no import, or the first import of its module. */
  predicate IsFirst(lines: seq<Line>, i: int) {
    0 <= i < |lines| &&
    (lines[i].Other? || forall j :: 0 <= j < i ==> lines[j].Other? || lines[j].mod != lines[i].mod)
  }

  /** `pos` are the places, in order, of the lines that are no import or the first
      of their module; `slots` stand for these lines. */
  ghost predicate StandFor(lines: seq<Line>, slots: seq<Slot>, pos: seq<int>) {
    |pos| == |slots| &&
    (forall k, l :: 0 <= k < l < |pos| ==> pos[k] < pos[l]) &&
    (forall k :: 0 <= k < |pos| ==> IsFirst(lines, pos[k]) && slots[k] == SlotOf(lines[pos[k]])) &&
    (forall i :: IsFirst(lines, i) ==> i in pos)
  }

  lemma FirstKept(init: seq<Line>, last: Line, i: int)
    ensures 0 <= i < |init| ==> (IsFirst(init + [last], i) <==> IsFirst(init, i))
    ensures IsFirst(init + [last], |init|) <==> last.Other? || last.mod !in Modules(init)
  {
    var lines := init + [last];
    assert forall j :: 0 <= j < |init| ==> lines[j] == init[j];
    if !last.Other? && last.mod in Modules(init) {
      var l :| l in init && !l.Other? && l.mod == last.mod;
      var j :| 0 <= j < |init| && init[j] == l;
    }
    if !last.Other? && last.mod !in Modules(init) {
      assert forall j :: 0 <= j < |init| ==> init[j] in init;
    }
  }

  lemma StandForMore(init: seq<Line>, last: Line, slots: seq<Slot>, pos: seq<int>)
    requires StandFor(init, slots, pos)
    ensures if last.Other? || last.mod !in Modules(init)
            then StandFor(init + [last], slots + [SlotOf(last)], pos + [|init|])
            else StandFor(init + [last], slots, pos)
  {
    var lines := init + [last];
    forall i ensures (0 <= i < |init| ==> (IsFirst(lines, i) <==> IsFirst(init, i))) &&
                     (IsFirst(lines, |init|) <==> last.Other? || last.mod !in Modules(init)) {
      FirstKept(init, last, i);
    }
    assert forall i :: IsFirst(lines, i) ==> 0 <= i <= |init|;
    assert forall k :: 0 <= k < |pos| ==>
      IsFirst(init, pos[k]) && 0 <= pos[k] < |init| && lines[pos[k]] == init[pos[k]];
    hide IsFirst, SlotOf;
  }

  lemma {:induction false} KeptStandFor(lines: seq<Line>) returns (pos: seq<int>)
    ensures StandFor(lines, Kept(lines), pos)
  {
    if lines == [] {
      pos := [];
    } else {
      var init, last := lines[..|lines| - 1], lines[|lines| - 1];
      var before := KeptStandFor(init);
      StandForMore(init, last, Kept(init), before);
      assert init + [last] == lines;
      pos := if last.Other? || last.mod !in Modules(init) then before + [|init|] else before;
      hide StandFor, SlotOf, Modules;
      assert Kept(init) + [] == Kept(init);
    }
  }

  /** The merged lines stand for the lines that are no import or the first import
      of their module, one for one and in their order. */
  lemma AtFirstOccurrence(lines: seq<Line>) returns (pos: seq<int>)
    requires Unmarked(lines)
    ensures Merged(lines).Some? && |pos| == |Merged(lines).value|
    ensures forall k, l :: 0 <= k < l < |pos| ==> pos[k] < pos[l]
    ensures forall i :: IsFirst(lines, i) <==> i in pos
    ensures forall k :: 0 <= k < |pos| ==>
              IsFirst(lines, pos[k]) && SlotOf(Merged(lines).value[k]) == SlotOf(lines[pos[k]])
  {
    pos := KeptStandFor(lines);
    MergedLines(lines);
    hide Merged, Kept, Unmarked, OneLineEach, Filled;
  }

  // ---------- the names ----------

  lemma {:induction false} NamesWritten(lines: seq<Line>, mod: string, types: bool, n: string)
    ensures n in Names(lines, mod, types) <==>
            exists l :: l in lines && !l.Other? && l.mod == mod && l.TypeImport? == types && n in l.names
  {
    if lines != [] {
      var init, last := lines[..|lines| - 1], lines[|lines| - 1];
      assert lines == init + [last];
      NamesWritten(init, mod, types, n);
    }
  }

  /** A file binds what the names written for its modules bind. */
  lemma FileBindsNames(lines: seq<Line>, b: Binding)
    ensures FileBinds(lines, b) <==>
            exists n, types: bool :: n in Names(lines, b.mod, types) && Bound(b.mod, n, types) == b
  {
    if FileBinds(lines, b) {
      var l :| l in lines && Binds(l, b);
      var n :| n in l.names && Bound(l.mod, n, l.TypeImport?) == b;
      NamesWritten(lines, b.mod, l.TypeImport?, n);
      assert n in Names(lines, b.mod, l.TypeImport?) && Bound(b.mod, n, l.TypeImport?) == b;
    }
    if n, types: bool :| n in Names(lines, b.mod, types) && Bound(b.mod, n, types) == b {
      NamesWritten(lines, b.mod, types, n);
      var l :| l in lines && !l.Other? && l.mod == b.mod && l.TypeImport? == types && n in l.names;
      assert Binds(l, b);
    }
  }

  lemma PrefixedBinds(mod: string, types: seq<string>, b: Binding)
    ensures (exists n :: n in TypePrefixed(types) && Bound(mod, n, false) == b) <==>
            (exists n :: n in types && Bound(mod, n, true) == b)
  {
    var prefixed := TypePrefixed(types);
    if n :| n in prefixed && Bound(mod, n, false) == b {
      var i :| 0 <= i < |types| && prefixed[i] == n;
      assert n[..|TYPE|] == TYPE && n[|TYPE|..] == types[i];
      assert types[i] in types && Bound(mod, types[i], true) == b;
    }
    if n :| n in types && Bound(mod, n, true) == b {
      var i :| 0 <= i < |types| && types[i] == n;
      assert prefixed[i] == TYPE + n && prefixed[i] in prefixed;
      assert prefixed[i][..|TYPE|] == TYPE && prefixed[i][|TYPE|..] == n;
      assert Bound(mod, prefixed[i], false) == b;
    }
  }

  predicate EntryBinds(mod: string, entry: Entry, b: Binding) {
    (exists n :: n in entry.typeNames && Bound(mod, n, true) == b) ||
    (exists n :: n in entry.valueNames && Bound(mod, n, false) == b)
  }

  lemma UniqueBinds(mod: string, entry: Entry, b: Binding)
    ensures EntryBinds(mod, entry, b) <==>
            EntryBinds(mod, Entry(Unique(entry.typeNames), Unique(entry.valueNames)), b)
  {
    UniqueKeeps(entry.typeNames);
    UniqueKeeps(entry.valueNames);
  }

  /** A rendered line binds exactly what its entry's names bind. */
  lemma RenderedBinds(mod: string, entry: Entry, b: Binding)
    ensures Binds(Rendered(mod, entry), b) <==> EntryBinds(mod, entry, b)
  {
    UniqueBinds(mod, entry, b);
    var types, values := Unique(entry.typeNames), Unique(entry.valueNames);
    var line := Rendered(mod, entry);
    hide Bound, Unique;
    if values != [] && types != [] {
      PrefixedBinds(mod, types, b);
      assert forall n :: n in line.names <==> n in values || n in TypePrefixed(types);
      assert Binds(line, b) <==> exists n :: n in line.names && Bound(mod, n, false) == b;
    }
  }

  /** A file's bindings for a module are those of the module's line, where it
      has only one. */
  lemma OnlyLineBinds(lines: seq<Line>, k: nat, b: Binding)
    requires OneLineEach(lines) && k < |lines| && !lines[k].Other? && lines[k].mod == b.mod
    ensures FileBinds(lines, b) <==> Binds(lines[k], b)
  {
    if FileBinds(lines, b) {
      var l :| l in lines && Binds(l, b);
      assert l.mod == b.mod;
      var j :| 0 <= j < |lines| && lines[j] == l;
      assert j == k;
    }
  }

  lemma EntryBindsFile(lines: seq<Line>, b: Binding)
    ensures FileBinds(lines, b) <==> EntryBinds(b.mod, EntryOf(lines, b.mod), b)
  {
    FileBindsNames(lines, b);
    hide Names, FileBinds, Bound;
    if n, types: bool :| n in Names(lines, b.mod, types) && Bound(b.mod, n, types) == b {
      if types {
        assert n in EntryOf(lines, b.mod).typeNames && Bound(b.mod, n, true) == b;
      } else {
        assert n in EntryOf(lines, b.mod).valueNames && Bound(b.mod, n, false) == b;
      }
    }
    if EntryBinds(b.mod, EntryOf(lines, b.mod), b) {
      assert exists n :: (n in Names(lines, b.mod, true) && Bound(b.mod, n, true) == b) ||
                         (n in Names(lines, b.mod, false) && Bound(b.mod, n, false) == b);
    }
  }

  /** Merging preserves meaning: the same names are bound, from the same
      modules, as types or as values. */
  lemma MergeKeepsBindings(lines: seq<Line>, b: Binding)
    requires Unmarked(lines)
    ensures Merged(lines).Some?
    ensures FileBinds(Merged(lines).value, b) <==> FileBinds(lines, b)
  {
    MergedLines(lines);
    MergeKeepsShape(lines);
    KeptSlots(lines);
    var out, kept := Merged(lines).value, Kept(lines);
    if b.mod in Modules(lines) {
      assert Place(b.mod) in kept;
      var k :| 0 <= k < |kept| && kept[k] == Place(b.mod);
      assert out[k] == Rendered(b.mod, EntryOf(lines, b.mod));
      assert !out[k].Other? && out[k].mod == b.mod;
      hide *;
      OnlyLineBinds(out, k, b);
      RenderedBinds(b.mod, EntryOf(lines, b.mod), b);
      EntryBindsFile(lines, b);
    } else {
      NotBound(lines, b);
      NotBound(out, b);
    }
  }

  lemma NotBound(lines: seq<Line>, b: Binding)
    requires b.mod !in Modules(lines)
    ensures !FileBinds(lines, b)
  {
  }

  // ---------- running the merger again ----------

  /** A name comes both from a type line and, marked inline, from a value line. */
  ghost predicate Clash(lines: seq<Line>, mod: string) {
    exists n :: n in Names(lines, mod, true) && TYPE + n in Names(lines, mod, false)
  }

  lemma {:induction false} NamesOnce(lines: seq<Line>, k: nat, types: bool)
    requires OneLineEach(lines) && k < |lines| && !lines[k].Other?
    ensures Names(lines, lines[k].mod, types) == if lines[k].TypeImport? == types then lines[k].names else []
  {
    var init, last := lines[..|lines| - 1], lines[|lines| - 1];
    if k == |init| {
      NoNames(init, lines[k].mod, types);
    } else {
      NamesOnce(init, k, types);
      assert init[k] == lines[k];
    }
  }

  /** Merging a file that has one line for each module rewrites each import
      line on its own. */
  lemma RemergedLine(lines: seq<Line>, k: nat)
    requires Unmarked(lines) && OneLineEach(lines) && k < |lines|
    ensures Merged(lines).Some? && |Merged(lines).value| == |lines|
    ensures Merged(lines).value[k] ==
            match lines[k]
            case Other(_) => lines[k]
            case TypeImport(names, mod) => TypeImport(Unique(names), mod)
            case ValueImport(names, mod) => if names == [] then TypeImport([], mod) else ValueImport(Unique(names), mod)
  {
    MergedLines(lines);
    KeepsAll(lines);
    if lines[k].Other? {
      assert lines[k] in lines;
    } else {
      NamesOnce(lines, k, true);
      NamesOnce(lines, k, false);
      if !lines[k].Other? && lines[k].names != [] {
        UniqueKeeps(lines[k].names);
        assert lines[k].names[0] in Unique(lines[k].names);
      }
    }
  }

  /** A rendered line names something twice exactly in case of a clash. */
  lemma RenderedRepeats(mod: string, entry: Entry)
    ensures Rendered(mod, entry) != ValueImport([], mod)
    ensures NoRepeats(Rendered(mod, entry).names) <==>
            !exists n :: n in entry.typeNames && TYPE + n in entry.valueNames
  {
    var types, values := Unique(entry.typeNames), Unique(entry.valueNames);
    UniqueKeeps(entry.typeNames);
    UniqueKeeps(entry.valueNames);
    if values != [] && types != [] {
      ClashRepeats(types, values);
    }
  }

  lemma ClashRepeats(types: seq<string>, values: seq<string>)
    requires NoRepeats(types) && NoRepeats(values)
    ensures NoRepeats(values + TypePrefixed(types)) <==> !exists n :: n in types && TYPE + n in values
  {
    var names := values + TypePrefixed(types);
    if n :| n in types && TYPE + n in values {
      var i :| 0 <= i < |types| && types[i] == n;
      var j :| 0 <= j < |values| && values[j] == TYPE + n;
      assert names[j] == names[|values| + i];
    } else {
      forall i, j | 0 <= i < j < |names| ensures names[i] != names[j] {
        if i < |values| <= j {
          assert types[j - |values|] in types;
          assert values[i] in values;
        } else if |values| <= i {
          assert names[i][|TYPE|..] == types[i - |values|] && names[j][|TYPE|..] == types[j - |values|];
        }
      }
    }
  }

  /** A second run changes nothing, unless some name came both from a type line
      and from an inline `type` of the same module; then it always does. */
  lemma SecondRun(lines: seq<Line>)
    requires Unmarked(lines)
    ensures Merged(lines).Some?
    ensures Merged(Merged(lines).value) == Merged(lines) <==> forall m :: m in Modules(lines) ==> !Clash(lines, m)
  {
    MergedLines(lines);
    KeptSlots(lines);
    var out, kept := Merged(lines).value, Kept(lines);
    forall k | 0 <= k < |out|
      ensures Merged(out).Some? && |Merged(out).value| == |out|
      ensures Merged(out).value[k] == out[k] <==> (kept[k].Place? ==> !Clash(lines, kept[k].mod)) {
      RemergedLine(out, k);
      assert out[k] == Filled(lines, kept[k]);
      if kept[k].Place? {
        RenderedRepeats(kept[k].mod, EntryOf(lines, kept[k].mod));
        UniqueKeeps(out[k].names);
      }
    }
    if forall m :: m in Modules(lines) ==> !Clash(lines, m) {
      forall k | 0 <= k < |out| ensures Merged(out).value[k] == out[k] {
        assert kept[k] in kept;
      }
      assert Merged(out).value == out;
    } else {
      var m :| m in Modules(lines) && Clash(lines, m);
      assert Place(m) in kept;
    }
  }

  /** A third run never changes anything. */
  lemma ThirdRun(lines: seq<Line>)
    requires Unmarked(lines)
    ensures Merged(lines).Some? && Merged(Merged(lines).value).Some?
    ensures var twice := Merged(Merged(lines).value).value;
            Merged(twice) == Some(twice)
  {
    MergedLines(lines);
    var out := Merged(lines).value;
    MergedLines(out);
    SecondRun(out);
    forall m | m in Modules(out) ensures !Clash(out, m) {
      var l :| l in out && !l.Other? && l.mod == m;
      var k :| 0 <= k < |out| && out[k] == l;
      NamesOnce(out, k, true);
      NamesOnce(out, k, false);
    }
  }

  /** For example: `import type { A }` beside `import { type A }`. The first run
      names A twice, the second once. */
  lemma ClashExample()
    ensures var lines := [TypeImport(["A"], "m"), ValueImport([TYPE + "A"], "m")];
            Merged(lines).Some? && Merged(Merged(lines).value) != Merged(lines)
  {
    var type', value := TypeImport(["A"], "m"), ValueImport([TYPE + "A"], "m");
    var lines := [type', value];
    assert Clash(lines, "m") by {
      NamesWritten(lines, "m", true, "A");
      NamesWritten(lines, "m", false, TYPE + "A");
      assert type' in lines && "A" in type'.names;
      assert value in lines && TYPE + "A" in value.names;
    }
    assert type' in lines;
    hide Merged, Clash;
    SecondRun(lines);
  }
}
