/** The download cache: finished folders on disk and a persisted list of their
    names, most recently used first, from which old folders are evicted. */
module DownloadCache {
  import opened Sequences

  type Name = string

  const KEEP_LRU := 5
  const RENAME_ATTEMPTS := 20

  // ---------- lists of names ----------

  function Without(l: seq<Name>, name: Name): seq<Name> {
    if l == [] then []
    else if l[0] == name then Without(l[1..], name)
    else [l[0]] + Without(l[1..], name)
  }

  predicate NoDuplicates(l: seq<Name>) {
    forall i, j :: 0 <= i < j < |l| ==> l[i] != l[j]
  }

  lemma {:induction false} WithoutMembers(l: seq<Name>, name: Name)
    ensures forall n :: n in Without(l, name) <==> n in l && n != name
    ensures |Without(l, name)| <= |l|
    ensures NoDuplicates(l) ==> NoDuplicates(Without(l, name))
  {
    if l != [] {
      WithoutMembers(l[1..], name);
      assert forall n :: n in l <==> n == l[0] || n in l[1..];
      if NoDuplicates(l) {
        assert forall i :: 0 <= i < |l[1..]| ==> l[1..][i] == l[i + 1];
        assert l[0] !in l[1..];
      }
    }
  }

  lemma {:induction false} WithoutAbsent(l: seq<Name>, name: Name)
    requires name !in l
    ensures Without(l, name) == l
  {
    if l != [] {
      WithoutAbsent(l[1..], name);
    }
  }

  lemma {:induction false} WithoutConcat(a: seq<Name>, b: seq<Name>, name: Name)
    ensures Without(a + b, name) == Without(a, name) + Without(b, name)
  {
    if a == [] {
      assert a + b == b;
    } else {
      assert (a + b)[1..] == a[1..] + b;
      WithoutConcat(a[1..], b, name);
    }
  }

  lemma {:induction false} WithoutShrinks(l: seq<Name>, name: Name)
    requires NoDuplicates(l) && name in l
    ensures |Without(l, name)| == |l| - 1
  {
    if l[0] == name {
      assert forall i :: 0 <= i < |l[1..]| ==> l[1..][i] == l[i + 1];
      WithoutAbsent(l[1..], name);
    } else {
      assert forall i :: 0 <= i < |l[1..]| ==> l[1..][i] == l[i + 1];
      WithoutShrinks(l[1..], name);
    }
  }

  // ---------- touching, as a function ----------

  /** The list with `name` moved to the front. */
  function Moved(l: seq<Name>, name: Name): seq<Name> {
    [name] + Without(l, name)
  }

  /** At most one name, the last, is evicted, and only if its folder is gone. */
  function Touched(l: seq<Name>, name: Name, gone: bool): seq<Name> {
    var m := Moved(l, name);
    if |m| <= KEEP_LRU || !gone then m else m[..|m| - 1]
  }

  method MoveToFront(l: seq<Name>, name: Name) returns (m: seq<Name>)
    requires NoDuplicates(l)
    ensures m == Moved(l, name)
  {
    m := l;
    var index := 0;
    while index < |l| && l[index] != name
      invariant 0 <= index <= |l|
      invariant forall i :: 0 <= i < index ==> l[i] != name
    {
      index := index + 1;
    }
    if index < |l| {
      RemoveAt(l, index, name);
      m := l[..index] + l[index + 1..];
    } else {
      WithoutAbsent(l, name);
    }
    m := [name] + m;
  }

  method Retain(l: seq<Name>, name: Name) returns (kept: seq<Name>)
    ensures kept == Without(l, name)
  {
    kept := [];
    for i := 0 to |l|
      invariant kept == Without(l[..i], name)
    {
      WithoutConcat(l[..i], [l[i]], name);
      assert l[..i + 1] == l[..i] + [l[i]];
      if l[i] != name {
        kept := kept + [l[i]];
      }
    }
    assert l[..|l|] == l;
  }

  // ---------- the cache ----------

  /** What may go wrong during one operation: folders that cannot be removed,
      renames that fail before one works, and the write of the list. */
  datatype Trouble = Trouble(stuck: set<Name>, failedRenames: nat, writeFails: bool)

  /** The name at the end of the list once `name` is moved to the front. */
  function Oldest(l: seq<Name>, name: Name): Name {
    var m := Moved(l, name);
    m[|m| - 1]
  }

  /** Whether the oldest folder does not exist, or can be removed. */
  predicate Evicts(l: seq<Name>, name: Name, folders: set<Name>, trouble: Trouble) {
    Oldest(l, name) !in folders || Oldest(l, name) !in trouble.stuck
  }

  function FoldersLeft(l: seq<Name>, name: Name, folders: set<Name>, trouble: Trouble): set<Name> {
    if |Moved(l, name)| > KEEP_LRU && Evicts(l, name, folders, trouble) then folders - {Oldest(l, name)} else folders
  }

  /** Touching keeps every folder listed, every name unique, and spares `name`. */
  lemma TouchTracks(l: seq<Name>, name: Name, folders: set<Name>, trouble: Trouble)
    requires NoDuplicates(l) && forall f :: f in folders ==> f in l
    ensures var l' := Touched(l, name, Evicts(l, name, folders, trouble));
            var folders' := FoldersLeft(l, name, folders, trouble);
            NoDuplicates(l') && l'[0] == name && (name in folders ==> name in folders') &&
            forall f :: f in folders' ==> f in l'
  {
    var m := Moved(l, name);
    MovedMembers(l, name);
    DropLast(m);
    hide Moved, NoDuplicates;
  }

  lemma MovedMembers(l: seq<Name>, name: Name)
    requires NoDuplicates(l)
    ensures var m := Moved(l, name);
            m != [] && m[0] == name && NoDuplicates(m) && forall n :: n in m <==> n in l || n == name
  {
    WithoutMembers(l, name);
    var m := Moved(l, name);
    assert forall i :: 1 <= i < |m| ==> m[i] == Without(l, name)[i - 1] && m[i] in Without(l, name);
    hide Without;
  }

  lemma DropLast(m: seq<Name>)
    requires m != [] && NoDuplicates(m)
    ensures NoDuplicates(m[..|m| - 1]) && forall n :: n in m[..|m| - 1] <==> n in m && n != m[|m| - 1]
  {
    assert forall n :: n in m <==> n == m[|m| - 1] || n in m[..|m| - 1];
  }

  datatype Outcome = Fine(path: Name) | Error

  // ---------- what the operations do, as functions ----------

  /** The names a cache goes by, and its finished folders. */
  datatype Holding = Holding(names: seq<Name>, folders: set<Name>)

  predicate IsTracked(c: Holding) {
    NoDuplicates(c.names) && forall f :: f in c.folders ==> f in c.names
  }

  function AfterTouching(c: Holding, name: Name, trouble: Trouble): Holding {
    Holding(Touched(c.names, name, Evicts(c.names, name, c.folders, trouble)),
            FoldersLeft(c.names, name, c.folders, trouble))
  }

  function AfterExists(c: Holding, name: Name, trouble: Trouble): Holding {
    if name in c.folders then AfterTouching(c, name, trouble) else c
  }

  function AfterDelete(c: Holding, name: Name, trouble: Trouble): Holding {
    if name in c.folders && name in trouble.stuck then c
    else Holding(Without(c.names, name), c.folders - {name})
  }

  function AfterCreate(c: Holding, name: Name, built: bool, trouble: Trouble): Holding {
    if name in c.folders || !built then c
    else
      var touched := AfterTouching(c, name, trouble);
      if trouble.failedRenames <= RENAME_ATTEMPTS then touched.(folders := touched.folders + {name}) else touched
  }

  /** No folder comes, and none goes that stays listed. */
  predicate KeepsListed(c: Holding, c': Holding) {
    c'.folders <= c.folders && forall f :: f in c.folders && f in c'.names ==> f in c'.folders
  }

  lemma TouchingKeeps(c: Holding, name: Name, trouble: Trouble)
    requires IsTracked(c)
    ensures KeepsListed(c, AfterTouching(c, name, trouble))
    ensures |Moved(c.names, name)| <= 5 ==> AfterTouching(c, name, trouble).folders == c.folders
  {
    MovedMembers(c.names, name);
    DropLast(Moved(c.names, name));
    hide Moved, NoDuplicates;
  }

  lemma TouchingTracks(c: Holding, name: Name, trouble: Trouble)
    requires IsTracked(c)
    ensures var c' := AfterTouching(c, name, trouble);
            IsTracked(c') && c'.names != [] && c'.names[0] == name && (name in c.folders ==> name in c'.folders)
  {
    TouchTracks(c.names, name, c.folders, trouble);
  }

  lemma DeletingTracks(c: Holding, name: Name, trouble: Trouble)
    requires IsTracked(c)
    ensures IsTracked(AfterDelete(c, name, trouble))
  {
    WithoutMembers(c.names, name);
  }

  class Cache {
    var list: Option<seq<Name>>  // the list in memory, once it is loaded
    var stored: seq<Name>        // the list on disk
    var folders: set<Name>       // finished folders on disk

    constructor (stored: seq<Name>, folders: set<Name>)
      ensures list == None && State() == Holding(stored, folders)
    {
      list := None;
      this.stored := stored;
      this.folders := folders;
    }

    /** The list the cache goes by. */
    function Names(): seq<Name>
      reads this
    {
      if list.Some? then list.value else stored
    }

    function State(): Holding
      reads this
    {
      Holding(Names(), folders)
    }

    /** No finished folder escapes eviction, and no name is listed twice. */
    predicate Tracked()
      reads this
    {
      IsTracked(State())
    }

    /** Loads the list on first use. */
    method Load() returns (l: seq<Name>)
      modifies this`list
      ensures list == Some(l) && l == old(Names())
    {
      if list.None? {
        list := Some(stored);
      }
      l := list.value;
    }

    /** The new list counts from now on, even when writing it fails. */
    method Save(l: seq<Name>, trouble: Trouble) returns (ok: bool)
      modifies this`list, this`stored
      ensures list == Some(l) && ok == !trouble.writeFails
      ensures ok ==> stored == l
    {
      list := Some(l);
      ok := !trouble.writeFails;
      if ok {
        stored := l;
      }
    }

    method RemoveFolder(name: Name, trouble: Trouble) returns (ok: bool)
      modifies this`folders
      ensures ok == (name !in trouble.stuck)
      ensures folders == if ok then old(folders) - {name} else old(folders)
    {
      ok := name !in trouble.stuck;
      if ok {
        folders := folders - {name};
      }
    }

    method Touch(name: Name, trouble: Trouble) returns (ok: bool)
      requires Tracked()
      modifies this
      ensures ok == !trouble.writeFails
      ensures State() == AfterTouching(old(State()), name, trouble)
      ensures Tracked() && Names() != [] && name == Names()[0] && (name in old(folders) ==> name in folders)
      ensures KeepsListed(old(State()), State())
    {
      TouchingTracks(State(), name, trouble);
      TouchingKeeps(State(), name, trouble);
      var l := Load();
      l := MoveToFront(l, name);
      if |l| > KEEP_LRU {
        var f := l[|l| - 1];
        var gone := f !in folders;
        if gone {
          assert folders - {f} == folders;
        } else {
          gone := RemoveFolder(f, trouble);
        }
        if gone {
          l := l[..|l| - 1];
        }
      }
      ok := Save(l, trouble);
    }

    /** Whether the folder exists; if so it is now the most recently used. */
    method Exists(name: Name, trouble: Trouble) returns (found: bool)
      requires Tracked()
      modifies this
      ensures State() == AfterExists(old(State()), name, trouble)
      ensures Tracked() && found == (name in old(folders))
      ensures found ==> name in folders && Names() != [] && name == Names()[0]
      ensures KeepsListed(old(State()), State())
    {
      if name !in folders {
        return false;
      }
      var _ := Touch(name, trouble);
      found := true;
    }

    method Delete(name: Name, trouble: Trouble) returns (ok: bool)
      requires Tracked()
      modifies this
      ensures State() == AfterDelete(old(State()), name, trouble)
      ensures ok <==> !(name in old(folders) && name in trouble.stuck) && !trouble.writeFails
      ensures Tracked() && (ok ==> name !in folders && name !in Names())
      ensures forall f :: f != name ==> (f in folders <==> f in old(folders))
    {
      DeletingTracks(State(), name, trouble);
      if name in folders {
        var removed := RemoveFolder(name, trouble);
        if !removed {
          return false;
        }
      }
      assert folders == old(folders) - {name};
      var l := Load();
      WithoutMembers(l, name);
      l := Retain(l, name);
      ok := Save(l, trouble);
    }

    /** Creates the folder unless it is there; `built` says whether the caller's
        part worked. The name is listed before the folder appears. */
    method Create(name: Name, built: bool, trouble: Trouble) returns (r: Outcome)
      requires Tracked()
      modifies this
      ensures State() == AfterCreate(old(State()), name, built, trouble)
      ensures Tracked()
      ensures r.Fine? ==> r.path == name && name in folders
      ensures r.Fine? <==> name in old(folders) || (built && trouble.failedRenames <= 20)
      ensures KeepsListed(old(State()), State().(folders := folders - ({name} - old(folders))))
    {
      if name in folders {
        return Fine(name);
      }
      if !built {
        return Error;
      }
      var _ := Touch(name, trouble);
      ghost var touched := State();
      hide NoDuplicates, AfterTouching;
      for attempt := 0 to RENAME_ATTEMPTS + 1
        invariant State() == touched && Tracked() && name in Names()
        invariant attempt <= trouble.failedRenames && attempt <= RENAME_ATTEMPTS
      {
        if attempt >= trouble.failedRenames {
          folders := folders + {name};
          return Fine(name);
        } else if attempt == RENAME_ATTEMPTS {
          return Error;
        }
      }
      r := Error;
    }
  }

  lemma {:induction false} RemoveAt(l: seq<Name>, index: nat, name: Name)
    requires NoDuplicates(l) && index < |l| && l[index] == name
    ensures Without(l, name) == l[..index] + l[index + 1..]
  {
    assert l == l[..index] + ([name] + l[index + 1..]);
    WithoutConcat(l[..index], [name] + l[index + 1..], name);
    WithoutConcat([name], l[index + 1..], name);
    assert name !in l[..index] && name !in l[index + 1..];
    WithoutAbsent(l[..index], name);
    WithoutAbsent(l[index + 1..], name);
    assert Without([name], name) == [];
  }

  // ---------- the list against the history ----------

  /** `gone` tells whether the folder to be evicted by a touch, if there is one,
      did not exist or could be removed. */
  datatype Use = Touch(name: Name, gone: bool) | Delete(name: Name)

  function Used(l: seq<Name>, use: Use): seq<Name> {
    match use
    case Touch(name, gone) => Touched(l, name, gone)
    case Delete(name) => Without(l, name)
  }

  /** The list after a history of touches and deletions. */
  function ListAfter(history: seq<Use>): seq<Name> {
    if history == [] then [] else Used(ListAfter(history[..|history| - 1]), history[|history| - 1])
  }

  /** When a name was last touched; 0 when it never was. */
  function LastTouch(history: seq<Use>, name: Name): nat {
    if history == [] then 0
    else if history[|history| - 1].Touch? && history[|history| - 1].name == name then |history|
    else LastTouch(history[..|history| - 1], name)
  }

  ghost predicate AllTouched(l: seq<Name>, history: seq<Use>) {
    forall n :: n in l ==> LastTouch(history, n) > 0
  }

  /** Every name in `l` was touched after `n`. */
  ghost predicate AllNewer(l: seq<Name>, history: seq<Use>, n: Name) {
    forall k :: k in l ==> LastTouch(history, k) > LastTouch(history, n)
  }

  /** `l` is in strict order of most recent touch. */
  ghost predicate MostRecentFirst(l: seq<Name>, history: seq<Use>) {
    forall i, j :: 0 <= i < j < |l| ==> LastTouch(history, l[i]) > LastTouch(history, l[j])
  }

  lemma {:induction false} WithoutKeepsOrder(l: seq<Name>, name: Name, history: seq<Use>)
    requires MostRecentFirst(l, history)
    ensures MostRecentFirst(Without(l, name), history)
  {
    if l != [] {
      assert forall i :: 0 <= i < |l[1..]| ==> l[1..][i] == l[i + 1];
      WithoutKeepsOrder(l[1..], name, history);
      WithoutMembers(l[1..], name);
      forall n | n in Without(l[1..], name) ensures LastTouch(history, l[0]) > LastTouch(history, n) {
        var i :| 0 <= i < |l[1..]| && l[1..][i] == n;
        assert l[i + 1] == n;
      }
    }
  }

  /** After any history the list is in order of recency, without duplicates, and
      names only touched folders. */
  lemma {:induction false} ListIsRecent(history: seq<Use>)
    ensures var l := ListAfter(history);
            MostRecentFirst(l, history) && NoDuplicates(l) && AllTouched(l, history)
    decreases |history|
  {
    if history != [] {
      var before, use := history[..|history| - 1], history[|history| - 1];
      ListIsRecent(before);
      WithoutMembers(ListAfter(before), use.name);
      WithoutKeepsOrder(ListAfter(before), use.name, before);
      LastTouchBounds(before);
      RecentStep(history, Without(ListAfter(before), use.name));
    }
  }

  lemma RecentStep(history: seq<Use>, rest: seq<Name>)
    requires history != []
    requires var before, use := history[..|history| - 1], history[|history| - 1];
             MostRecentFirst(rest, before) && NoDuplicates(rest) && use.name !in rest &&
             forall n :: (n in rest ==> LastTouch(before, n) > 0) && LastTouch(before, n) <= |before|
    ensures MostRecentFirst(rest, history) && forall n :: n in rest ==> LastTouch(history, n) > 0
    ensures history[|history| - 1].Touch? ==>
              var m := [history[|history| - 1].name] + rest;
              MostRecentFirst(m, history) && NoDuplicates(m) && forall n :: n in m ==> LastTouch(history, n) > 0
  {
    var before, use := history[..|history| - 1], history[|history| - 1];
    forall n | n in rest ensures LastTouch(history, n) == LastTouch(before, n) {
    }
    var m := [use.name] + rest;
    assert forall i :: 1 <= i < |m| ==> m[i] == rest[i - 1] && m[i] in rest;
    hide LastTouch;
    assert use.Touch? ==> LastTouch(history, use.name) == |history| by {
      TouchedNow(history);
    }
  }

  lemma TouchedNow(history: seq<Use>)
    requires history != []
    ensures history[|history| - 1].Touch? ==> LastTouch(history, history[|history| - 1].name) == |history|
  {
  }

  lemma {:induction false} LastTouchBounds(history: seq<Use>)
    ensures forall n :: LastTouch(history, n) <= |history|
  {
    forall n ensures LastTouch(history, n) <= |history| {
      LastTouchBound(history, n);
    }
  }

  lemma {:induction false} LastTouchBound(history: seq<Use>, n: Name)
    ensures LastTouch(history, n) <= |history|
  {
    if history != [] {
      LastTouchBound(history[..|history| - 1], n);
    }
  }

  /** `n` is in the list, or at least five names in it were touched after it. */
  ghost predicate Ranked(l: seq<Name>, history: seq<Use>, n: Name) {
    n in l || (|l| >= KEEP_LRU && AllNewer(l, history, n))
  }

  lemma AfterTouch(history: seq<Use>)
    requires history != [] && history[|history| - 1].Touch?
    ensures var use := history[|history| - 1];
            var m := Moved(ListAfter(history[..|history| - 1]), use.name);
            ListAfter(history) == if |m| <= KEEP_LRU || !use.gone then m else m[..|m| - 1]
  {
  }

  predicate OnlyTouches(history: seq<Use>) {
    forall i :: 0 <= i < |history| ==> history[i].Touch?
  }

  lemma TouchedBefore(history: seq<Use>, n: Name)
    requires history != [] && OnlyTouches(history)
    ensures OnlyTouches(history[..|history| - 1]) && history[|history| - 1].Touch?
    ensures n != history[|history| - 1].name ==> LastTouch(history, n) == LastTouch(history[..|history| - 1], n)
  {
  }

  lemma RankedStep(history: seq<Use>, n: Name)
    requires history != [] && history[|history| - 1].Touch?
    requires var before, use := history[..|history| - 1], history[|history| - 1];
             n != use.name ==> Ranked(ListAfter(before), before, n)
    ensures Ranked(ListAfter(history), history, n)
  {
    var before, use := history[..|history| - 1], history[|history| - 1];
    var l := ListAfter(before);
    hide *;
    ListIsRecent(before);
    MovedIsRecent(history, l, use.name);
    if n != use.name {
      Overtaken(history, l, use.name, n);
    }
    AfterTouch(history);
    RankedShort(history, Moved(l, use.name), n, use.gone);
  }

  /** Without deletions the list begins with the five most recently touched
      names: every name touched is listed or has five more recent ones listed. */
  lemma {:induction false} ListIsMostRecent(history: seq<Use>, n: Name)
    requires OnlyTouches(history) && LastTouch(history, n) > 0
    ensures Ranked(ListAfter(history), history, n)
    decreases |history|
  {
    assert history != [];
    TouchedBefore(history, n);
    hide *;
    if n != history[|history| - 1].name {
      ListIsMostRecent(history[..|history| - 1], n);
    }
    RankedStep(history, n);
  }

  lemma MovedIsRecent(history: seq<Use>, l: seq<Name>, name: Name)
    requires history != [] && history[|history| - 1].Touch? && history[|history| - 1].name == name
    requires NoDuplicates(l) && MostRecentFirst(l, history[..|history| - 1])
    requires AllTouched(l, history[..|history| - 1])
    ensures var m := Moved(l, name);
            MostRecentFirst(m, history) && name in m && |m| == |l| + if name in l then 0 else 1
  {
    WithoutMembers(l, name);
    WithoutKeepsOrder(l, name, history[..|history| - 1]);
    LastTouchBounds(history[..|history| - 1]);
    RecentStep(history, Without(l, name));
    MovedLength(l, name);
    assert Moved(l, name)[0] == name;
    hide MostRecentFirst, Without, LastTouch;
  }

  lemma MovedLength(l: seq<Name>, name: Name)
    requires NoDuplicates(l)
    ensures |Moved(l, name)| == |l| + if name in l then 0 else 1
  {
    if name in l {
      WithoutShrinks(l, name);
    } else {
      WithoutAbsent(l, name);
    }
  }

  /** Either `n` stays in the moved list, or everything there is more recent. */
  lemma Overtaken(history: seq<Use>, l: seq<Name>, name: Name, n: Name)
    requires history != [] && history[|history| - 1].Touch? && history[|history| - 1].name == name && n != name
    requires NoDuplicates(l) && Ranked(l, history[..|history| - 1], n)
    ensures var m := Moved(l, name);
            n in m || (|l| >= KEEP_LRU && AllNewer(m, history, n))
  {
    var before := history[..|history| - 1];
    MovedMembers(l, name);
    if n !in l {
      TouchedNow(history);
      LastTouchBound(before, n);
      forall k | k in Moved(l, name) ensures LastTouch(history, k) > LastTouch(history, n) {
        if k != name {
          var i :| 0 <= i < |l| && l[i] == k;
        }
      }
    }
  }

  lemma RankedShort(history: seq<Use>, m: seq<Name>, n: Name, gone: bool)
    requires MostRecentFirst(m, history)
    requires n in m || (|m| >= KEEP_LRU && AllNewer(m, history, n))
    ensures Ranked(if |m| <= KEEP_LRU || !gone then m else m[..|m| - 1], history, n)
  {
    if |m| > KEEP_LRU && gone {
      var short, last := m[..|m| - 1], m[|m| - 1];
      hide LastTouch;
      assert m == short + [last];
      if n == last {
        assert forall i :: 0 <= i < |short| ==> short[i] == m[i];
      }
    }
  }

  // ---------- how long the list gets ----------

  /** A touch leaves more than five names exactly when there were more than five
      with the touched one, and none was evicted or one was not enough. */
  lemma TouchOverfills(l: seq<Name>, name: Name, gone: bool)
    ensures |Touched(l, name, gone)| > 5 <==>
            |Moved(l, name)| > 5 && (!gone || |Moved(l, name)| > 6)
  {
  }

  /** A sixth name drives the least recent of five out. */
  lemma FiveListed()
    ensures Touched(["b", "c", "d", "e"], "a", true) == ["a", "b", "c", "d", "e"]
    ensures Touched(["a", "b", "c", "d", "e"], "f", true) == ["f", "a", "b", "c", "d"]
  {
    WithoutAbsent(["b", "c", "d", "e"], "a");
    WithoutAbsent(["a", "b", "c", "d", "e"], "f");
    assert ["f"] + ["a", "b", "c", "d", "e"] == ["f", "a", "b", "c", "d", "e"];
  }

  /** Six names, after a touch whose eviction failed. */
  lemma SixListed()
    ensures Touched(["a", "b", "c", "d", "e"], "f", false) == ["f", "a", "b", "c", "d", "e"]
    ensures |Touched(["a", "b", "c", "d", "e"], "f", false)| == 6
  {
    WithoutAbsent(["a", "b", "c", "d", "e"], "f");
  }

  /** The last use was a touch that had to evict a folder and could not. */
  predicate Stuck(history: seq<Use>) {
    history != [] && history[|history| - 1].Touch? && !history[|history| - 1].gone &&
    |Moved(ListAfter(history[..|history| - 1]), history[|history| - 1].name)| > KEEP_LRU
  }

  /** The last use took the list from six names to five: it deleted one of them,
      or touched one while the last could be evicted. */
  predicate ShrinksBack(history: seq<Use>) {
    history != [] &&
    var l, use := ListAfter(history[..|history| - 1]), history[|history| - 1];
    |l| == KEEP_LRU + 1 && use.name in l && (use.Touch? ==> use.gone)
  }

  predicate Overfull(history: seq<Use>) {
    |ListAfter(history)| > KEEP_LRU
  }

  /** An eviction failed after `k` uses, and none of the uses since shrank the
      list back to five. */
  predicate StuckSince(history: seq<Use>, k: nat) {
    k <= |history| && Stuck(history[..k]) && forall j :: k < j <= |history| ==> !ShrinksBack(history[..j])
  }

  /** One use leaves too many names exactly if its own eviction failed, or there
      were too many before and it did not shrink them back. */
  lemma OverfullStep(history: seq<Use>)
    requires history != []
    ensures Overfull(history) <==>
            Stuck(history) || (Overfull(history[..|history| - 1]) && !ShrinksBack(history))
  {
    var l, use := ListAfter(history[..|history| - 1]), history[|history| - 1];
    ListIsRecent(history[..|history| - 1]);
    MovedLength(l, use.name);
    if use.name in l {
      WithoutShrinks(l, use.name);
    } else {
      WithoutAbsent(l, use.name);
    }
    hide NoDuplicates, MostRecentFirst, LastTouch, Without, AllTouched;
  }

  lemma NothingListed()
    ensures !Overfull([]) && !Stuck([])
  {
  }

  lemma StuckSinceStep(history: seq<Use>, k: nat)
    requires history != []
    ensures StuckSince(history, k) <==>
            (k == |history| && Stuck(history)) ||
            (k < |history| && StuckSince(history[..|history| - 1], k) && !ShrinksBack(history))
  {
    hide Stuck, ShrinksBack;
    var n := |history| - 1;
    assert history[..|history|] == history;
    assert k <= n ==> history[..n][..k] == history[..k];
    assert forall j :: 0 <= j <= n ==> history[..n][..j] == history[..j];
  }

  /** The list is too long exactly when an eviction failed and the list was not
      shrunk back by any use since. */
  lemma {:induction false} OverfullExactly(history: seq<Use>)
    ensures Overfull(history) <==> exists k: nat :: StuckSince(history, k)
    decreases |history|
  {
    if history == [] {
      NothingListed();
    } else {
      hide Overfull, Stuck, ShrinksBack, StuckSince;
      var before := history[..|history| - 1];
      OverfullStep(history);
      OverfullExactly(before);
      forall k: nat ensures StuckSince(history, k) <==>
                            (k == |history| && Stuck(history)) ||
                            (k < |history| && StuckSince(before, k) && !ShrinksBack(history)) {
        StuckSinceStep(history, k);
      }
      if k: nat :| StuckSince(before, k) {
        WithinHistory(before, k);
      }
      if Stuck(history) {
        assert StuckSince(history, |history|);
      }
    }
  }

  lemma WithinHistory(history: seq<Use>, k: nat)
    requires StuckSince(history, k)
    ensures k <= |history|
  {
  }

  /** In particular five names are never exceeded while all evictions succeed. */
  lemma AtMostFive(history: seq<Use>)
    requires forall i :: 0 <= i < |history| && history[i].Touch? ==> history[i].gone
    ensures |ListAfter(history)| <= 5
  {
    OverfullExactly(history);
    if k: nat :| StuckSince(history, k) {
      StuckUse(history, k);
      assert false;
    }
  }

  lemma StuckUse(history: seq<Use>, k: nat)
    requires StuckSince(history, k)
    ensures 0 < k <= |history| && history[k - 1].Touch? && !history[k - 1].gone
  {
    hide ListAfter, ShrinksBack;
  }

  // ---------- whole runs of a cache ----------

  datatype Op =
    | Exists(name: Name, trouble: Trouble)
    | Create(name: Name, built: bool, trouble: Trouble)
    | Remove(name: Name, trouble: Trouble)

  function StepOf(c: Holding, op: Op): Holding {
    match op
    case Exists(name, trouble) => AfterExists(c, name, trouble)
    case Create(name, built, trouble) => AfterCreate(c, name, built, trouble)
    case Remove(name, trouble) => AfterDelete(c, name, trouble)
  }

  /** The use an operation makes of the list, if it makes one. */
  function UseOf(c: Holding, op: Op): seq<Use> {
    var gone := Evicts(c.names, op.name, c.folders, op.trouble);
    match op
    case Exists(name, _) => if name in c.folders then [Touch(name, gone)] else []
    case Create(name, built, _) => if name in c.folders || !built then [] else [Touch(name, gone)]
    case Remove(name, trouble) => if name in c.folders && name in trouble.stuck then [] else [Use.Delete(name)]
  }

  /** A new cache after a list of operations. */
  function RunOf(ops: seq<Op>): Holding {
    if ops == [] then Holding([], {}) else StepOf(RunOf(ops[..|ops| - 1]), ops[|ops| - 1])
  }

  function HistoryOf(ops: seq<Op>): seq<Use> {
    if ops == [] then []
    else HistoryOf(ops[..|ops| - 1]) + UseOf(RunOf(ops[..|ops| - 1]), ops[|ops| - 1])
  }

  lemma ListSnoc(history: seq<Use>, use: Use)
    ensures ListAfter(history + [use]) == Used(ListAfter(history), use)
  {
    assert (history + [use])[..|history|] == history;
  }

  /** After any operations, with whatever trouble, the cache's list is the one its
      uses lead to, and every finished folder is in it. */
  lemma {:induction false} RunIsHistory(ops: seq<Op>)
    ensures RunOf(ops).names == ListAfter(HistoryOf(ops))
    ensures IsTracked(RunOf(ops))
    decreases |ops|
  {
    if ops != [] {
      var before, op := ops[..|ops| - 1], ops[|ops| - 1];
      var c, history := RunOf(before), HistoryOf(before);
      RunIsHistory(before);
      StepTracks(c, op);
      hide IsTracked, Touched, Evicts, FoldersLeft, Without, ListAfter, RunOf, HistoryOf;
      RunSnoc(ops);
      if UseOf(c, op) == [] {
        assert history + [] == history;
      } else {
        ListSnoc(history, UseOf(c, op)[0]);
      }
    }
  }

  lemma RunSnoc(ops: seq<Op>)
    requires ops != []
    ensures var before, op := ops[..|ops| - 1], ops[|ops| - 1];
            RunOf(ops) == StepOf(RunOf(before), op) && HistoryOf(ops) == HistoryOf(before) + UseOf(RunOf(before), op)
  {
  }

  lemma StepTracks(c: Holding, op: Op)
    requires IsTracked(c)
    ensures IsTracked(StepOf(c, op))
  {
    TouchingTracks(c, op.name, op.trouble);
    DeletingTracks(c, op.name, op.trouble);
    hide NoDuplicates, AfterTouching, AfterDelete;
  }

  /** While every folder can be removed, a cache never lists more than five. */
  lemma {:induction false} CalmCache(ops: seq<Op>)
    requires forall i :: 0 <= i < |ops| ==> ops[i].trouble.stuck == {}
    ensures |RunOf(ops).names| <= 5
  {
    RunIsHistory(ops);
    AllGone(ops);
    AtMostFive(HistoryOf(ops));
  }

  lemma {:induction false} AllGone(ops: seq<Op>)
    requires forall i :: 0 <= i < |ops| ==> ops[i].trouble.stuck == {}
    ensures forall i :: 0 <= i < |HistoryOf(ops)| && HistoryOf(ops)[i].Touch? ==> HistoryOf(ops)[i].gone
  {
    if ops != [] {
      var before, op := ops[..|ops| - 1], ops[|ops| - 1];
      AllGone(before);
      RunSnoc(ops);
      assert op.trouble.stuck == {};
      assert forall u :: u in UseOf(RunOf(before), op) && u.Touch? ==> u.gone;
      hide RunOf, HistoryOf, UseOf;
    }
  }

  /** In every run a folder goes only when it is removed by name, or when it leaves
      a list of more than five names; and only `create` brings one. */
  lemma FoldersStay(ops: seq<Op>, f: Name)
    requires ops != []
    ensures var before, op := ops[..|ops| - 1], ops[|ops| - 1];
            var c, c' := RunOf(before), RunOf(ops);
            (f in c.folders && f !in c'.folders ==>
              (op.Remove? && f == op.name) || (f !in c'.names && |Moved(c.names, op.name)| > 5)) &&
            (f !in c.folders && f in c'.folders ==> op.Create? && f == op.name)
  {
    var before, op := ops[..|ops| - 1], ops[|ops| - 1];
    RunIsHistory(before);
    TouchingKeeps(RunOf(before), op.name, op.trouble);
    RunSnoc(ops);
    hide RunOf, AfterTouching, IsTracked, Moved;
  }

  /** What the list theorems say about a cache in use: its names are in order of
      last use, they cover every folder, and there are more than five of them
      exactly when some eviction failed and was not made up for since. */
  lemma CacheIsRecent(ops: seq<Op>)
    ensures var c, history := RunOf(ops), HistoryOf(ops);
            MostRecentFirst(c.names, history) && IsTracked(c) &&
            (|c.names| > KEEP_LRU <==> exists k: nat :: StuckSince(history, k))
  {
    RunIsHistory(ops);
    ListIsRecent(HistoryOf(ops));
    OverfullExactly(HistoryOf(ops));
  }
}
