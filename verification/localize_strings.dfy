/** The lint rule for strings that are not externalized: visitors collect the
    double-quoted literals and the localize calls of a syntax tree, and the end
    of the program reports what is left. */
module LocalizeStrings {
  import opened Sequences

  datatype Callee = Nls | Bare | L10n | Unrelated

  /** `nls.localize`, a bare `localize`, and `l10n.t` are told apart by their
      callee; `localize2` counts as `localize`. */
  datatype Kind =
    | Str(value: string, doubleQuoted: bool)
    | Template(cooked: Option<string>, constant: bool)
    | Identifier(name: string)
    | ObjectLiteral            // children: the properties
    | Property(computed: bool) // children: key and value
    | Directive                // an expression statement that is a directive
    | Call(callee: Callee)     // children: the callee, then the arguments
    | Code                     // anything else

  datatype Node = Node(id: nat, text: string, kind: Kind, children: seq<Node>)

  /** A localize call and the source text of its message. */
  datatype Entry = Entry(call: nat, message: string)

  // ---------- what single calls mean ----------

  function Args(n: Node): seq<Node> {
    if n.children == [] then [] else n.children[1..]
  }

  /** Selected by a localize selector; the bare ones only with two arguments. */
  predicate IsLocalize(n: Node) {
    n.kind.Call? && (n.kind.callee.Nls? || (n.kind.callee.Bare? && |Args(n)| >= 2))
  }

  predicate IsL10n(n: Node) {
    n.kind.Call? && n.kind.callee.L10n?
  }

  /** The visitor reads arguments that are not there, and throws. */
  predicate Throws(n: Node) {
    (IsLocalize(n) && |Args(n)| < 2) || (IsL10n(n) && |Args(n)| < 1)
  }

  predicate IsPropertyNamed(p: Node, name: string) {
    p.kind.Property? && |p.children| == 2 && p.children[0].kind == Identifier(name)
  }

  /** A property that settles the key of a localize call. */
  predicate SettlesKey(p: Node) {
    IsPropertyNamed(p, "key") && !p.kind.computed &&
    (p.children[1].kind.Str? || (p.children[1].kind.Template? && p.children[1].kind.constant))
  }

  predicate IsMessageProperty(p: Node) {
    IsPropertyNamed(p, "message")
  }

  /** The key written in a literal or constant template. */
  function Text(n: Node): Option<string> {
    match n.kind
    case Str(value, _) => Some(value)
    case Template(cooked, constant) => if constant then cooked else None
    case _ => None
  }

  /** The index of the first property that qualifies, or their number. */
  function FirstIndex(props: seq<Node>, qualifies: Node -> bool): (i: nat)
    ensures i <= |props|
    ensures i < |props| ==> qualifies(props[i])
    ensures forall j :: 0 <= j < i ==> !qualifies(props[j])
  {
    if props == [] then 0 else if qualifies(props[0]) then 0 else 1 + FirstIndex(props[1..], qualifies)
  }

  /** The node that holds the key of a localize call, if there is one. */
  function KeyHolder(keyNode: Node): Option<Node> {
    if keyNode.kind.Str? || (keyNode.kind.Template? && keyNode.kind.constant) then Some(keyNode)
    else if keyNode.kind.ObjectLiteral? then
      var i := FirstIndex(keyNode.children, SettlesKey);
      if i < |keyNode.children| then Some(keyNode.children[i].children[1]) else None
    else None
  }

  function KeyOf(n: Node): Option<string> {
    if IsLocalize(n) && |Args(n)| >= 2 && KeyHolder(Args(n)[0]).Some? then Text(KeyHolder(Args(n)[0]).value) else None
  }

  /** The literals a call excuses: its key, and its message. */
  function CallExcuses(n: Node): set<nat> {
    if Throws(n) then {}
    else if IsLocalize(n) then
      var holder := KeyHolder(Args(n)[0]);
      (if holder.Some? && holder.value.kind.Str? then {holder.value.id} else {}) + {Args(n)[1].id}
    else if IsL10n(n) then
      var message := Args(n)[0];
      if message.kind.Str? then {message.id}
      else if message.kind.ObjectLiteral? then
        var i := FirstIndex(message.children, IsMessageProperty);
        if i < |message.children| then {message.children[i].children[1].id} else {}
      else {}
    else {}
  }

  // ---------- whole trees ----------

  function Ids(n: Node): set<nat>
    decreases n, 0
  {
    {n.id} + IdsOf(n.children)
  }

  function IdsOf(ns: seq<Node>): set<nat>
    decreases ns, 1
  {
    if ns == [] then {} else Ids(ns[0]) + IdsOf(ns[1..])
  }

  /** No node occurs twice. */
  predicate Tree(n: Node)
    decreases n, 0
  {
    n.id !in IdsOf(n.children) && Trees(n.children)
  }

  predicate Trees(ns: seq<Node>)
    decreases ns, 1
  {
    ns == [] || (Tree(ns[0]) && Trees(ns[1..]) && Ids(ns[0]) !! IdsOf(ns[1..]))
  }

  /** No call in the tree makes its visitor throw. */
  predicate Sound(n: Node)
    decreases n, 0
  {
    SoundAll(n.children) && !Throws(n)
  }

  predicate SoundAll(ns: seq<Node>)
    decreases ns, 1
  {
    ns == [] || (Sound(ns[0]) && SoundAll(ns[1..]))
  }

  /** The double-quoted string literals of a tree. */
  function Quoted(n: Node): set<nat>
    decreases n, 0
  {
    (if n.kind.Str? && n.kind.doubleQuoted then {n.id} else {}) + QuotedIn(n.children)
  }

  function QuotedIn(ns: seq<Node>): set<nat>
    decreases ns, 1
  {
    if ns == [] then {} else Quoted(ns[0]) + QuotedIn(ns[1..])
  }

  /** The literals excused by a call of the tree or by standing in a directive. */
  function Excused(n: Node, directive: bool): set<nat>
    decreases n, 0
  {
    ExcusedIn(n.children, directive || n.kind.Directive?) +
    (if n.kind.Str? && directive then {n.id} else {}) + CallExcuses(n)
  }

  function ExcusedIn(ns: seq<Node>, directive: bool): set<nat>
    decreases ns, 1
  {
    if ns == [] then {} else Excused(ns[0], directive) + ExcusedIn(ns[1..], directive)
  }

  /** The localize calls with a given key, inner calls first. */
  function Messages(n: Node, key: string): seq<Entry>
    decreases n, 0
  {
    MessagesIn(n.children, key) + if KeyOf(n) == Some(key) then [Entry(n.id, Args(n)[1].text)] else []
  }

  function MessagesIn(ns: seq<Node>, key: string): seq<Entry>
    decreases ns, 1
  {
    if ns == [] then [] else Messages(ns[0], key) + MessagesIn(ns[1..], key)
  }

  /** A localize call whose message is not a string literal. */
  predicate HasBadMessage(n: Node) {
    IsLocalize(n) && |Args(n)| >= 2 && !Args(n)[1].kind.Str?
  }

  function BadMessages(n: Node): set<nat>
    decreases n, 0
  {
    BadMessagesIn(n.children) + if HasBadMessage(n) then {n.id} else {}
  }

  function BadMessagesIn(ns: seq<Node>): set<nat>
    decreases ns, 1
  {
    if ns == [] then {} else BadMessages(ns[0]) + BadMessagesIn(ns[1..])
  }

  // ---------- everything excused is a node of the tree ----------

  lemma {:induction false} ChildIn(ns: seq<Node>, i: nat)
    requires i < |ns|
    ensures Ids(ns[i]) <= IdsOf(ns)
  {
    if i > 0 {
      ChildIn(ns[1..], i - 1);
    }
  }

  lemma GrandchildIn(n: Node, i: nat)
    requires i < |n.children| && |n.children[i].children| == 2
    ensures n.children[i].children[1].id in Ids(n)
  {
    ChildIn(n.children, i);
    ChildIn(n.children[i].children, 1);
  }

  lemma CallExcusesItsOwn(n: Node)
    ensures CallExcuses(n) <= Ids(n)
  {
    if !Throws(n) && (IsLocalize(n) || IsL10n(n)) {
      var arg := n.children[1];
      ChildIn(n.children, 1);
      if IsLocalize(n) {
        ChildIn(n.children, 2);
      }
      if arg.kind.ObjectLiteral? {
        var i := FirstIndex(arg.children, if IsLocalize(n) then SettlesKey else IsMessageProperty);
        if i < |arg.children| {
          GrandchildIn(arg, i);
        }
      }
    }
  }

  lemma {:induction false} ExcusedIsInside(n: Node, directive: bool)
    ensures Excused(n, directive) <= Ids(n)
    decreases n, 0
  {
    CallExcusesItsOwn(n);
    ExcusedAreInside(n.children, directive || n.kind.Directive?);
  }

  lemma {:induction false} ExcusedAreInside(ns: seq<Node>, directive: bool)
    ensures ExcusedIn(ns, directive) <= IdsOf(ns)
    decreases ns, 1
  {
    if ns != [] {
      ExcusedIsInside(ns[0], directive);
      ExcusedAreInside(ns[1..], directive);
    }
  }

  lemma {:induction false} QuotedIsInside(n: Node)
    ensures Quoted(n) <= Ids(n)
    decreases n, 0
  {
    QuotedAreInside(n.children);
  }

  lemma {:induction false} QuotedAreInside(ns: seq<Node>)
    ensures QuotedIn(ns) <= IdsOf(ns)
    decreases ns, 1
  {
    if ns != [] {
      QuotedIsInside(ns[0]);
      QuotedAreInside(ns[1..]);
    }
  }

  lemma SetsMeet(x: set<nat>, own: set<nat>, below: set<nat>, c: set<nat>, d: set<nat>, e: set<nat>)
    ensures x + own + below - c - (d + e) == x + (own + below) - (c + d + e)
  {
  }

  function EntriesAt(literals: map<string, seq<Entry>>, key: string): seq<Entry> {
    if key in literals then literals[key] else []
  }

  // ---------- the visitors ----------

  class Visitor {
    var doubleQuotedStringLiterals: set<nat>
    var externalizedStringLiterals: map<string, seq<Entry>>
    var badMessages: set<nat>  // the calls reported so far for their message

    constructor ()
      ensures doubleQuotedStringLiterals == {} && externalizedStringLiterals == map[] && badMessages == {}
    {
      doubleQuotedStringLiterals, externalizedStringLiterals, badMessages := {}, map[], {};
    }

    function At(key: string): seq<Entry>
      reads this
    {
      EntriesAt(externalizedStringLiterals, key)
    }

    method ExtractKey(keyNode: Node) returns (key: Option<string>)
      modifies this`doubleQuotedStringLiterals
      ensures var holder := KeyHolder(keyNode);
              key == (if holder.Some? then Text(holder.value) else None) &&
              doubleQuotedStringLiterals == old(doubleQuotedStringLiterals) -
                if holder.Some? && holder.value.kind.Str? then {holder.value.id} else {}
    {
      key := None;
      if keyNode.kind.Str? {
        doubleQuotedStringLiterals := doubleQuotedStringLiterals - {keyNode.id};
        key := Some(keyNode.kind.value);
      } else if keyNode.kind.Template? && keyNode.kind.constant {
        key := keyNode.kind.cooked;
      } else if keyNode.kind.ObjectLiteral? {
        for i := 0 to |keyNode.children|
          invariant forall j :: 0 <= j < i ==> !SettlesKey(keyNode.children[j])
          invariant key == None && doubleQuotedStringLiterals == old(doubleQuotedStringLiterals)
        {
          var property := keyNode.children[i];
          if SettlesKey(property) {
            var value := property.children[1];
            if value.kind.Str? {
              doubleQuotedStringLiterals := doubleQuotedStringLiterals - {value.id};
            }
            return Text(value);
          }
        }
      }
    }

    method VisitLocalizeCall(n: Node)
      requires IsLocalize(n) && !Throws(n)
      modifies this
      ensures doubleQuotedStringLiterals == old(doubleQuotedStringLiterals) - CallExcuses(n)
      ensures forall k :: At(k) == old(At(k)) + if KeyOf(n) == Some(k) then [Entry(n.id, Args(n)[1].text)] else []
      ensures badMessages == old(badMessages) + if HasBadMessage(n) then {n.id} else {}
    {
      var keyNode, messageNode := Args(n)[0], Args(n)[1];
      var key := ExtractKey(keyNode);
      if key.Some? {
        if key.value !in externalizedStringLiterals {
          externalizedStringLiterals := externalizedStringLiterals[key.value := []];
        }
        var entries := externalizedStringLiterals[key.value] + [Entry(n.id, messageNode.text)];
        externalizedStringLiterals := externalizedStringLiterals[key.value := entries];
      }
      doubleQuotedStringLiterals := doubleQuotedStringLiterals - {messageNode.id};
      if !messageNode.kind.Str? {
        badMessages := badMessages + {n.id};
      }
    }

    method VisitL10nCall(n: Node)
      requires IsL10n(n) && !Throws(n)
      modifies this`doubleQuotedStringLiterals
      ensures doubleQuotedStringLiterals == old(doubleQuotedStringLiterals) - CallExcuses(n)
    {
      var messageNode := Args(n)[0];
      if messageNode.kind.Str? {
        doubleQuotedStringLiterals := doubleQuotedStringLiterals - {messageNode.id};
      } else if messageNode.kind.ObjectLiteral? {
        for i := 0 to |messageNode.children|
          invariant forall j :: 0 <= j < i ==> !IsMessageProperty(messageNode.children[j])
          invariant doubleQuotedStringLiterals == old(doubleQuotedStringLiterals)
        {
          if IsMessageProperty(messageNode.children[i]) {
            doubleQuotedStringLiterals := doubleQuotedStringLiterals - {messageNode.children[i].children[1].id};
            return;
          }
        }
      }
    }

    method Leave(n: Node, directive: bool)
      requires !Throws(n)
      modifies this
      ensures doubleQuotedStringLiterals ==
              old(doubleQuotedStringLiterals) - ((if n.kind.Str? && directive then {n.id} else {}) + CallExcuses(n))
      ensures forall k :: At(k) == old(At(k)) + if KeyOf(n) == Some(k) then [Entry(n.id, Args(n)[1].text)] else []
      ensures badMessages == old(badMessages) + if HasBadMessage(n) then {n.id} else {}
    {
      if n.kind.Str? && directive {
        doubleQuotedStringLiterals := doubleQuotedStringLiterals - {n.id};
      }
      if IsLocalize(n) {
        VisitLocalizeCall(n);
      } else if IsL10n(n) {
        VisitL10nCall(n);
      }
    }

    /** Enters `n`, traverses its children, and leaves it. `ok` is false when a
        visitor threw, which ends the traversal. */
    method Traverse(n: Node, directive: bool) returns (ok: bool)
      requires Tree(n)
      modifies this
      ensures ok == Sound(n)
      ensures ok ==>
                doubleQuotedStringLiterals == old(doubleQuotedStringLiterals) + Quoted(n) - Excused(n, directive)
      ensures ok ==> forall k :: At(k) == old(At(k)) + Messages(n, k)
      ensures ok ==> badMessages == old(badMessages) + BadMessages(n)
      decreases n, 0
    {
      ghost var before := doubleQuotedStringLiterals;
      if n.kind.Str? && n.kind.doubleQuoted {
        doubleQuotedStringLiterals := doubleQuotedStringLiterals + {n.id};
      }
      ok := TraverseAll(n.children, directive || n.kind.Directive?);
      hide CallExcuses, IsLocalize, IsL10n, KeyOf, Throws, QuotedIn, ExcusedIn, SoundAll, MessagesIn,
           HasBadMessage, BadMessagesIn, Tree, Trees, Ids, IdsOf;
      if !ok || Throws(n) {
        return false;
      }
      Leave(n, directive);
      SetsMeet(before, if n.kind.Str? && n.kind.doubleQuoted then {n.id} else {}, QuotedIn(n.children),
               ExcusedIn(n.children, directive || n.kind.Directive?),
               if n.kind.Str? && directive then {n.id} else {}, CallExcuses(n));
    }

    method TraverseAll(ns: seq<Node>, directive: bool) returns (ok: bool)
      requires Trees(ns)
      modifies this
      ensures ok == SoundAll(ns)
      ensures ok ==>
                doubleQuotedStringLiterals == old(doubleQuotedStringLiterals) + QuotedIn(ns) - ExcusedIn(ns, directive)
      ensures ok ==> forall k :: At(k) == old(At(k)) + MessagesIn(ns, k)
      ensures ok ==> badMessages == old(badMessages) + BadMessagesIn(ns)
      decreases ns, 1
    {
      if ns == [] {
        return true;
      }
      ok := Traverse(ns[0], directive);
      if ok {
        ok := TraverseAll(ns[1..], directive);
        ExcusedIsInside(ns[0], directive);
        QuotedAreInside(ns[1..]);
      }
    }

    /** The reports made when the program is left. */
    method ReportBadStringsAndBadKeys() returns (strings: set<nat>, badKeys: set<nat>, duplicates: set<nat>)
      ensures strings == doubleQuotedStringLiterals
      ensures forall call :: call in badKeys <==>
                exists k :: call in BadKeyCalls(k, EntriesAt(externalizedStringLiterals, k))
      ensures forall call :: call in duplicates <==>
                exists k :: call in DuplicateCalls(EntriesAt(externalizedStringLiterals, k))
    {
      strings, badKeys, duplicates := doubleQuotedStringLiterals, {}, {};
      var keys := externalizedStringLiterals.Keys;
      while keys != {}
        invariant keys <= externalizedStringLiterals.Keys
        invariant forall call :: call in badKeys <==>
                    exists k :: k !in keys && call in BadKeyCalls(k, EntriesAt(externalizedStringLiterals, k))
        invariant forall call :: call in duplicates <==>
                    exists k :: k !in keys && call in DuplicateCalls(EntriesAt(externalizedStringLiterals, k))
        decreases |keys|
      {
        var key :| key in keys;
        var values := externalizedStringLiterals[key];
        assert values == EntriesAt(externalizedStringLiterals, key);
        var found := DuplicatesOf(values);
        hide DuplicateCalls, BadKeyCalls;
        badKeys, duplicates := badKeys + BadKeyCalls(key, values), duplicates + found;
        keys := keys - {key};
      }
    }
  }

  predicate IsWordChar(c: char) {
    c == '_' || 'a' <= c <= 'z' || 'A' <= c <= 'Z' || '0' <= c <= '9'
  }

  predicate IsNlsKey(key: string) {
    key != "" && IsWordChar(key[0]) &&
    forall i :: 1 <= i < |key| ==> IsWordChar(key[i]) || key[i] in " .-"
  }

  /** The `i`-th call with a key says something else than the one before it. */
  predicate Differs(values: seq<Entry>, i: int) {
    1 <= i < |values| && values[i - 1].message != values[i].message
  }

  /** The calls whose key is not a valid identifier. */
  function BadKeyCalls(key: string, values: seq<Entry>): set<nat> {
    if IsNlsKey(key) then {} else set v | v in values :: v.call
  }

  lemma BadKeyCallsAre(key: string, values: seq<Entry>, call: nat)
    ensures call in BadKeyCalls(key, values) <==> !IsNlsKey(key) && exists e :: e in values && e.call == call
  {
  }

  function DuplicateCalls(values: seq<Entry>): set<nat> {
    set i | 1 <= i < |values| && Differs(values, i) :: values[i].call
  }

  method DuplicatesOf(values: seq<Entry>) returns (calls: set<nat>)
    ensures calls == DuplicateCalls(values)
  {
    calls := {};
    if |values| > 1 {
      for i := 1 to |values|
        invariant calls == set j | 1 <= j < i && Differs(values, j) :: values[j].call
      {
        if values[i - 1].message != values[i].message {
          assert Differs(values, i);
          calls := calls + {values[i].call};
        }
      }
    }
  }

  /** Comparing neighbours finds a difference whenever there is any. */
  lemma {:induction false} NeighboursSuffice(values: seq<Entry>, a: nat, b: nat)
    requires a < b < |values| && values[a].message != values[b].message
    ensures exists i :: Differs(values, i)
    decreases b - a
  {
    if values[a].message != values[a + 1].message {
      assert Differs(values, a + 1);
    } else {
      NeighboursSuffice(values, a + 1, b);
    }
  }

  ghost predicate OneMessage(values: seq<Entry>) {
    forall e, f :: e in values && f in values ==> e.message == f.message
  }

  lemma DuplicateExactly(values: seq<Entry>)
    ensures DuplicateCalls(values) == {} <==> OneMessage(values)
  {
    if !OneMessage(values) {
      var e, f :| e in values && f in values && e.message != f.message;
      var a :| 0 <= a < |values| && values[a] == e;
      var b :| 0 <= b < |values| && values[b] == f;
      NeighboursSuffice(values, if a < b then a else b, if a < b then b else a);
      var i :| Differs(values, i);
      assert values[i].call in DuplicateCalls(values);
    }
  }

  /** The call is filed under a key that is not a valid identifier. */
  ghost predicate HasBadKey(root: Node, call: nat) {
    exists k, e :: e in Messages(root, k) && e.call == call && !IsNlsKey(k)
  }

  /** One program through the rule: the double-quoted strings reported are those
      no call and no directive excuses, and a duplicate key is reported exactly
      when two messages of one key differ. */
  method CheckProgram(root: Node)
    returns (ok: bool, strings: set<nat>, badMessages: set<nat>, badKeys: set<nat>, duplicates: set<nat>)
    requires Tree(root)
    ensures ok <==> Sound(root)
    ensures ok ==> strings == Quoted(root) - Excused(root, false)
    ensures ok ==> badMessages == BadMessages(root)
    ensures ok ==> forall call: nat :: call in badKeys <==> HasBadKey(root, call)
    ensures ok ==> (duplicates == {} <==> forall k :: OneMessage(Messages(root, k)))
  {
    var visitor := new Visitor();
    ok := visitor.Traverse(root, false);
    strings, badMessages, badKeys, duplicates := {}, visitor.badMessages, {}, {};
    if ok {
      assert forall k :: visitor.At(k) == EntriesAt(visitor.externalizedStringLiterals, k);
      ghost var literals := visitor.externalizedStringLiterals;
      forall k ensures EntriesAt(literals, k) == Messages(root, k) {
        assert visitor.At(k) == [] + Messages(root, k);
      }
      strings, badKeys, duplicates := visitor.ReportBadStringsAndBadKeys();
      ReportsOfTree(literals, root, badKeys, duplicates);
    }
  }

  lemma ReportsOfTree(literals: map<string, seq<Entry>>, root: Node, badKeys: set<nat>, duplicates: set<nat>)
    requires forall k :: EntriesAt(literals, k) == Messages(root, k)
    requires forall call :: call in badKeys <==> exists k :: call in BadKeyCalls(k, EntriesAt(literals, k))
    requires forall call :: call in duplicates <==> exists k :: call in DuplicateCalls(EntriesAt(literals, k))
    ensures forall call: nat :: call in badKeys <==> HasBadKey(root, call)
    ensures duplicates == {} <==> forall k :: OneMessage(Messages(root, k))
  {
    hide Messages, BadKeyCalls, DuplicateCalls, OneMessage, EntriesAt;
    forall call: nat ensures call in badKeys <==> HasBadKey(root, call) {
      if call in badKeys {
        var k :| call in BadKeyCalls(k, EntriesAt(literals, k));
        BadKeyCallsAre(k, Messages(root, k), call);
      }
      if HasBadKey(root, call) {
        var k, e :| e in Messages(root, k) && e.call == call && !IsNlsKey(k);
        BadKeyCallsAre(k, Messages(root, k), call);
        assert call in BadKeyCalls(k, EntriesAt(literals, k));
      }
    }
    forall k ensures DuplicateCalls(EntriesAt(literals, k)) == {} <==> OneMessage(Messages(root, k)) {
      assert EntriesAt(literals, k) == Messages(root, k);
      DuplicateExactly(Messages(root, k));
    }
    if duplicates != {} {
      var call :| call in duplicates;
      var k :| call in DuplicateCalls(EntriesAt(literals, k));
      assert !OneMessage(Messages(root, k));
    }
  }

  // ---------- examples ----------

  lemma Keys()
    ensures IsNlsKey("a") && IsNlsKey("_x.y-z 0") && IsNlsKey("9lives")
    ensures !IsNlsKey("") && !IsNlsKey(".a") && !IsNlsKey(" a") && !IsNlsKey("a/b") && !IsNlsKey("a:b")
  {
    var good := "_x.y-z 0";
    assert forall i :: 1 <= i < |good| ==> IsWordChar(good[i]) || good[i] in " .-";
    assert "a/b"[1] == '/' && "a:b"[1] == ':';
  }

  function Literal(id: nat, value: string): Node {
    Node(id, value, Str(value, true), [])
  }

  function Named(id: nat, name: string): Node {
    Node(id, name, Identifier(name), [])
  }

  function KeyValue(id: nat, name: string, value: Node): Node {
    Node(id, "", Property(false), [Named(id + 1, name), value])
  }

  function CallOf(callee: Callee, args: seq<Node>): Node {
    Node(0, "", Call(callee), [Named(1, "f")] + args)
  }

  /** `localize("k", "m")`: both literals are excused, and the call goes under k. */
  lemma PlainCall(callee: Callee)
    requires callee in {Nls, Bare}
    ensures var n := CallOf(callee, [Literal(2, "k"), Literal(3, "m")]);
            !Throws(n) && CallExcuses(n) == {2, 3} && KeyOf(n) == Some("k") && !HasBadMessage(n)
  {
    var n := CallOf(callee, [Literal(2, "k"), Literal(3, "m")]);
    assert Args(n) == [Literal(2, "k"), Literal(3, "m")];
  }

  /** `localize({ comment: "c", key: "k" }, x)`: the key is found behind another
      property, whose literal is not excused; the message is reported. */
  lemma ObjectCall()
    ensures var pairs := [KeyValue(10, "comment", Literal(12, "c")), KeyValue(20, "key", Literal(22, "k"))];
            var object' := Node(2, "", ObjectLiteral, pairs);
            var n := CallOf(Nls, [object', Named(3, "x")]);
            !Throws(n) && CallExcuses(n) == {22, 3} && KeyOf(n) == Some("k") && HasBadMessage(n)
  {
    var first, second := KeyValue(10, "comment", Literal(12, "c")), KeyValue(20, "key", Literal(22, "k"));
    var object' := Node(2, "", ObjectLiteral, [first, second]);
    var n := CallOf(Nls, [object', Named(3, "x")]);
    assert Args(n) == [object', Named(3, "x")];
    assert !SettlesKey(first) && SettlesKey(second);
    assert [first, second][1..] == [second];
    assert FirstIndex([second], SettlesKey) == 0;
    assert FirstIndex([first, second], SettlesKey) == 1;
  }

  /** `l10n.t("m")` and `l10n.t({ message: "m" })` excuse their message, under no key. */
  lemma L10nCalls()
    ensures var n := CallOf(L10n, [Literal(2, "m")]);
            !Throws(n) && CallExcuses(n) == {2} && KeyOf(n) == None
    ensures var object' := Node(2, "", ObjectLiteral, [KeyValue(10, "message", Literal(12, "m"))]);
            var n := CallOf(L10n, [object']);
            !Throws(n) && CallExcuses(n) == {12} && KeyOf(n) == None
  {
    var n := CallOf(L10n, [Literal(2, "m")]);
    assert Args(n) == [Literal(2, "m")];
    var property := KeyValue(10, "message", Literal(12, "m"));
    var object' := Node(2, "", ObjectLiteral, [property]);
    var m := CallOf(L10n, [object']);
    assert Args(m) == [object'];
    assert IsMessageProperty(property);
    assert FirstIndex([property], IsMessageProperty) == 0;
  }

  /** A member call without its message throws; a bare one is no localize call. */
  lemma ShortCalls()
    ensures Throws(CallOf(Nls, [Literal(2, "k")])) && Throws(CallOf(L10n, []))
    ensures !Throws(CallOf(Bare, [Literal(2, "k")])) && CallExcuses(CallOf(Bare, [Literal(2, "k")])) == {}
    ensures !Throws(CallOf(Unrelated, [])) && CallExcuses(CallOf(Unrelated, [Literal(2, "k"), Literal(3, "m")])) == {}
  {
    assert Args(CallOf(Nls, [Literal(2, "k")])) == [Literal(2, "k")];
    assert Args(CallOf(Bare, [Literal(2, "k")])) == [Literal(2, "k")];
    assert Args(CallOf(L10n, [])) == [];
  }

  /** A directive excuses its literal; single quotes need no excuse. */
  lemma DirectiveExcuses()
    ensures var n := Node(0, "", Code, [Node(1, "", Directive, [Literal(2, "use strict")]), Literal(3, "s")]);
            Quoted(n) - Excused(n, false) == {3}
    ensures Quoted(Node(4, "", Str("s", false), [])) == {}
  {
    var inside, outside := Literal(2, "use strict"), Literal(3, "s");
    var directive := Node(1, "", Directive, [inside]);
    assert [inside][1..] == [] && [directive, outside][1..] == [outside] && [outside][1..] == [];
    assert QuotedIn([]) == {} && forall d: bool :: ExcusedIn([], d) == {};
    assert Quoted(inside) == {2} && Quoted(outside) == {3};
    assert Excused(inside, true) == {2} && Excused(outside, false) == {};
    assert QuotedIn([inside]) == {2} && ExcusedIn([inside], true) == {2};
    assert Quoted(directive) == {2} && Excused(directive, false) == {2};
    assert QuotedIn([outside]) == {3} && ExcusedIn([outside], false) == {};
    assert QuotedIn([directive, outside]) == {2, 3} && ExcusedIn([directive, outside], false) == {2};
  }
}
