/** A sealed credential kept in the system keyring, cut into entries because an
    entry may only hold so much; every entry but the last carries a marker. */
module Keyring {
  const MARKER := "<MORE>"

  /** The keyring: entry `k` is named after its number. */
  type Passwords = map<nat, string>

  predicate Continues(chunk: string) {
    |MARKER| <= |chunk| && chunk[|chunk| - |MARKER|..] == MARKER
  }

  function Stripped(chunk: string): string
    requires Continues(chunk)
  {
    chunk[..|chunk| - |MARKER|]
  }

  // ---------- storing and reading as functions ----------

  /** The entries `store` writes for a sealed text. A piece of the full step
      size is marked as continued even when nothing follows it. */
  function Chunks(sealed: string, step: nat): seq<string>
    requires step > 0
    decreases |sealed|
  {
    if sealed == "" then []
    else if step <= |sealed| then [sealed[..step] + MARKER] + Chunks(sealed[step..], step)
    else [sealed]
  }

  /** The keyring with its first entries replaced. */
  function Overwritten(pw: Passwords, chunks: seq<string>): Passwords {
    pw + map k | 0 <= k < |chunks| :: chunks[k]
  }

  datatype ReadResult = Value(text: string) | Missing | Failed

  function From(pw: Passwords, i: nat): set<nat> {
    set k | k in pw && i <= k
  }

  /** What reading from entry `i` on gives; entries in `broken` cannot be read. */
  function ReadFrom(pw: Passwords, broken: set<nat>, i: nat): ReadResult
    decreases From(pw, i)
  {
    if i in broken then Failed
    else if i !in pw then Missing
    else if !Continues(pw[i]) then Value(pw[i])
    else
      assert i in From(pw, i) && i !in From(pw, i + 1);
      Prefixed(Stripped(pw[i]), ReadFrom(pw, broken, i + 1))
  }

  function Prefixed(text: string, r: ReadResult): ReadResult {
    if r.Value? then Value(text + r.text) else r
  }

  /** A read from entry `i` on comes to entry `k`, over pieces that continue. */
  predicate Passes(pw: Passwords, i: nat, k: nat) {
    i <= k && forall j :: i <= j < k ==> j in pw && Continues(pw[j])
  }

  /** A read fails exactly if it comes to an entry that cannot be read. */
  lemma {:induction false} FailsExactly(pw: Passwords, broken: set<nat>, i: nat)
    ensures ReadFrom(pw, broken, i).Failed? <==> exists k :: k in broken && Passes(pw, i, k)
    decreases From(pw, i)
  {
    if i in broken {
      assert Passes(pw, i, i);
    } else if i in pw && Continues(pw[i]) {
      assert i in From(pw, i) && i !in From(pw, i + 1);
      FailsExactly(pw, broken, i + 1);
      assert forall k :: k != i ==> (Passes(pw, i, k) <==> Passes(pw, i + 1, k));
    }
  }

  /** How many entries, from `i` on, a read looks at. */
  function Reach(pw: Passwords, broken: set<nat>, i: nat): (n: nat)
    ensures i < n
    decreases From(pw, i)
  {
    if i in broken || i !in pw || !Continues(pw[i]) then i + 1
    else
      assert i in From(pw, i) && i !in From(pw, i + 1);
      Reach(pw, broken, i + 1)
  }

  // ---------- the storage object ----------

  class KeyringStorage {
    const limit: nat              // what one entry holds
    var entries: seq<nat>         // the names of the entries opened so far
    var passwords: Passwords      // the system's keyring

    constructor (limit: nat, passwords: Passwords)
      requires limit > |MARKER|
      ensures this.limit == limit && this.passwords == passwords && entries == [] && Valid()
    {
      this.limit := limit;
      this.passwords := passwords;
      entries := [];
    }

    /** Entry `k` has name `k`. */
    predicate Valid()
      reads this
    {
      limit > |MARKER| && forall k :: 0 <= k < |entries| ==> entries[k] == k
    }

    function Step(): (step: nat)
      requires limit > |MARKER|
    {
      limit - |MARKER|
    }

    method GetNextEntry(i: nat) returns (name: nat)
      requires Valid() && i <= |entries|
      modifies this`entries
      ensures Valid() && name == i && i < |entries|
      ensures |entries| == if i < |old(entries)| then |old(entries)| else i + 1
    {
      if i < |entries| {
        name := entries[i];
      } else {
        entries := entries + [i];
        name := entries[|entries| - 1];
      }
    }

    method Read(broken: set<nat>) returns (r: ReadResult)
      requires Valid()
      modifies this`entries
      ensures Valid() && r == ReadFrom(passwords, broken, 0)
      ensures |entries| == Max(|old(entries)|, Reach(passwords, broken, 0))
    {
      var str := "";
      var i := 0;
      while true
        invariant Valid() && i <= |entries| && |entries| == Max(|old(entries)|, i)
        invariant Prefixed(str, ReadFrom(passwords, broken, i)) == ReadFrom(passwords, broken, 0)
        invariant Reach(passwords, broken, i) == Reach(passwords, broken, 0)
        decreases From(passwords, i)
      {
        var entry := GetNextEntry(i);
        if entry in broken {
          return Failed;
        }
        if entry !in passwords {
          return Missing;
        }
        var nextChunk := passwords[entry];
        if Continues(nextChunk) {
          assert i in From(passwords, i) && i !in From(passwords, i + 1);
          PrefixedTwice(str, Stripped(nextChunk), ReadFrom(passwords, broken, i + 1));
          str := str + Stripped(nextChunk);
        } else {
          str := str + nextChunk;
          return Value(str);
        }
        i := i + 1;
      }
    }

    /** Writes entry after entry; at one that fails it stops. */
    method Store(sealed: string, broken: set<nat>) returns (ok: bool, ghost written: nat)
      requires Valid()
      modifies this
      ensures Valid()
      ensures var chunks := Chunks(sealed, Step());
              written <= |chunks| && (ok <==> written == |chunks|) && (!ok ==> written in broken) &&
              passwords == Overwritten(old(passwords), chunks[..written])
      // every entry written fits the limit, and each but the last fills it
      ensures forall k :: 0 <= k < written ==> k in passwords && |passwords[k]| <= limit
      ensures forall k :: 0 <= k < written && (!ok || k < written - 1) ==> |passwords[k]| == limit
    {
      hide Overwritten, Continues, Times;
      OverwriteNone(passwords, Chunks(sealed, Step()));
      var step := Step();
      ghost var chunks := Chunks(sealed, step);
      var i, k := 0, 0;
      assert Times(step, 0) == 0 by { TimesNone(step); }
      written := 0;
      assert sealed[0..] == sealed;
      while i < |sealed|
        invariant Valid() && written == k <= |entries| && i == Times(step, k)
        invariant k <= |chunks|
        invariant i < |sealed| ==> chunks[k..] == Chunks(sealed[i..], step)
        invariant i >= |sealed| ==> k == |chunks|
        invariant passwords == Overwritten(old(passwords), chunks[..k])
        decreases |sealed| - i
      {
        TimesNext(step, k);
        var entry := GetNextEntry(i / step);
        var cutoff := i + step;
        var part := if cutoff <= |sealed| then sealed[i..cutoff] + MARKER else sealed[i..];
        assert cutoff <= |sealed| ==> sealed[i..][..step] == sealed[i..cutoff];
        assert chunks[k..][0] == part;
        if entry in broken {
          assert k < |chunks|;
          WrittenFits(old(passwords), sealed, step, k);
          return false, k;
        }
        ghost var before := passwords;
        passwords := passwords[entry := part];
        OverwriteOne(old(passwords), chunks, k);
        assert chunks[k + 1..] == chunks[k..][1..];
        assert cutoff <= |sealed| ==> sealed[i..][step..] == sealed[cutoff..];
        i := i + step;
        k := k + 1;
        written := k;
      }
      assert chunks[..|chunks|] == chunks;
      WrittenFits(old(passwords), sealed, step, k);
      ok := true;
    }

    /** Deletes every entry known after a read, in order, up to the first that
        does not exist or cannot be deleted, which is an error. */
    method Clear(broken: set<nat>) returns (ok: bool, ghost deleted: nat)
      requires Valid()
      modifies this
      ensures Valid()
      ensures ok <==> CanClear(old(passwords), broken, |old(entries)|)
      ensures ok <==> deleted == Known(old(passwords), broken, |old(entries)|)
      ensures !ok ==> deleted !in old(passwords) || deleted in broken
      ensures forall k :: 0 <= k < deleted ==> k in old(passwords) && k !in broken
      ensures passwords == Without(old(passwords), deleted)
      ensures ok ==> entries == [] && ReadFrom(passwords, {}, 0) == Missing
    {
      var r := Read(broken);
      var i := 0;
      while i < |entries|
        invariant 0 <= i <= |entries| && Valid()
        invariant passwords == Without(old(passwords), i)
        invariant |entries| == Known(old(passwords), broken, |old(entries)|)
        invariant forall k :: 0 <= k < i ==> k in old(passwords) && k !in broken
      {
        var entry := entries[i];
        if entry !in passwords || entry in broken {
          assert !(i in old(passwords) && i !in broken);
          return false, i;
        }
        passwords := passwords - {entry};
        i := i + 1;
      }
      entries := [];
      ok, deleted := true, i;
    }
  }

  /** The keyring after its first entries were deleted. */
  function Without(pw: Passwords, deleted: nat): Passwords {
    map k | k in pw && deleted <= k :: pw[k]
  }

  /** How many entries are open once a read has been made. */
  function Known(pw: Passwords, broken: set<nat>, seen: nat): nat {
    Max(seen, Reach(pw, broken, 0))
  }

  predicate CanClear(pw: Passwords, broken: set<nat>, seen: nat) {
    forall k :: 0 <= k < Known(pw, broken, seen) ==> k in pw && k !in broken
  }

  function Max(a: nat, b: nat): nat {
    if a < b then b else a
  }

  function Times(step: nat, k: nat): nat {
    step * k
  }

  lemma TimesNext(step: nat, k: nat)
    requires step > 0
    ensures Times(step, k) / step == k && Times(step, k + 1) == Times(step, k) + step
  {
    DivModUnique(k, step, 0);
  }

  lemma TimesNone(step: nat)
    ensures Times(step, 0) == 0
  {
  }

  lemma MulGrows(step: nat, d: nat)
    ensures d > 0 ==> step * d >= step
  {
    if d > 0 {
      assert step * d == step * (d - 1) + step;
    }
  }

  /** Quotient and remainder are determined by the equation they satisfy. */
  lemma DivModUnique(q: int, step: nat, r: nat)
    requires r < step
    ensures (step * q + r) / step == q && (step * q + r) % step == r
  {
    var n := step * q + r;
    var d := q - n / step;
    assert step * d == step * q - step * (n / step) == n % step - r;
    var size := if d < 0 then -d else d;
    assert step * size == if d < 0 then -(step * d) else step * d;
    MulGrows(step, size);
  }

  lemma PrefixedTwice(a: string, b: string, r: ReadResult)
    ensures Prefixed(a, Prefixed(b, r)) == Prefixed(a + b, r)
  {
    if r.Value? {
      assert a + (b + r.text) == a + b + r.text;
    }
  }

  lemma OverwriteNone(pw: Passwords, chunks: seq<string>)
    ensures Overwritten(pw, chunks[..0]) == pw
  {
  }

  lemma OverwriteOne(pw: Passwords, chunks: seq<string>, k: nat)
    requires k < |chunks|
    ensures Overwritten(pw, chunks[..k + 1]) == Overwritten(pw, chunks[..k])[k := chunks[k]]
  {
  }

  // ---------- reading back what was stored ----------

  /** The piece after the last full step; empty when the length is a multiple. */
  function LastPiece(sealed: string, step: nat): string
    requires step > 0
    decreases |sealed|
  {
    if |sealed| < step then sealed else LastPiece(sealed[step..], step)
  }

  lemma {:induction false} LastPieceLength(sealed: string, step: nat)
    requires step > 0
    ensures |LastPiece(sealed, step)| == |sealed| % step
    ensures |LastPiece(sealed, step)| <= |sealed|
    decreases |sealed|
  {
    if step <= |sealed| {
      LastPieceLength(sealed[step..], step);
      ModStep(|sealed|, step);
    } else {
      SmallMod(|sealed|, step);
    }
  }

  lemma ModStep(n: nat, step: nat)
    requires 0 < step <= n
    ensures (n - step) % step == n % step
  {
    var q, r := n / step, n % step;
    assert step * (q - 1) == step * q - step;
    DivModUnique(q - 1, step, r);
  }

  lemma SmallMod(n: nat, step: nat)
    requires n < step
    ensures n % step == n
  {
  }

  /** What a caller can check before storing: the text is not a whole number of
      pieces, and its last piece does not look like a continued one. */
  predicate Storable(sealed: string, step: nat)
    requires step > 0
  {
    |sealed| % step != 0 && !Continues(LastPiece(sealed, step))
  }

  /** The same without arithmetic. */
  lemma StorableByPiece(sealed: string, step: nat)
    requires step > 0
    ensures Storable(sealed, step) <==> LastPiece(sealed, step) != "" && !Continues(LastPiece(sealed, step))
  {
    LastPieceLength(sealed, step);
  }

  /** The entries from `k` on are `chunks`, and then whatever `pw` had. */
  ghost predicate HoldsFrom(pw: Passwords, k: nat, chunks: seq<string>) {
    forall i :: k <= i < k + |chunks| ==> i in pw && pw[i] == chunks[i - k]
  }

  /** What of the text is kept when the last piece is taken for a continued one. */
  function Kept(sealed: string, step: nat): string
    requires step > 0
    decreases |sealed|
  {
    if step <= |sealed| then sealed[..step] + Kept(sealed[step..], step)
    else if Continues(sealed) then Stripped(sealed)
    else sealed
  }

  lemma KeptStep(sealed: string, step: nat)
    requires 0 < step <= |sealed|
    ensures Kept(sealed, step) == sealed[..step] + Kept(sealed[step..], step)
    ensures LastPiece(sealed, step) == LastPiece(sealed[step..], step)
    ensures sealed == sealed[..step] + sealed[step..]
  {
  }

  lemma KeptLast(sealed: string, step: nat)
    requires |sealed| < step
    ensures sealed == Kept(sealed, step) + if Continues(LastPiece(sealed, step)) then MARKER else ""
  {
    if Continues(sealed) {
      assert sealed == Stripped(sealed) + MARKER;
    }
  }

  /** It is the text without the marker its last piece ends in, if it does. */
  lemma {:induction false} KeptIs(sealed: string, step: nat)
    requires step > 0
    ensures sealed == Kept(sealed, step) + if Continues(LastPiece(sealed, step)) then MARKER else ""
    decreases |sealed|
  {
    hide *;
    if step <= |sealed| {
      KeptStep(sealed, step);
      KeptIs(sealed[step..], step);
      var first, rest := sealed[..step], Kept(sealed[step..], step);
      var end := if Continues(LastPiece(sealed, step)) then MARKER else "";
      assert first + (rest + end) == first + rest + end;
    } else {
      KeptLast(sealed, step);
    }
  }

  lemma HoldsRest(pw: Passwords, k: nat, chunks: seq<string>)
    requires HoldsFrom(pw, k, chunks) && chunks != []
    ensures k in pw && pw[k] == chunks[0] && HoldsFrom(pw, k + 1, chunks[1..])
  {
  }

  /** Storability and what is kept depend on the last piece only. */
  lemma OnlyLastPiece(sealed: string, step: nat)
    requires 0 < step <= |sealed|
    ensures Storable(sealed, step) == Storable(sealed[step..], step)
    ensures Kept(sealed, step) == sealed[..step] + Kept(sealed[step..], step)
  {
    StorableByPiece(sealed, step);
    StorableByPiece(sealed[step..], step);
    hide Storable, Continues;
  }

  /** A last piece is the text, unless it is empty or looks continued. */
  lemma ReadLast(pw: Passwords, k: nat, sealed: string, step: nat)
    requires step > |sealed| > 0 && k in pw && pw[k] == sealed
    ensures ReadFrom(pw, {}, k) ==
            if Storable(sealed, step) then Value(sealed) else Prefixed(Kept(sealed, step), ReadFrom(pw, {}, k + 1))
  {
    StorableByPiece(sealed, step);
    hide Storable;
  }

  lemma ReadNothing(pw: Passwords, k: nat, step: nat)
    requires step > 0
    ensures !Storable("", step) && Chunks("", step) == [] && Kept("", step) == ""
    ensures ReadFrom(pw, {}, k) == Prefixed("", ReadFrom(pw, {}, k))
  {
    StorableByPiece("", step);
    PrefixedNothing(ReadFrom(pw, {}, k));
    hide ReadFrom;
  }

  lemma OnePiece(sealed: string, step: nat)
    requires step > |sealed| > 0
    ensures Chunks(sealed, step) == [sealed]
  {
  }

  /** A full piece is prefixed to what is read after it. */
  lemma ReadFull(pw: Passwords, k: nat, first: string)
    requires k in pw && pw[k] == first + MARKER
    ensures ReadFrom(pw, {}, k) == Prefixed(first, ReadFrom(pw, {}, k + 1))
  {
    MarkedContinues(first);
  }

  lemma FirstPiece(sealed: string, step: nat)
    requires 0 < step <= |sealed|
    ensures Chunks(sealed, step) == [sealed[..step] + MARKER] + Chunks(sealed[step..], step)
    ensures Chunks(sealed, step)[1..] == Chunks(sealed[step..], step)
  {
  }

  /** Reading entries written by `store`: the text itself, or, for a text that
      is not storable, the text run together with the entries that follow. */
  lemma {:induction false} ReadChunks(pw: Passwords, k: nat, sealed: string, step: nat)
    requires step > 0 && HoldsFrom(pw, k, Chunks(sealed, step))
    ensures ReadFrom(pw, {}, k) ==
            if Storable(sealed, step) then Value(sealed)
            else Prefixed(Kept(sealed, step), ReadFrom(pw, {}, k + |Chunks(sealed, step)|))
    decreases |sealed|
  {
    hide *;
    if sealed == "" {
      ReadNothing(pw, k, step);
    } else if step <= |sealed| {
      var rest, first := sealed[step..], sealed[..step];
      FirstPiece(sealed, step);
      HoldsRest(pw, k, Chunks(sealed, step));
      ReadChunks(pw, k + 1, rest, step);
      ReadFull(pw, k, first);
      OnlyLastPiece(sealed, step);
      PrefixedTwice(first, Kept(rest, step), ReadFrom(pw, {}, k + 1 + |Chunks(rest, step)|));
      PrefixedValue(first, rest);
      assert sealed == first + rest;
    } else {
      OnePiece(sealed, step);
      HoldsRest(pw, k, Chunks(sealed, step));
      ReadLast(pw, k, sealed, step);
    }
  }

  lemma PrefixedValue(a: string, b: string)
    ensures Prefixed(a, Value(b)) == Value(a + b)
  {
  }

  lemma PrefixedNothing(r: ReadResult)
    ensures Prefixed("", r) == r
  {
    if r.Value? {
      assert "" + r.text == r.text;
    }
  }

  lemma MarkedContinues(piece: string)
    ensures Continues(piece + MARKER) && Stripped(piece + MARKER) == piece
  {
  }

  /** Storing and reading gives the text back, whatever stale entries follow,
      when the text is storable. */
  lemma StoreThenRead(pw: Passwords, sealed: string, step: nat)
    requires step > 0 && Storable(sealed, step)
    ensures ReadFrom(Overwritten(pw, Chunks(sealed, step)), {}, 0) == Value(sealed)
  {
    ReadChunks(Overwritten(pw, Chunks(sealed, step)), 0, sealed, step);
  }

  /** With no entry after the stored ones, it does so only then; any other text
      reads back as nothing. */
  lemma StoreThenReadExactly(pw: Passwords, sealed: string, step: nat)
    requires step > 0 && |Chunks(sealed, step)| !in pw
    ensures ReadFrom(Overwritten(pw, Chunks(sealed, step)), {}, 0) ==
            if Storable(sealed, step) then Value(sealed) else Missing
  {
    ReadChunks(Overwritten(pw, Chunks(sealed, step)), 0, sealed, step);
  }

  /** With stale entries a text that is not storable is run together with them. */
  lemma StaleEntriesLeakIn(pw: Passwords, sealed: string, step: nat)
    requires step > 0 && !Storable(sealed, step)
    ensures var n := |Chunks(sealed, step)|;
            ReadFrom(Overwritten(pw, Chunks(sealed, step)), {}, 0) == Prefixed(Kept(sealed, step), ReadFrom(pw, {}, n))
  {
    var n := |Chunks(sealed, step)|;
    var pw' := Overwritten(pw, Chunks(sealed, step));
    ReadChunks(pw', 0, sealed, step);
    ReadSame(pw', pw, n);
  }

  lemma {:induction false} ReadSame(pw: Passwords, other: Passwords, i: nat)
    requires forall k :: i <= k ==> (k in pw <==> k in other) && (k in pw ==> pw[k] == other[k])
    ensures ReadFrom(pw, {}, i) == ReadFrom(other, {}, i)
    decreases From(pw, i)
  {
    if i in pw && Continues(pw[i]) {
      assert i in From(pw, i) && i !in From(pw, i + 1);
      ReadSame(pw, other, i + 1);
    }
  }

  /** Every piece with its marker fits an entry, and each but the last fills it,
      so that no more pieces are written than needed. */
  lemma {:induction false} ChunksFit(sealed: string, step: nat, j: nat)
    requires step > 0 && j < |Chunks(sealed, step)|
    ensures |Chunks(sealed, step)[j]| <= step + |MARKER|
    ensures j + 1 < |Chunks(sealed, step)| ==> |Chunks(sealed, step)[j]| == step + |MARKER|
    decreases |sealed|
  {
    if step <= |sealed| && j > 0 {
      ChunksFit(sealed[step..], step, j - 1);
    }
  }

  lemma WrittenFits(pw: Passwords, sealed: string, step: nat, written: nat)
    requires step > 0 && written <= |Chunks(sealed, step)|
    ensures var chunks := Chunks(sealed, step);
            var pw' := Overwritten(pw, chunks[..written]);
            forall k :: 0 <= k < written ==>
              k in pw' && |pw'[k]| <= step + |MARKER| && (k + 1 < |chunks| ==> |pw'[k]| == step + |MARKER|)
  {
    var chunks := Chunks(sealed, step);
    var pw' := Overwritten(pw, chunks[..written]);
    forall k | 0 <= k < written
      ensures k in pw' && |pw'[k]| <= step + |MARKER| && (k + 1 < |chunks| ==> |pw'[k]| == step + |MARKER|) {
      ChunksFit(sealed, step, k);
      assert pw'[k] == chunks[..written][k] == chunks[k];
    }
  }

  // ---------- clearing what was stored ----------

  /** Nothing stored, nothing to clear: the read opens entry 0, which cannot be
      deleted because it does not exist. */
  lemma EmptyKeyringNotCleared(seen: nat)
    ensures Reach(map[], {}, 0) == 1 && !CanClear(map[], {}, seen)
  {
  }

  lemma ReachOfPiece(pw: Passwords, k: nat, piece: string)
    requires k in pw && pw[k] == piece
    ensures Reach(pw, {}, k) == if Continues(piece) then Reach(pw, {}, k + 1) else k + 1
  {
  }

  /** A read of stored pieces looks at the pieces alone if the text is storable,
      and otherwise goes on into the entries behind them. */
  lemma {:induction false} ReachOfChunks(pw: Passwords, k: nat, sealed: string, step: nat)
    requires step > 0 && HoldsFrom(pw, k, Chunks(sealed, step))
    ensures var n := |Chunks(sealed, step)|;
            Reach(pw, {}, k) == if Storable(sealed, step) then k + n else Reach(pw, {}, k + n)
    decreases |sealed|
  {
    hide *;
    if sealed == "" {
      ReadNothing(pw, k, step);
    } else if step <= |sealed| {
      FirstPiece(sealed, step);
      HoldsRest(pw, k, Chunks(sealed, step));
      ReachOfChunks(pw, k + 1, sealed[step..], step);
      MarkedContinues(sealed[..step]);
      ReachOfPiece(pw, k, sealed[..step] + MARKER);
      OnlyLastPiece(sealed, step);
    } else {
      OnePiece(sealed, step);
      HoldsRest(pw, k, Chunks(sealed, step));
      ReachOfPiece(pw, k, sealed);
      LastStorable(sealed, step);
    }
  }

  predicate AllThere(pw: Passwords, from: nat, to: nat) {
    forall k :: from <= k < to ==> k in pw
  }

  /** A read gives a value exactly when every entry it looks at is there. */
  lemma {:induction false} ReachReads(pw: Passwords, i: nat)
    ensures AllThere(pw, i, Reach(pw, {}, i)) <==> ReadFrom(pw, {}, i).Value?
    decreases From(pw, i)
  {
    if i in pw && Continues(pw[i]) {
      assert i in From(pw, i) && i !in From(pw, i + 1);
      ReachReads(pw, i + 1);
      ReachOfPiece(pw, i, pw[i]);
    }
  }

  lemma LastStorable(sealed: string, step: nat)
    requires step > |sealed| > 0
    ensures Storable(sealed, step) <==> !Continues(sealed)
  {
    StorableByPiece(sealed, step);
    hide Storable;
  }

  lemma {:induction false} ReachSame(pw: Passwords, other: Passwords, i: nat)
    requires forall k :: i <= k ==> (k in pw <==> k in other) && (k in pw ==> pw[k] == other[k])
    ensures Reach(pw, {}, i) == Reach(other, {}, i)
    decreases From(pw, i)
  {
    if i in pw && Continues(pw[i]) {
      assert i in From(pw, i) && i !in From(pw, i + 1);
      assert i in From(other, i) && i !in From(other, i + 1);
      ReachSame(pw, other, i + 1);
    }
  }

  /** What was stored can be cleared exactly when it is storable, or the entries
      that stand behind it read as a text of their own; and the entries opened
      before are there too. */
  lemma ClearAfterStoreExactly(pw: Passwords, sealed: string, step: nat, seen: nat)
    requires step > 0
    ensures var n := |Chunks(sealed, step)|;
            CanClear(Overwritten(pw, Chunks(sealed, step)), {}, seen) <==>
            (Storable(sealed, step) || ReadFrom(pw, {}, n).Value?) && AllThere(pw, n, seen)
  {
    var n, pw' := |Chunks(sealed, step)|, Overwritten(pw, Chunks(sealed, step));
    assert HoldsFrom(pw', 0, Chunks(sealed, step));
    ReachOfChunks(pw', 0, sealed, step);
    ReachSame(pw', pw, n);
    ReachReads(pw, n);
    var known := Known(pw', {}, seen);
    OverwrittenThere(pw, Chunks(sealed, step), known);
    hide Chunks, Storable, ReadFrom, Overwritten, HoldsFrom;
    assert CanClear(pw', {}, seen) <==> AllThere(pw', 0, known);
    assert n <= Reach(pw', {}, 0);
    SplitThere(pw', 0, n, known);
  }

  lemma OverwrittenThere(pw: Passwords, chunks: seq<string>, to: nat)
    ensures AllThere(Overwritten(pw, chunks), 0, |chunks|)
    ensures AllThere(Overwritten(pw, chunks), |chunks|, to) <==> AllThere(pw, |chunks|, to)
  {
    var pw' := Overwritten(pw, chunks);
    forall k: nat | |chunks| <= k ensures k in pw' <==> k in pw {
    }
  }

  lemma SplitThere(pw: Passwords, from: nat, mid: nat, to: nat)
    requires from <= mid <= to
    ensures AllThere(pw, from, to) <==> AllThere(pw, from, mid) && AllThere(pw, mid, to)
  {
  }

  /** Otherwise a fresh process deletes every piece, and the clear fails. */
  lemma UnclearedPieces(pw: Passwords, sealed: string, step: nat)
    requires step > 0 && !CanClear(Overwritten(pw, Chunks(sealed, step)), {}, 0)
    ensures AllThere(Overwritten(pw, Chunks(sealed, step)), 0, |Chunks(sealed, step)|)
    ensures Known(Overwritten(pw, Chunks(sealed, step)), {}, 0) > |Chunks(sealed, step)|
  {
    var n, pw' := |Chunks(sealed, step)|, Overwritten(pw, Chunks(sealed, step));
    OverwrittenThere(pw, Chunks(sealed, step), 0);
    ClearAfterStoreExactly(pw, sealed, step, 0);
    ReachOfChunks(pw', 0, sealed, step);
  }

  /** For example: a text of two characters, in pieces of one, is not read back,
      and clearing it fails. */
  lemma TwoFullPieces()
    ensures Chunks("ab", 1) == ["a" + MARKER, "b" + MARKER]
    ensures var pw := Overwritten(map[], Chunks("ab", 1));
            ReadFrom(pw, {}, 0) == Missing && !CanClear(pw, {}, 0)
  {
    assert "ab"[1..] == "b" && "b"[1..] == "" && "ab"[..1] == "a" && "b"[..1] == "b";
    assert Chunks("b", 1) == ["b" + MARKER] + Chunks("", 1);
    assert Chunks("ab", 1) == ["a" + MARKER] + Chunks("b", 1);
    StoreThenReadExactly(map[], "ab", 1);
    ClearAfterStoreExactly(map[], "ab", 1, 0);
  }

  /** A stale entry behind the same text makes it readable, as another text, and
      clearable. */
  lemma StaleMakesClearable()
    ensures var pw := Overwritten(map[2 := "x"], Chunks("ab", 1));
            ReadFrom(pw, {}, 0) == Value("abx") && CanClear(pw, {}, 0)
  {
    TwoFullPieces();
    var pw: Passwords := map[2 := "x"];
    assert !Storable("ab", 1) by { StoreThenReadExactly(map[], "ab", 1); }
    StaleEntriesLeakIn(pw, "ab", 1);
    assert ReadFrom(pw, {}, 2) == Value("x");
    assert Kept("ab", 1) == "ab" by {
      KeptIs("ab", 1);
      assert "ab"[1..] == "b" && "b"[1..] == "";
      assert LastPiece("ab", 1) == LastPiece("b", 1) == LastPiece("", 1) == "";
    }
    ClearAfterStoreExactly(pw, "ab", 1, 0);
  }
}
