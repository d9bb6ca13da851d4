/** What a stream delivers of the segments it was asked to write. `write_all`
    delivers a segment in full, or fails after a prefix of it; a failure also
    drops the rest of its batch. So what arrives is a prefix of every segment. */
module Delivery {
  import opened Sequences

  type Segment = seq<Byte>

  /** `keep` says how many bytes of each segment are kept. */
  predicate Fits(segs: seq<Segment>, keep: seq<nat>) {
    |keep| == |segs| && forall i :: 0 <= i < |segs| ==> keep[i] <= |segs[i]|
  }

  /** The kept prefixes, one after the other. */
  function Trimmed(segs: seq<Segment>, keep: seq<nat>): seq<Byte>
    requires Fits(segs, keep)
  {
    if segs == [] then [] else segs[0][..keep[0]] + Trimmed(segs[1..], keep[1..])
  }

  ghost predicate Prefixes(bytes: seq<Byte>, segs: seq<Segment>) {
    exists keep :: Fits(segs, keep) && bytes == Trimmed(segs, keep)
  }

  lemma {:induction false} TrimmedConcat(a: seq<Segment>, ka: seq<nat>, b: seq<Segment>, kb: seq<nat>)
    requires Fits(a, ka) && Fits(b, kb)
    ensures Fits(a + b, ka + kb) && Trimmed(a + b, ka + kb) == Trimmed(a, ka) + Trimmed(b, kb)
  {
    if a == [] {
      assert a + b == b && ka + kb == kb;
    } else {
      assert (a + b)[1..] == a[1..] + b && (ka + kb)[1..] == ka[1..] + kb;
      TrimmedConcat(a[1..], ka[1..], b, kb);
    }
  }

  lemma PrefixesConcat(x: seq<Byte>, a: seq<Segment>, y: seq<Byte>, b: seq<Segment>)
    requires Prefixes(x, a) && Prefixes(y, b)
    ensures Prefixes(x + y, a + b)
  {
    var ka :| Fits(a, ka) && x == Trimmed(a, ka);
    var kb :| Fits(b, kb) && y == Trimmed(b, kb);
    TrimmedConcat(a, ka, b, kb);
  }

  /** One segment may be kept up to any point. */
  lemma PrefixOfOne(head: seq<Byte>, rest: seq<Byte>)
    ensures Prefixes(head, [head + rest])
  {
    var segs, keep := [head + rest], [|head|];
    assert segs[1..] == [] && keep[1..] == [];
    assert Fits(segs, keep) && Trimmed(segs, keep) == head;
  }

  lemma {:induction false} PrefixesOfAll(segs: seq<Segment>)
    ensures Prefixes(Flatten(segs), segs)
  {
    if segs == [] {
      assert Trimmed([], []) == [];
    } else {
      PrefixesOfAll(segs[1..]);
      PrefixOfOne(segs[0], []);
      assert segs[0] + [] == segs[0] && [segs[0]] + segs[1..] == segs;
      PrefixesConcat(segs[0], [segs[0]], Flatten(segs[1..]), segs[1..]);
    }
  }

  lemma {:induction false} PrefixesOfNone(segs: seq<Segment>)
    ensures Prefixes([], segs)
  {
    if segs == [] {
      assert Trimmed([], []) == [];
    } else {
      PrefixesOfNone(segs[1..]);
      PrefixOfOne([], segs[0]);
      assert [] + segs[0] == segs[0] && [segs[0]] + segs[1..] == segs;
      PrefixesConcat([], [segs[0]], [], segs[1..]);
    }
  }

  // ---------- where a write loop stands ----------

  /** The batch with the written part of its first segment put back. */
  function Begun(head: seq<Byte>, items: seq<Segment>): seq<Segment> {
    if items == [] then [] else [head + items[0]] + items[1..]
  }

  /** The segments `segs` are those done with, the batch, and the queue; `sent`
      is what was kept of the first, and the begun part of the second. */
  ghost predicate PlacedAt(segs: seq<Segment>, sent: seq<Byte>, items: seq<Segment>, q: seq<Segment>, exact: bool,
      past: seq<Segment>, before: seq<Byte>, head: seq<Byte>) {
    segs == past + Begun(head, items) + q && sent == before + head && (items == [] ==> head == []) &&
    Prefixes(before, past) && (exact ==> before == Flatten(past))
  }

  ghost predicate Placed(segs: seq<Segment>, sent: seq<Byte>, items: seq<Segment>, q: seq<Segment>, exact: bool) {
    exists past, before, head :: PlacedAt(segs, sent, items, q, exact, past, before, head)
  }

  lemma Place(segs: seq<Segment>, sent: seq<Byte>, items: seq<Segment>, q: seq<Segment>, exact: bool)
    returns (past: seq<Segment>, before: seq<Byte>, head: seq<Byte>)
    requires Placed(segs, sent, items, q, exact)
    ensures PlacedAt(segs, sent, items, q, exact, past, before, head)
  {
    past, before, head :| PlacedAt(segs, sent, items, q, exact, past, before, head);
  }

  lemma BegunBare(items: seq<Segment>)
    ensures Begun([], items) == items
  {
    if items != [] {
      assert [] + items[0] == items[0];
      assert [items[0]] + items[1..] == items;
    }
  }

  lemma BegunMoves(head: seq<Byte>, items: seq<Segment>, n: nat)
    requires items != [] && n <= |items[0]|
    ensures Begun(head + items[0][..n], [items[0][n..]] + items[1..]) == Begun(head, items)
  {
    var part, rest := items[0][..n], items[0][n..];
    assert part + rest == items[0];
    assert head + part + rest == head + items[0];
    assert ([rest] + items[1..])[1..] == items[1..];
  }

  /** Everything still waiting is in the queue. */
  lemma AllQueued(q: seq<Segment>)
    ensures Placed(q, [], [], q, true)
  {
    PrefixesOfNone([]);
    assert [] + Begun([], []) + q == q;
    assert PlacedAt(q, [], [], q, true, [], [], []);
  }

  lemma MoreQueued(segs: seq<Segment>, sent: seq<Byte>, items: seq<Segment>, q: seq<Segment>, exact: bool,
      more: seq<Segment>)
    requires Placed(segs, sent, items, q, exact)
    ensures Placed(segs + more, sent, items, q + more, exact)
  {
    var past, before, head := Place(segs, sent, items, q, exact);
    hide Prefixes, Flatten, Begun;
    assert segs + more == past + Begun(head, items) + (q + more);
    assert PlacedAt(segs + more, sent, items, q + more, exact, past, before, head);
  }

  lemma QueueTaken(segs: seq<Segment>, sent: seq<Byte>, q: seq<Segment>, exact: bool)
    requires Placed(segs, sent, [], q, exact)
    ensures Placed(segs, sent, q, [], exact)
  {
    var past, before, head := Place(segs, sent, [], q, exact);
    BegunBare(q);
    BegunBare([]);
    hide Prefixes, Flatten, Begun;
    assert past + [] + q == past + q + [];
    assert PlacedAt(segs, sent, q, [], exact, past, before, []);
  }

  lemma PartSent(segs: seq<Segment>, sent: seq<Byte>, items: seq<Segment>, q: seq<Segment>, exact: bool, n: nat)
    requires Placed(segs, sent, items, q, exact) && items != [] && n <= |items[0]|
    ensures Placed(segs, sent + items[0][..n], [items[0][n..]] + items[1..], q, exact)
  {
    hide Prefixes, Flatten, Begun;
    var past, before, head := Place(segs, sent, items, q, exact);
    BegunMoves(head, items, n);
    var part, left := items[0][..n], [items[0][n..]] + items[1..];
    assert left != [];
    assert sent + part == before + (head + part);
    assert PlacedAt(segs, sent + part, left, q, exact, past, before, head + part);
  }

  lemma BegunDone(head: seq<Byte>, items: seq<Segment>)
    requires items != [] && items[0] == []
    ensures Begun(head, items) == [head] + items[1..]
  {
    assert head + [] == head;
  }

  lemma ItemDone(segs: seq<Segment>, sent: seq<Byte>, items: seq<Segment>, q: seq<Segment>, exact: bool)
    requires Placed(segs, sent, items, q, exact) && items != [] && items[0] == []
    ensures Placed(segs, sent, items[1..], q, exact)
  {
    hide Prefixes, Flatten, Begun;
    var past, before, head := Place(segs, sent, items, q, exact);
    var rest := items[1..];
    WholeOne(before, past, head);
    FlattenSnoc(past, head);
    BegunDone(head, items);
    BegunBare(rest);
    assert past + ([head] + rest) == past + [head] + rest;
    assert sent + [] == sent;
    assert PlacedAt(segs, sent, rest, q, exact, past + [head], sent, []);
  }

  lemma WholeOne(x: seq<Byte>, past: seq<Segment>, head: seq<Byte>)
    requires Prefixes(x, past)
    ensures Prefixes(x + head, past + [head])
  {
    PrefixOfOne(head, []);
    assert head + [] == head;
    PrefixesConcat(x, past, head, [head]);
  }

  lemma ItemSent(segs: seq<Segment>, sent: seq<Byte>, items: seq<Segment>, q: seq<Segment>, exact: bool)
    requires Placed(segs, sent, items, q, exact) && items != []
    ensures Placed(segs, sent + items[0], items[1..], q, exact)
  {
    hide Placed;
    var item := items[0];
    PartSent(segs, sent, items, q, exact, |item|);
    assert item[..|item|] == item && item[|item|..] == [];
    var left := [item[|item|..]] + items[1..];
    assert left[1..] == items[1..];
    ItemDone(segs, sent + item, left, q, exact);
  }

  /** A failure drops what is left of the batch. */
  lemma BatchDropped(segs: seq<Segment>, sent: seq<Byte>, items: seq<Segment>, q: seq<Segment>, exact: bool)
    requires Placed(segs, sent, items, q, exact) && items != []
    ensures Placed(segs, sent, [], q, false)
  {
    var past, before, head := Place(segs, sent, items, q, exact);
    var rest := items[1..];
    PrefixOfOne(head, items[0]);
    PrefixesOfNone(rest);
    PrefixesConcat(head, [head + items[0]], [], rest);
    PrefixesConcat(before, past, head + [], Begun(head, items));
    assert head + [] == head;
    hide Prefixes, Flatten, Begun;
    assert segs == past + Begun(head, items) + [] + q;
    assert PlacedAt(segs, sent, [], q, false, past + Begun(head, items), sent, []) by {
      BegunBare([]);
    }
  }

  /** What was sent, is in the batch and is queued are prefixes of the segments
      in order, and all of them in full where nothing failed. */
  lemma PlacedKeeps(segs: seq<Segment>, sent: seq<Byte>, items: seq<Segment>, q: seq<Segment>, exact: bool)
    requires Placed(segs, sent, items, q, exact)
    ensures Prefixes(sent + Flatten(items) + Flatten(q), segs)
    ensures exact ==> sent + Flatten(items) + Flatten(q) == Flatten(segs)
  {
    hide Prefixes, Flatten, Begun;
    var past, before, head := Place(segs, sent, items, q, exact);
    var batch := Begun(head, items);
    BegunBytes(head, items);
    assert sent + Flatten(items) == before + Flatten(batch);
    WholeMore(before, past, batch);
    WholeMore(before + Flatten(batch), past + batch, q);
    FlattenConcat(past, batch);
    FlattenConcat(past + batch, q);
  }

  lemma WholeMore(x: seq<Byte>, past: seq<Segment>, more: seq<Segment>)
    requires Prefixes(x, past)
    ensures Prefixes(x + Flatten(more), past + more)
  {
    PrefixesOfAll(more);
    PrefixesConcat(x, past, Flatten(more), more);
  }

  lemma BegunBytes(head: seq<Byte>, items: seq<Segment>)
    requires items == [] ==> head == []
    ensures Flatten(Begun(head, items)) == head + Flatten(items)
  {
    if items != [] {
      assert Begun(head, items)[1..] == items[1..];
    }
  }
}
