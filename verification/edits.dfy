/** Formatting edits, applied to a text from the last to the first so that the
    offsets of the edits still to come stay valid. */
module Edits {

  datatype Edit = Edit(start: nat, length: nat, newText: string)

  /** JavaScript's `substring` on offsets that are not negative: clamped to the
      text, and with its ends swapped when they are out of order. */
  function Substring(text: string, a: nat, b: nat): string {
    var x, y := if a < |text| then a else |text|, if b < |text| then b else |text|;
    if x <= y then text[x..y] else text[y..x]
  }

  function SubstringFrom(text: string, a: nat): string {
    Substring(text, a, |text|)
  }

  /** Sorted, non-overlapping edits that lie within the text from `from` on. */
  predicate Applicable(text: string, edits: seq<Edit>, from: nat) {
    if edits == [] then from <= |text|
    else from <= edits[0].start && Applicable(text, edits[1..], edits[0].start + edits[0].length)
  }

  /** The text from `from` on with all edits made at once: the untouched gaps
      of the original interleaved with the new texts. */
  function Replaced(text: string, edits: seq<Edit>, from: nat): string
    requires Applicable(text, edits, from)
    decreases |edits|
  {
    if edits == [] then text[from..] else
      ApplicableInRange(text, edits, from);
      text[from..edits[0].start] + edits[0].newText +
      Replaced(text, edits[1..], edits[0].start + edits[0].length)
  }

  lemma {:induction false} ApplicableInRange(text: string, edits: seq<Edit>, from: nat)
    requires Applicable(text, edits, from)
    ensures from <= |text|
    ensures forall k :: 0 <= k < |edits| ==> from <= edits[k].start && edits[k].start + edits[k].length <= |text|
    decreases |edits|
  {
    if edits != [] {
      ApplicableInRange(text, edits[1..], edits[0].start + edits[0].length);
      forall k | 0 <= k < |edits|
        ensures from <= edits[k].start && edits[k].start + edits[k].length <= |text| {
        if k > 0 {
          assert edits[k] == edits[1..][k - 1];
        }
      }
    }
  }

  lemma {:induction false} ApplicableSuffix(text: string, edits: seq<Edit>, from: nat, k: nat)
    requires Applicable(text, edits, from) && k < |edits|
    ensures Applicable(text, edits[k..], if k == 0 then from else edits[k - 1].start + edits[k - 1].length)
    decreases k
  {
    if k == 0 {
      assert edits[0..] == edits;
    } else {
      ApplicableSuffix(text, edits[1..], edits[0].start + edits[0].length, k - 1);
      assert edits[1..][k - 1..] == edits[k..];
      assert k > 1 ==> edits[1..][k - 2] == edits[k - 1];
    }
  }

  // ---------- where every character ends up ----------

  /** How far the edits before offset `p` move it. */
  function Shift(edits: seq<Edit>, p: nat): int {
    if edits == [] || p < edits[0].start + edits[0].length then 0
    else |edits[0].newText| - edits[0].length + Shift(edits[1..], p)
  }

  predicate Untouched(edits: seq<Edit>, p: nat) {
    forall k :: 0 <= k < |edits| ==> p < edits[k].start || edits[k].start + edits[k].length <= p
  }

  lemma UntouchedRest(edits: seq<Edit>, p: nat)
    requires edits != [] && Untouched(edits, p)
    ensures Untouched(edits[1..], p)
    ensures p < edits[0].start || edits[0].start + edits[0].length <= p
  {
    forall k | 0 <= k < |edits[1..]|
      ensures p < edits[1..][k].start || edits[1..][k].start + edits[1..][k].length <= p {
      assert edits[1..][k] == edits[k + 1];
    }
  }

  /** What the first edit does: a gap, the new text, and the rest. */
  lemma FirstEdit(text: string, edits: seq<Edit>, from: nat)
    requires edits != [] && Applicable(text, edits, from)
    ensures var cut := edits[0].start + edits[0].length;
            from <= edits[0].start && cut <= |text| && Applicable(text, edits[1..], cut) &&
            Replaced(text, edits, from) ==
            text[from..edits[0].start] + (edits[0].newText + Replaced(text, edits[1..], cut))
  {
    ApplicableInRange(text, edits, from);
  }

  lemma InPrefix(a: string, b: string, i: nat)
    requires i < |a|
    ensures (a + b)[i] == a[i]
  {
  }

  lemma InSuffix(a: string, b: string, i: nat)
    requires i < |b|
    ensures |a| + i < |a + b| && (a + b)[|a| + i] == b[i]
  {
  }

  /** Every character outside the edits survives, at its shifted place. */
  lemma {:induction false} UntouchedSurvives(text: string, edits: seq<Edit>, from: nat, p: nat)
    requires Applicable(text, edits, from) && from <= p < |text| && Untouched(edits, p)
    ensures var q := p + Shift(edits, p) - from;
            0 <= q < |Replaced(text, edits, from)| && Replaced(text, edits, from)[q] == text[p]
    decreases |edits|
  {
    if edits != [] {
      UntouchedRest(edits, p);
      FirstEdit(text, edits, from);
      var e, rest := edits[0], edits[1..];
      hide Replaced, Applicable, Untouched;
      if p < e.start {
        InPrefix(text[from..e.start], e.newText + Replaced(text, rest, e.start + e.length), p - from);
      } else {
        UntouchedSurvives(text, rest, e.start + e.length, p);
        LaterSurvives(text, edits, from, p + Shift(rest, p) - (e.start + e.length));
      }
    }
  }

  /** A place in the rest of the text, in the whole. */
  lemma LaterSurvives(text: string, edits: seq<Edit>, from: nat, q: nat)
    requires edits != [] && Applicable(text, edits, from)
    requires var cut := edits[0].start + edits[0].length;
             cut <= |text| && Applicable(text, edits[1..], cut) && q < |Replaced(text, edits[1..], cut)|
    ensures var e := edits[0];
            var q' := e.start - from + |e.newText| + q;
            0 <= q' < |Replaced(text, edits, from)| &&
            Replaced(text, edits, from)[q'] == Replaced(text, edits[1..], e.start + e.length)[q]
  {
    FirstEdit(text, edits, from);
    hide *;
    var e := edits[0];
    var tail := Replaced(text, edits[1..], e.start + e.length);
    InSuffix(e.newText, tail, q);
    InSuffix(text[from..e.start], e.newText + tail, |e.newText| + q);
  }

  /** How much the first `k` edits lengthen the text. */
  function Growth(edits: seq<Edit>, k: nat): int {
    if k == 0 || edits == [] then 0
    else |edits[0].newText| - edits[0].length + Growth(edits[1..], k - 1)
  }

  lemma GrowthStep(edits: seq<Edit>, k: nat)
    ensures k == 0 ==> Growth(edits, k) == 0
    ensures k > 0 && edits != [] ==>
              Growth(edits, k) == |edits[0].newText| - edits[0].length + Growth(edits[1..], k - 1)
  {
  }

  predicate StandsAt(piece: string, q: int, text: string) {
    0 <= q && q + |piece| <= |text| && text[q..q + |piece|] == piece
  }

  lemma StandsAfter(piece: string, q: int, before: string, text: string)
    requires StandsAt(piece, q, text)
    ensures StandsAt(piece, |before| + q, before + text)
  {
    assert (before + text)[|before|..] == text;
  }

  lemma StandsAfterTwo(piece: string, q: int, a: string, b: string, text: string)
    requires StandsAt(piece, q, text)
    ensures StandsAt(piece, |a| + |b| + q, a + (b + text))
  {
    hide StandsAt;
    StandsAfter(piece, q, b, text);
    StandsAfter(piece, |b| + q, a, b + text);
  }

  lemma StandsFirst(piece: string, rest: string)
    ensures StandsAt(piece, 0, piece + rest)
  {
  }

  /** Every new text appears where its edit starts, moved by the edits before
      it, and nothing else is added: the lengths add up. */
  lemma {:induction false} NewTextAppears(text: string, edits: seq<Edit>, from: nat, k: nat)
    requires Applicable(text, edits, from) && k < |edits|
    ensures StandsAt(edits[k].newText, edits[k].start + Growth(edits, k) - from, Replaced(text, edits, from))
    decreases k
  {
    hide *;
    GrowthStep(edits, k);
    if k > 0 {
      var e, rest, edit := edits[0], edits[1..], edits[k];
      var cut, at := e.start + e.length, edit.start + Growth(rest, k - 1);
      FirstEdit(text, edits, from);
      NewTextAppears(text, rest, cut, k - 1);
      assert rest[k - 1] == edit;
      LaterTextAppears(text, edits, from, edit.newText, at);
    } else {
      FirstTextAppears(text, edits, from);
    }
  }

  lemma FirstTextAppears(text: string, edits: seq<Edit>, from: nat)
    requires edits != [] && Applicable(text, edits, from)
    ensures StandsAt(edits[0].newText, edits[0].start - from, Replaced(text, edits, from))
  {
    FirstEdit(text, edits, from);
    hide *;
    var e := edits[0];
    var tail := Replaced(text, edits[1..], e.start + e.length);
    StandsFirst(e.newText, tail);
    StandsAfter(e.newText, 0, text[from..e.start], e.newText + tail);
  }

  /** What stands in the rest of the text stands in the whole. */
  lemma LaterTextAppears(text: string, edits: seq<Edit>, from: nat, piece: string, at: int)
    requires edits != [] && Applicable(text, edits, from)
    requires var cut := edits[0].start + edits[0].length;
             cut <= |text| && Applicable(text, edits[1..], cut) &&
             StandsAt(piece, at - cut, Replaced(text, edits[1..], cut))
    ensures StandsAt(piece, at + |edits[0].newText| - edits[0].length - from, Replaced(text, edits, from))
  {
    FirstEdit(text, edits, from);
    hide *;
    var e := edits[0];
    var tail := Replaced(text, edits[1..], e.start + e.length);
    var q := at - (e.start + e.length);
    StandsAfterTwo(piece, q, text[from..e.start], e.newText, tail);
  }

  lemma {:induction false} LengthsAddUp(text: string, edits: seq<Edit>, from: nat)
    requires Applicable(text, edits, from)
    ensures |Replaced(text, edits, from)| == |text| - from + Growth(edits, |edits|)
    decreases |edits|
  {
    GrowthStep(edits, |edits|);
    if edits != [] {
      var cut := edits[0].start + edits[0].length;
      FirstEdit(text, edits, from);
      hide *;
      LengthsAddUp(text, edits[1..], cut);
      var tail := Replaced(text, edits[1..], cut);
      assert |edits[0].newText + tail| == |edits[0].newText| + |tail|;
    }
  }

  // ---------- the loop ----------

  lemma Sliced(a: string, tail: string, start: nat)
    requires start <= |a|
    ensures Substring(a + tail, 0, start) == a[..start] && SubstringFrom(a + tail, |a|) == tail
  {
  }

  function Edited(content: string, edit: Edit): string {
    Substring(content, 0, edit.start) + edit.newText + SubstringFrom(content, edit.start + edit.length)
  }

  /** One more edit, made on a text whose part before `edits[0]` is original. */
  lemma EditMade(text: string, edits: seq<Edit>, from: nat, content: string)
    requires edits != [] && Applicable(text, edits, from)
    requires var cut := edits[0].start + edits[0].length;
             cut <= |text| && Applicable(text, edits[1..], cut) &&
             content == text[..cut] + Replaced(text, edits[1..], cut)
    ensures from <= |text| && Edited(content, edits[0]) == text[..from] + Replaced(text, edits, from)
  {
    FirstEdit(text, edits, from);
    var e := edits[0];
    var cut := e.start + e.length;
    var tail := Replaced(text, edits[1..], cut);
    Sliced(text[..cut], tail, e.start);
    assert text[..cut][..e.start] == text[..e.start];
    hide Substring, SubstringFrom, Replaced, Applicable;
    assert text[..e.start] == text[..from] + text[from..e.start];
    assert text[..from] + text[from..e.start] + e.newText + tail ==
           text[..from] + (text[from..e.start] + (e.newText + tail));
  }

  /** Where the part of the text still unchanged by edits `i..` ends. */
  function Cut(edits: seq<Edit>, i: nat): nat
    requires i <= |edits|
  {
    if i == 0 then 0 else edits[i - 1].start + edits[i - 1].length
  }

  /** The edits from the `i`-th on have been made, if they are applicable. */
  predicate Done(text: string, edits: seq<Edit>, i: nat, content: string) {
    i <= |edits| && Applicable(text, edits[i..], Cut(edits, i)) && Cut(edits, i) <= |text| &&
    content == text[..Cut(edits, i)] + Replaced(text, edits[i..], Cut(edits, i))
  }

  lemma NoneDone(text: string, edits: seq<Edit>)
    requires Applicable(text, edits, 0)
    ensures Done(text, edits, |edits|, text)
  {
    ApplicableInRange(text, edits, 0);
    assert edits[|edits|..] == [];
    assert text[..Cut(edits, |edits|)] + text[Cut(edits, |edits|)..] == text;
  }

  lemma OneMoreDone(text: string, edits: seq<Edit>, i: nat, content: string)
    requires Applicable(text, edits, 0) && i < |edits| && Done(text, edits, i + 1, content)
    ensures Done(text, edits, i, Edited(content, edits[i]))
  {
    ApplicableSuffix(text, edits, 0, i);
    assert edits[i..][1..] == edits[i + 1..] && edits[i..][0] == edits[i];
    hide Applicable, Replaced, Edited;
    EditMade(text, edits[i..], Cut(edits, i), content);
  }

  lemma AllDone(text: string, edits: seq<Edit>, content: string)
    requires Applicable(text, edits, 0) && Done(text, edits, 0, content)
    ensures content == Replaced(text, edits, 0)
  {
    assert edits[0..] == edits && text[..0] == "";
  }

  /** Applying the edits in reverse is replacing them all simultaneously. */
  method ApplyEdits(text: string, edits: seq<Edit>) returns (content: string)
    ensures Applicable(text, edits, 0) ==> content == Replaced(text, edits, 0)
  {
    hide Applicable, Replaced, Done;
    content := text;
    if Applicable(text, edits, 0) {
      NoneDone(text, edits);
    }
    for i := |edits| downto 0
      invariant Applicable(text, edits, 0) ==> Done(text, edits, i, content)
    {
      var edit := edits[i];
      if Applicable(text, edits, 0) {
        OneMoreDone(text, edits, i, content);
      }
      content := Substring(content, 0, edit.start) + edit.newText + SubstringFrom(content, edit.start + edit.length);
    }
    if Applicable(text, edits, 0) {
      AllDone(text, edits, content);
    }
  }
}
