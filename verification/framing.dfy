/** Incremental decoding of self-delimiting messages: a buffer that grows by
    whatever a read returned, and a decoder that takes whole messages off its
    front. The message parser is a parameter. */
module Framing {
  import opened Sequences

  /** What the parser makes of the front of a buffer. */
  datatype Parse<+T> = NeedMore | Malformed | Parsed(obj: T, len: nat)

  type Parser<!T> = seq<Byte> -> Parse<T>

  datatype Frame<+T> = Frame(obj: T, bytes: seq<Byte>)

  /** A verdict stands whatever follows, and a message is not empty and lies in
      the bytes looked at. Only "need more" may be revised. */
  ghost predicate SelfDelimiting<T(!new)>(parse: Parser<T>) {
    forall b, more ::
      (parse(b).Parsed? ==> 0 < parse(b).len <= |b| && parse(b + more) == parse(b)) &&
      (parse(b).Malformed? ==> parse(b + more).Malformed?)
  }

  lemma Stands<T(!new)>(parse: Parser<T>, b: seq<Byte>, more: seq<Byte>)
    requires SelfDelimiting(parse)
    ensures parse(b).Parsed? ==> 0 < parse(b).len <= |b| && parse(b + more) == parse(b)
    ensures parse(b).Malformed? ==> parse(b + more).Malformed?
  {
  }

  /** A buffer taken apart: its messages, the bytes left, and whether decoding
      stopped at a malformed message. */
  datatype Decoded<+T> = Decoded(frames: seq<Frame<T>>, rest: seq<Byte>, failed: bool)

  ghost function DecodeAll<T(!new)>(parse: Parser<T>, b: seq<Byte>): Decoded<T>
    requires SelfDelimiting(parse)
    decreases |b|
  {
    Stands(parse, b, []);
    match parse(b)
    case NeedMore => Decoded([], b, false)
    case Malformed => Decoded([], b, true)
    case Parsed(obj, len) =>
      var d := DecodeAll(parse, b[len..]);
      Decoded([Frame(obj, b[..len])] + d.frames, d.rest, d.failed)
  }

  function FrameBytes<T>(frames: seq<Frame<T>>): seq<Byte> {
    if frames == [] then [] else frames[0].bytes + FrameBytes(frames[1..])
  }

  lemma FrameBytesCons<T>(f: Frame<T>, frames: seq<Frame<T>>)
    ensures FrameBytes([f] + frames) == f.bytes + FrameBytes(frames)
  {
    assert ([f] + frames)[1..] == frames;
  }

  /** Nothing is lost or invented: the messages and the rest are the buffer. */
  lemma {:induction false} DecodeConserves<T(!new)>(parse: Parser<T>, b: seq<Byte>)
    requires SelfDelimiting(parse)
    ensures var d := DecodeAll(parse, b);
            FrameBytes(d.frames) + d.rest == b && (!d.failed ==> parse(d.rest).NeedMore?)
    decreases |b|
  {
    hide SelfDelimiting;
    Stands(parse, b, []);
    if parse(b).Parsed? {
      var first := Frame(parse(b).obj, b[..parse(b).len]);
      var inner := DecodeAll(parse, b[parse(b).len..]);
      DecodeConserves(parse, b[parse(b).len..]);
      FrameBytesCons(first, inner.frames);
      hide FrameBytes, DecodeAll;
      Prepend(first.bytes, FrameBytes(inner.frames), inner.rest);
    }
  }

  /** Bytes that arrive later only add messages. */
  lemma {:induction false} DecodeSplit<T(!new)>(parse: Parser<T>, b: seq<Byte>, more: seq<Byte>)
    requires SelfDelimiting(parse)
    ensures var d := DecodeAll(parse, b);
            var whole := DecodeAll(parse, b + more);
            if d.failed then whole.frames == d.frames && whole.failed
            else var later := DecodeAll(parse, d.rest + more);
                 whole == Decoded(d.frames + later.frames, later.rest, later.failed)
    decreases |b|
  {
    hide SelfDelimiting;
    Stands(parse, b, more);
    match parse(b)
    case NeedMore =>
      var later := DecodeAll(parse, b + more);
      assert [] + later.frames == later.frames;
    case Malformed =>
    case Parsed(obj, len) =>
      assert (b + more)[len..] == b[len..] + more && (b + more)[..len] == b[..len];
      DecodeSplit(parse, b[len..], more);
      Prepend([Frame(obj, b[..len])], DecodeAll(parse, b[len..]).frames,
              DecodeAll(parse, DecodeAll(parse, b[len..]).rest + more).frames);
  }

  lemma Prepend<T>(first: seq<T>, middle: seq<T>, last: seq<T>)
    ensures first + (middle + last) == first + middle + last
  {
  }

  /** Decoding chunk by chunk; a malformed message ends it, and the chunks after
      it are never read. */
  ghost function DecodeChunks<T(!new)>(parse: Parser<T>, buf: seq<Byte>, chunks: seq<seq<Byte>>): Decoded<T>
    requires SelfDelimiting(parse)
    decreases |chunks|
  {
    if chunks == [] then Decoded([], buf, false) else
      var d := DecodeAll(parse, buf + chunks[0]);
      if d.failed then d else
        var later := DecodeChunks(parse, d.rest, chunks[1..]);
        Decoded(d.frames + later.frames, later.rest, later.failed)
  }

  /** Chunking does not matter: the same messages, and the same verdict, as for
      the bytes in one piece. Without a malformed message the rest agrees too. */
  lemma {:induction false} ChunkingIrrelevant<T(!new)>(parse: Parser<T>, buf: seq<Byte>, chunks: seq<seq<Byte>>)
    requires SelfDelimiting(parse) && parse(buf).NeedMore?
    ensures var whole := DecodeAll(parse, buf + Flatten(chunks));
            var d := DecodeChunks(parse, buf, chunks);
            d.frames == whole.frames && d.failed == whole.failed && (!d.failed ==> d.rest == whole.rest)
    decreases |chunks|
  {
    hide SelfDelimiting;
    if chunks == [] {
      assert buf + [] == buf;
    } else {
      hide DecodeAll;
      var first, more := buf + chunks[0], Flatten(chunks[1..]);
      assert buf + Flatten(chunks) == first + more;
      DecodeSplit(parse, first, more);
      var d := DecodeAll(parse, first);
      if !d.failed {
        DecodeConserves(parse, first);
        ChunkingIrrelevant(parse, d.rest, chunks[1..]);
      }
    }
  }

  /** Over a whole connection too, messages and rest are the bytes received;
      after a malformed message, a prefix of them was dispatched. */
  lemma ChunksConserve<T(!new)>(parse: Parser<T>, chunks: seq<seq<Byte>>)
    requires SelfDelimiting(parse) && parse([]).NeedMore?
    ensures var d := DecodeChunks(parse, [], chunks);
            (!d.failed ==> FrameBytes(d.frames) + d.rest == Flatten(chunks)) &&
            FrameBytes(d.frames) <= Flatten(chunks)
  {
    assert [] + Flatten(chunks) == Flatten(chunks);
    ChunkingIrrelevant(parse, [], chunks);
    DecodeConserves(parse, Flatten(chunks));
  }

  /** Two ways of cutting the same bytes give the same messages. */
  lemma AnyTwoChunkings<T(!new)>(parse: Parser<T>, some: seq<seq<Byte>>, other: seq<seq<Byte>>)
    requires SelfDelimiting(parse) && parse([]).NeedMore?
    requires Flatten(some) == Flatten(other)
    ensures DecodeChunks(parse, [], some).frames == DecodeChunks(parse, [], other).frames
    ensures DecodeChunks(parse, [], some).failed == DecodeChunks(parse, [], other).failed
  {
    ChunkingIrrelevant(parse, [], some);
    ChunkingIrrelevant(parse, [], other);
  }

  datatype Step<+T> = Got(frame: Frame<T>) | Incomplete | Invalid

  /** The read side of the connection: `src` is the decoder's buffer. */
  class Reader<T(!new)> {
    const parse: Parser<T>
    var src: seq<Byte>
    var frames: seq<Frame<T>>  // dispatched so far

    constructor (parse: Parser<T>)
      ensures this.parse == parse && src == [] && frames == []
    {
      this.parse := parse;
      src, frames := [], [];
    }

    /** Takes one message off the front, or leaves the buffer as it is. */
    method Decode() returns (step: Step<T>)
      requires SelfDelimiting(parse)
      modifies this`src
      ensures match step
              case Got(frame) => parse(old(src)).Parsed? && parse(old(src)).obj == frame.obj &&
                                 |frame.bytes| == parse(old(src)).len && frame.bytes + src == old(src)
              case Incomplete => parse(old(src)).NeedMore? && src == old(src)
              case Invalid => parse(old(src)).Malformed? && src == old(src)
    {
      hide SelfDelimiting;
      Stands(parse, src, []);
      match parse(src)
      case NeedMore => step := Incomplete;
      case Malformed => step := Invalid;
      case Parsed(obj, len) =>
        var vec := src[..len];
        src := src[len..];
        step := Got(Frame(obj, vec));
    }

    /** One read: append what came, then dispatch every complete message. */
    method Receive(chunk: seq<Byte>) returns (ok: bool)
      requires SelfDelimiting(parse)
      modifies this
      ensures var d := DecodeAll(parse, old(src) + chunk);
              frames == old(frames) + d.frames && src == d.rest && ok == !d.failed
    {
      hide SelfDelimiting;
      src := src + chunk;
      ghost var all := DecodeAll(parse, src);
      while true
        invariant Remaining(old(frames), all)
        decreases |src|
      {
        ghost var before, earlier := src, frames;
        var step := Decode();
        match step
        case Got(frame) =>
          frames := frames + [frame];
          assert before[..|frame.bytes|] == frame.bytes && before[|frame.bytes|..] == src;
          Prepend(earlier, [frame], DecodeAll(parse, src).frames);
        case Incomplete =>
          return true;
        case Invalid =>
          return false;
      }
    }

    /** What is dispatched, then what the buffer still decodes to, is what
        `all` adds to the messages `earlier`. */
    ghost predicate Remaining(earlier: seq<Frame<T>>, all: Decoded<T>)
      requires SelfDelimiting(parse)
      reads this
    {
      var d := DecodeAll(parse, src);
      earlier + all.frames == frames + d.frames && all.rest == d.rest && all.failed == d.failed
    }

    /** A whole connection: reads until the chunks run out or one is malformed. */
    method ReceiveAll(chunks: seq<seq<Byte>>) returns (ok: bool)
      requires SelfDelimiting(parse)
      modifies this
      ensures var d := DecodeChunks(parse, old(src), chunks);
              frames == old(frames) + d.frames && src == d.rest && ok == !d.failed
    {
      hide SelfDelimiting, DecodeAll;
      var i := 0;
      ok := true;
      ghost var all := DecodeChunks(parse, src, chunks);
      while i < |chunks| && ok
        invariant 0 <= i <= |chunks|
        invariant ok ==> var d := DecodeChunks(parse, src, chunks[i..]);
                         old(frames) + all.frames == frames + d.frames && all.rest == d.rest && all.failed == d.failed
        invariant !ok ==> old(frames) + all.frames == frames && all.rest == src && all.failed
        decreases |chunks| - i, ok
      {
        ghost var d := DecodeAll(parse, src + chunks[i]);
        ghost var earlier := frames;
        ok := Receive(chunks[i]);
        i := i + 1;
        if ok {
          ghost var later := DecodeChunks(parse, src, chunks[i..]);
          assert earlier + (d.frames + later.frames) == frames + later.frames;
        }
      }
    }
  }
}
