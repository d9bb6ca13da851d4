/** Line buffering of a process stream: complete lines are forwarded to the
    console, the rest waits in a buffer that is flushed when it overflows. */
module LineBuffers {
  import opened Sequences

  const MAX_STREAM_BUFFER_LENGTH: nat := 1024 * 1024

  /** One console call. A line flush consumed the newline after its text; an
      overflow flush consumed the whole buffer. */
  datatype Piece = Line(text: string) | Overflow(text: string)

  /** The offset of the last newline, or -1. */
  function LastIndexOf(s: string, c: char): (i: int)
    ensures -1 <= i < |s|
    ensures i != -1 ==> s[i] == c
    ensures forall j :: i < j < |s| ==> s[j] != c
  {
    if s == [] then -1
    else if s[|s| - 1] == c then |s| - 1
    else LastIndexOf(s[..|s| - 1], c)
  }

  /** What a piece took out of the stream. */
  function Taken(piece: Piece): string {
    match piece
    case Line(text) => text + "\n"
    case Overflow(text) => text
  }

  function AllTaken(pieces: seq<Piece>): string {
    if pieces == [] then "" else AllTaken(pieces[..|pieces| - 1]) + Taken(pieces[|pieces| - 1])
  }

  predicate Calm(pieces: seq<Piece>) {
    forall p :: p in pieces ==> p.Line?
  }

  /** Up to and including the last newline. */
  function Complete(s: string): string {
    s[..LastIndexOf(s, '\n') + 1]
  }

  function Incomplete(s: string): string {
    s[LastIndexOf(s, '\n') + 1..]
  }

  predicate Settled(buf: string) {
    '\n' !in buf && |buf| <= MAX_STREAM_BUFFER_LENGTH
  }

  /** What one write does, given everything that is now unforwarded: the new
      buffer and the console call, if any. */
  function Forwarded(all: string): (string, Option<Piece>) {
    if |all| > MAX_STREAM_BUFFER_LENGTH then ("", Some(Overflow(all)))
    else if '\n' in all then (Incomplete(all), Some(Line(all[..LastIndexOf(all, '\n')])))
    else (all, None)
  }

  lemma NewlineFound(all: string)
    ensures '\n' in all <==> LastIndexOf(all, '\n') != -1
  {
    var i := LastIndexOf(all, '\n');
    if '\n' in all {
      var k :| 0 <= k < |all| && all[k] == '\n';
      assert i >= k;
    }
  }

  class LineBuffer {
    var buf: string

    constructor ()
      ensures buf == ""
    {
      buf := "";
    }

    method Write(chunk: string) returns (piece: Option<Piece>)
      modifies this
      ensures (buf, piece) == Forwarded(old(buf) + chunk)
    {
      buf := buf + chunk;
      NewlineFound(buf);
      var overflow := |buf| > MAX_STREAM_BUFFER_LENGTH;
      var eol := if overflow then |buf| else LastIndexOf(buf, '\n');
      piece := None;
      if eol != -1 {
        assert buf[..|buf|] == buf;
        piece := Some(if overflow then Overflow(buf[..eol]) else Line(buf[..eol]));
        buf := if eol < |buf| then buf[eol + 1..] else "";
      }
    }
  }

  // ---------- whole runs ----------

  /** The buffer and all console calls after a list of writes. */
  function Run(chunks: seq<string>): (string, seq<Piece>) {
    if chunks == [] then ("", []) else
      var (buf, pieces) := Run(chunks[..|chunks| - 1]);
      var (buf', piece) := Forwarded(buf + chunks[|chunks| - 1]);
      (buf', pieces + if piece.Some? then [piece.value] else [])
  }

  lemma ForwardedConserves(all: string)
    ensures var (buf, piece) := Forwarded(all);
            Settled(buf) && (if piece.Some? then Taken(piece.value) else "") + buf == all
  {
    if |all| <= MAX_STREAM_BUFFER_LENGTH && '\n' in all {
      var i := LastIndexOf(all, '\n');
      var k :| 0 <= k < |all| && all[k] == '\n';
      assert i >= k;
      assert all == all[..i] + [all[i]] + all[i + 1..];
    }
  }

  lemma LastChunk(chunks: seq<string>)
    requires chunks != []
    ensures Flatten(chunks) == Flatten(chunks[..|chunks| - 1]) + chunks[|chunks| - 1]
  {
    FlattenSnoc(chunks[..|chunks| - 1], chunks[|chunks| - 1]);
    assert chunks[..|chunks| - 1] + [chunks[|chunks| - 1]] == chunks;
  }

  lemma TakenSnoc(pieces: seq<Piece>, piece: Piece, rest: string)
    ensures AllTaken(pieces + [piece]) + rest == AllTaken(pieces) + (Taken(piece) + rest)
  {
    assert (pieces + [piece])[..|pieces|] == pieces;
  }

  lemma WriteConserves(buf: string, pieces: seq<Piece>, chunk: string)
    ensures var (buf', piece) := Forwarded(buf + chunk);
            Settled(buf') &&
            AllTaken(pieces + if piece.Some? then [piece.value] else []) + buf' == AllTaken(pieces) + buf + chunk
  {
    ForwardedConserves(buf + chunk);
    var (buf', piece) := Forwarded(buf + chunk);
    hide Forwarded;
    if piece.Some? {
      TakenSnoc(pieces, piece.value, buf');
    } else {
      assert pieces + [] == pieces && "" + buf' == buf + chunk;
    }
    assert AllTaken(pieces) + (buf + chunk) == AllTaken(pieces) + buf + chunk;
  }

  /** Nothing is lost or duplicated, whatever the chunking: what the console
      calls took, followed by the buffer, is the whole input. After every write
      the buffer has no newline and is within the limit. */
  lemma {:induction false} RunConserves(chunks: seq<string>)
    ensures var (buf, pieces) := Run(chunks);
            Settled(buf) && AllTaken(pieces) + buf == Flatten(chunks)
  {
    if chunks != [] {
      var (buf, pieces) := Run(chunks[..|chunks| - 1]);
      RunConserves(chunks[..|chunks| - 1]);
      LastChunk(chunks);
      WriteConserves(buf, pieces, chunks[|chunks| - 1]);
    }
  }

  lemma {:induction false} TakenEndsInNewline(pieces: seq<Piece>)
    requires pieces != [] && Calm(pieces)
    ensures AllTaken(pieces) != "" && AllTaken(pieces)[|AllTaken(pieces)| - 1] == '\n'
  {
    assert pieces[|pieces| - 1].Line?;
  }

  /** A text splits in only one way into newline-terminated lines and a rest
      without a newline. */
  lemma SplitIsUnique(taken: string, buf: string)
    requires taken == "" || taken[|taken| - 1] == '\n'
    requires '\n' !in buf
    ensures taken == Complete(taken + buf) && buf == Incomplete(taken + buf)
  {
    var all := taken + buf;
    var i := LastIndexOf(all, '\n');
    forall j | |taken| <= j < |all| ensures all[j] != '\n' {
      assert all[j] == buf[j - |taken|];
    }
    assert i < |taken|;
    assert taken != "" ==> all[|taken| - 1] == '\n';
    assert i == |taken| - 1;
    assert all[..i + 1] == taken && all[i + 1..] == buf;
  }

  /** Without an overflow flush the console receives exactly the complete lines
      of the input, and the buffer holds exactly the incomplete one. */
  lemma CalmRunIsExact(chunks: seq<string>)
    requires Calm(Run(chunks).1)
    ensures var (buf, pieces) := Run(chunks);
            AllTaken(pieces) == Complete(Flatten(chunks)) && buf == Incomplete(Flatten(chunks))
  {
    var (buf, pieces) := Run(chunks);
    RunConserves(chunks);
    if pieces != [] {
      TakenEndsInNewline(pieces);
    }
    SplitIsUnique(AllTaken(pieces), buf);
  }

  // ---------- when nothing overflows ----------

  /** Every incomplete line, with the chunk that comes next, is within the limit.
      This can be checked on the input alone. */
  predicate LinesFit(chunks: seq<string>) {
    chunks == [] ||
    (LinesFit(chunks[..|chunks| - 1]) &&
     |Incomplete(Flatten(chunks[..|chunks| - 1]))| + |chunks[|chunks| - 1]| <= MAX_STREAM_BUFFER_LENGTH)
  }

  lemma RunSnoc(chunks: seq<string>)
    requires chunks != []
    ensures var before, last := chunks[..|chunks| - 1], chunks[|chunks| - 1];
            Calm(Run(chunks).1) <==>
            Calm(Run(before).1) && |Run(before).0| + |last| <= MAX_STREAM_BUFFER_LENGTH
  {
    var before, last := chunks[..|chunks| - 1], chunks[|chunks| - 1];
    var (buf, pieces) := Run(before);
    var (buf', piece) := Forwarded(buf + last);
    var added := if piece.Some? then [piece.value] else [];
    assert Run(chunks).1 == pieces + added;
    assert piece.Some? && piece.value.Overflow? <==> |buf + last| > MAX_STREAM_BUFFER_LENGTH;
    hide Run, Forwarded;
    if Calm(pieces + added) {
      forall p | p in pieces ensures p.Line? {
        assert p in pieces + added;
      }
      assert piece.Some? ==> piece.value in pieces + added;
    }
  }

  /** No overflow flush happens if and only if the lines fit. */
  lemma {:induction false} CalmExactly(chunks: seq<string>)
    ensures Calm(Run(chunks).1) <==> LinesFit(chunks)
  {
    if chunks != [] {
      var before := chunks[..|chunks| - 1];
      CalmExactly(before);
      RunSnoc(chunks);
      if Calm(Run(before).1) {
        CalmRunIsExact(before);
      }
      hide Calm, Run, Incomplete, Flatten;
    }
  }

  /** How the input was cut into chunks does not matter, as long as its lines
      fit. */
  lemma AnyTwoChunkings(a: seq<string>, b: seq<string>)
    requires Flatten(a) == Flatten(b)
    requires LinesFit(a) && LinesFit(b)
    ensures AllTaken(Run(a).1) == AllTaken(Run(b).1) && Run(a).0 == Run(b).0
  {
    hide LinesFit, Calm, Run, Flatten, AllTaken;
    CalmExactly(a);
    CalmExactly(b);
    CalmRunIsExact(a);
    CalmRunIsExact(b);
  }

  /** A longer line is flushed at once. */
  lemma LongLineOverflows(line: string)
    requires |line| > 1_048_576
    ensures Run([line]) == ("", [Overflow(line)])
  {
    assert [line][..0] == [] && "" + line == line;
    assert Run([]) == ("", []) && Forwarded(line) == ("", Some(Overflow(line)));
    assert [] + [Overflow(line)] == [Overflow(line)];
  }

  /** Input that is within the limit as a whole fits however it is cut. */
  lemma {:induction false} ShortInputFits(chunks: seq<string>)
    requires |Flatten(chunks)| <= 1_048_576
    ensures LinesFit(chunks)
  {
    if chunks != [] {
      LastChunk(chunks);
      ShortInputFits(chunks[..|chunks| - 1]);
    }
  }
}
