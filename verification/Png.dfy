/** PNG metadata stripping (services/exif.py) against parse, filter, print. Chunk layout: section 5.3 of the PNG
    specification. */
module Png {
  import opened Bytes

  const MAGIC: seq<Byte> := [0x89, 0x50, 0x4E, 0x47, 0x0D, 0x0A, 0x1A, 0x0A]
  // Chunk types, as the big-endian numbers their four letters spell.
  const TEXT: nat := 0x74455874
  const ITXT: nat := 0x69545874
  const ZTXT: nat := 0x7A545874
  const EXIF: nat := 0x65584966
  const TIME: nat := 0x74494D45
  const IEND: nat := 0x49454E44

  predicate Stripped(kind: nat) {
    kind == TEXT || kind == ITXT || kind == ZTXT || kind == EXIF || kind == TIME
  }

  datatype Chunk = Chunk(kind: nat, body: seq<Byte>, crc: seq<Byte>)

  predicate ValidChunk(c: Chunk) {
    c.kind < 0x1_0000_0000 && |c.crc| == 4 && |c.body| < 0x1_0000_0000
  }

  function PrintChunk(c: Chunk): (b: seq<Byte>)
    requires ValidChunk(c)
    ensures |b| == 12 + |c.body|
  {
    Put32(|c.body|) + Put32(c.kind) + c.body + c.crc
  }

  predicate Valid(cs: seq<Chunk>) {
    forall i | 0 <= i < |cs| :: ValidChunk(cs[i])
  }

  function Print(cs: seq<Chunk>): seq<Byte>
    requires Valid(cs)
  {
    if cs == [] then [] else PrintChunk(cs[0]) + Print(cs[1..])
  }

  /** A chunk lies whole at the front. */
  predicate HasChunk(b: seq<Byte>) {
    |b| >= 8 && 12 + Be32(b, 0) <= |b|
  }

  function FrontChunk(b: seq<Byte>): (c: Chunk)
    requires HasChunk(b)
    ensures ValidChunk(c)
  {
    Be32Range(b, 0);
    Be32Range(b, 4);
    var n := Be32(b, 0);
    Chunk(Be32(b, 4), b[8..8 + n], b[8 + n..12 + n])
  }

  /** The chunks up to the first IEND, or to where a whole chunk no longer fits. */
  function Parse(b: seq<Byte>): (cs: seq<Chunk>)
    ensures Valid(cs)
    decreases |b|
  {
    if !HasChunk(b) then []
    else
      var c := FrontChunk(b);
      if c.kind == IEND then [c] else [c] + Parse(b[12 + |c.body|..])
  }

  function Filter(cs: seq<Chunk>): (r: seq<Chunk>)
    requires Valid(cs)
    ensures Valid(r)
  {
    if cs == [] then []
    else if Stripped(cs[0].kind) then Filter(cs[1..])
    else [cs[0]] + Filter(cs[1..])
  }

  function Strip(data: seq<Byte>): seq<Byte> {
    if StartsWith(data, MAGIC) then MAGIC + Print(Filter(Parse(data[8..]))) else data
  }

  /** IEND occurs at the end or not at all. */
  ghost predicate EndsAtIend(cs: seq<Chunk>) {
    forall i | 0 <= i < |cs| - 1 :: cs[i].kind != IEND
  }

  ghost predicate NoneStripped(cs: seq<Chunk>) {
    forall i | 0 <= i < |cs| :: !Stripped(cs[i].kind)
  }

  lemma FrontIsPrinted(b: seq<Byte>)
    requires HasChunk(b)
    ensures var c := FrontChunk(b); |PrintChunk(c)| <= |b| && PrintChunk(c) == b[..|PrintChunk(c)|]
  {
    Be32Range(b, 0);
    Be32Range(b, 4);
    var n := Be32(b, 0);
    assert b[..4] + b[4..8] + b[8..8 + n] + b[8 + n..12 + n] == b[..12 + n];
  }

  lemma PrintedIsFront(c: Chunk, rest: seq<Byte>)
    requires ValidChunk(c)
    ensures var b := PrintChunk(c) + rest; HasChunk(b) && FrontChunk(b) == c && b[12 + |c.body|..] == rest
  {
    var n := |c.body|;
    var b := PrintChunk(c) + rest;
    assert forall i | 0 <= i < 4 :: b[i] == Put32(n)[i] && b[4 + i] == Put32(c.kind)[i];
    assert Be32(b, 0) == Be32(Put32(n), 0) && Be32(b, 4) == Be32(Put32(c.kind), 0);
    assert b[8..8 + n] == c.body;
    assert b[8 + n..12 + n] == c.crc;
  }

  /** Parsing loses nothing it passes: what was parsed, printed, is the front of the input. */
  lemma {:induction false} ParsedIsPrefix(b: seq<Byte>)
    ensures StartsWith(b, Print(Parse(b))) && EndsAtIend(Parse(b))
    decreases |b|
  {
    if HasChunk(b) {
      FrontIsPrinted(b);
      var c := FrontChunk(b);
      var rest := if c.kind == IEND then [] else Parse(b[12 + |c.body|..]);
      PrintCons(c, rest);
      if c.kind != IEND {
        ParsedIsPrefix(b[12 + |c.body|..]);
        Glue(b, PrintChunk(c), Print(rest));
      }
    }
  }

  lemma PrintCons(c: Chunk, rest: seq<Chunk>)
    requires ValidChunk(c) && Valid(rest)
    ensures Valid([c] + rest) && Print([c] + rest) == PrintChunk(c) + Print(rest)
  {
    assert ([c] + rest)[1..] == rest;
    if rest == [] {
      assert PrintChunk(c) + [] == PrintChunk(c);
    }
  }

  lemma ParseFront(b: seq<Byte>)
    requires HasChunk(b)
    ensures var c := FrontChunk(b);
      Parse(b) == [c] + (if c.kind == IEND then [] else Parse(b[12 + |c.body|..]))
  {
  }

  lemma ParseCons(c: Chunk, rest: seq<Byte>)
    requires ValidChunk(c)
    ensures Parse(PrintChunk(c) + rest) == [c] + (if c.kind == IEND then [] else Parse(rest))
  {
    PrintedIsFront(c, rest);
    ParseFront(PrintChunk(c) + rest);
  }

  lemma ParsePrinted(c: Chunk, rest: seq<Chunk>, tail: seq<Byte>)
    requires ValidChunk(c) && Valid(rest)
    ensures Valid([c] + rest)
    ensures Parse(Print([c] + rest) + tail) == [c] + (if c.kind == IEND then [] else Parse(Print(rest) + tail))
  {
    PrintCons(c, rest);
    Regroup(PrintChunk(c), Print(rest), tail);
    ParseCons(c, Print(rest) + tail);
  }

  lemma RestEndsAtIend(cs: seq<Chunk>)
    requires cs != [] && EndsAtIend(cs)
    ensures EndsAtIend(cs[1..]) && (cs[0].kind == IEND ==> cs == [cs[0]])
    ensures |cs| > 1 ==> cs[1..][|cs| - 2] == cs[|cs| - 1]
  {
  }

  /** Reading back a printed chunk stream, whatever follows its IEND. */
  lemma {:induction false} ParsePrint(cs: seq<Chunk>, tail: seq<Byte>)
    requires Valid(cs) && EndsAtIend(cs)
    requires tail == [] || (cs != [] && cs[|cs| - 1].kind == IEND)
    ensures Parse(Print(cs) + tail) == cs
    decreases |cs|
  {
    if cs == [] {
      assert Print(cs) + tail == [];
    } else {
      assert cs == [cs[0]] + cs[1..];
      RestEndsAtIend(cs);
      ParsePrinted(cs[0], cs[1..], tail);
      if cs[0].kind != IEND {
        ParsePrint(cs[1..], tail);
      }
    }
  }

  lemma {:induction false} FilterFacts(cs: seq<Chunk>)
    requires Valid(cs)
    ensures NoneStripped(Filter(cs)) && |Filter(cs)| <= |cs|
    ensures NoneStripped(cs) ==> Filter(cs) == cs
    ensures EndsAtIend(cs) ==> EndsAtIend(Filter(cs))
  {
    FilterStrips(cs);
    if NoneStripped(cs) {
      FilterKeepsAll(cs);
    }
    if EndsAtIend(cs) {
      FilterKeepsEnd(cs);
    }
  }

  lemma {:induction false} FilterStrips(cs: seq<Chunk>)
    requires Valid(cs)
    ensures NoneStripped(Filter(cs)) && |Filter(cs)| <= |cs|
  {
    if cs != [] {
      FilterStrips(cs[1..]);
    }
  }

  lemma {:induction false} FilterKeepsAll(cs: seq<Chunk>)
    requires Valid(cs) && NoneStripped(cs)
    ensures Filter(cs) == cs
  {
    if cs != [] {
      FilterKeepsAll(cs[1..]);
    }
  }

  lemma {:induction false} FilterKeepsEnd(cs: seq<Chunk>)
    requires Valid(cs) && EndsAtIend(cs)
    ensures EndsAtIend(Filter(cs))
  {
    if cs != [] {
      FilterKeepsEnd(cs[1..]);
      if |cs| == 1 {
        assert Filter(cs[1..]) == [];
      }
    }
  }

  lemma OutputParses(data: seq<Byte>)
    requires StartsWith(data, MAGIC)
    ensures StartsWith(Strip(data), MAGIC) && Parse(Strip(data)[8..]) == Filter(Parse(data[8..]))
  {
    var kept := Filter(Parse(data[8..]));
    ParsedIsPrefix(data[8..]);
    FilterFacts(Parse(data[8..]));
    ParsePrint(kept, []);
    assert Strip(data)[8..] == Print(kept) + [];
  }

  lemma OutputIsClean(data: seq<Byte>)
    requires StartsWith(data, MAGIC)
    ensures |Strip(data)| >= 8 && NoneStripped(Parse(Strip(data)[8..]))
  {
    OutputParses(data);
    FilterFacts(Parse(data[8..]));
  }

  /** On arbitrary bytes, a second pass changes nothing. */
  lemma StripIsIdempotent(data: seq<Byte>)
    ensures Strip(Strip(data)) == Strip(data)
  {
    if StartsWith(data, MAGIC) {
      OutputParses(data);
      FilterFacts(Parse(data[8..]));
      FilterFacts(Filter(Parse(data[8..])));
    }
  }

  /** The signature and well-formed chunks up to their only IEND become the signature and the kept chunks, whatever
      follows. */
  lemma {:induction false} StripWellFormed(cs: seq<Chunk>, tail: seq<Byte>)
    requires Valid(cs) && EndsAtIend(cs) && cs != [] && cs[|cs| - 1].kind == IEND
    ensures Strip(MAGIC + (Print(cs) + tail)) == MAGIC + Print(Filter(cs))
  {
    ParsePrint(cs, tail);
    StripAfterMagic(Print(cs) + tail);
  }

  lemma StripAfterMagic(rest: seq<Byte>)
    ensures Strip(MAGIC + rest) == MAGIC + Print(Filter(Parse(rest)))
  {
    AfterFront(MAGIC, rest);
  }

  function RestOf(b: seq<Byte>): (cs: seq<Chunk>)
    requires HasChunk(b)
    ensures Valid(cs)
  {
    if Be32(b, 4) == IEND then [] else Parse(b[12 + Be32(b, 0)..])
  }

  /** What the pass keeps of the chunk in front. */
  function FrontShare(b: seq<Byte>): seq<Byte>
    requires HasChunk(b)
  {
    if Stripped(Be32(b, 4)) then [] else b[..12 + Be32(b, 0)]
  }

  lemma RemainingFront(b: seq<Byte>)
    requires HasChunk(b)
    ensures Print(Filter(Parse(b))) == FrontShare(b) + Print(Filter(RestOf(b)))
  {
    FrontIsPrinted(b);
    ParseFront(b);
    FilterCons(FrontChunk(b), RestOf(b));
  }

  lemma RestAfterFront(b: seq<Byte>)
    requires HasChunk(b)
    ensures Be32(b, 4) == IEND ==> Print(Filter(RestOf(b))) == []
    ensures Be32(b, 4) != IEND ==> RestOf(b) == Parse(b[12 + Be32(b, 0)..])
  {
  }

  lemma FilterCons(c: Chunk, rest: seq<Chunk>)
    requires ValidChunk(c) && Valid(rest)
    ensures Print(Filter([c] + rest)) == (if Stripped(c.kind) then [] else PrintChunk(c)) + Print(Filter(rest))
  {
    assert ([c] + rest)[1..] == rest;
    PrintCons(c, Filter(rest));
  }

  // ---------------------------------------------------------------- the single pass

  /** `out` after one pass over the chunks in `b`. */
  function Pass(out: seq<Byte>, b: seq<Byte>): seq<Byte>
    decreases |b|
  {
    if !HasChunk(b) then out
    else
      var n := 12 + Be32(b, 0);
      var more := if Stripped(Be32(b, 4)) then out else out + b[..n];
      if Be32(b, 4) == IEND then more else Pass(more, b[n..])
  }

  lemma {:induction false} PassIsParseFilterPrint(out: seq<Byte>, b: seq<Byte>)
    ensures Pass(out, b) == out + Print(Filter(Parse(b)))
    decreases |b|
  {
    if HasChunk(b) {
      var more := out + FrontShare(b);
      PassFront(out, b, more);
      RestAfterFront(b);
      if Be32(b, 4) != IEND {
        PassIsParseFilterPrint(more, b[12 + Be32(b, 0)..]);
      }
      FrontGoesFirst(out, b);
    } else {
      NothingParsed(b);
    }
  }

  lemma NothingParsed(b: seq<Byte>)
    requires !HasChunk(b)
    ensures Print(Filter(Parse(b))) == []
  {
  }

  lemma PassFront(out: seq<Byte>, b: seq<Byte>, more: seq<Byte>)
    requires HasChunk(b) && more == out + FrontShare(b)
    ensures Pass(out, b) == if Be32(b, 4) == IEND then more else Pass(more, b[12 + Be32(b, 0)..])
  {
    PassOne(out, b);
    if Stripped(Be32(b, 4)) {
      assert out + [] == out;
    }
  }

  /** The front chunk's share goes before that of the rest. */
  lemma FrontGoesFirst(out: seq<Byte>, b: seq<Byte>)
    requires HasChunk(b)
    ensures out + Print(Filter(Parse(b))) == out + FrontShare(b) + Print(Filter(RestOf(b)))
  {
    RemainingFront(b);
    Regroup(out, FrontShare(b), Print(Filter(RestOf(b))));
  }

  lemma Regroup(a: seq<Byte>, b: seq<Byte>, c: seq<Byte>)
    ensures a + (b + c) == a + b + c
  {
  }

  method StripPng(data: seq<Byte>) returns (out: seq<Byte>)
    ensures out == Strip(data)
    ensures !StartsWith(data, [0x89, 0x50, 0x4E, 0x47, 0x0D, 0x0A, 0x1A, 0x0A]) ==> out == data
  {
    if !StartsWith(data, MAGIC) {
      return data;
    }
    PassIsParseFilterPrint(MAGIC, data[8..]);
    out := Walk(data, MAGIC);
  }

  /** The loop over the chunks that follow `start`. */
  method Walk(data: seq<Byte>, start: seq<Byte>) returns (out: seq<Byte>)
    requires StartsWith(data, start)
    ensures out == Pass(start, data[|start|..])
  {
    out := start;
    var index := |start|;
    while index + 8 <= |data|
      invariant |start| <= index <= |data|
      invariant Pass(start, data[|start|..]) == Pass(out, data[index..])
    {
      var chunkType := Be32(data, index + 4);
      var chunkEnd := index + 12 + Be32(data, index);
      if chunkEnd > |data| {
        return;
      }
      ghost var before := out;
      if !Stripped(chunkType) {
        out := out + data[index..chunkEnd];
      }
      PassStep(data, index, chunkEnd, chunkType, before, out);
      index := chunkEnd;
      if chunkType == IEND {
        return;
      }
    }
  }

  lemma PassStep(data: seq<Byte>, index: nat, end: nat, kind: nat, out: seq<Byte>, more: seq<Byte>)
    requires index + 8 <= |data| && end == index + 12 + Be32(data, index) <= |data| && kind == Be32(data, index + 4)
    requires more == if Stripped(kind) then out else out + data[index..end]
    ensures Pass(out, data[index..]) == if kind == IEND then more else Pass(more, data[end..])
  {
    ChunkAt(data, index, end, kind);
    if Stripped(kind) {
      assert out + [] == out;
    }
    PassFront(out, data[index..], more);
  }

  lemma ChunkAt(data: seq<Byte>, index: nat, end: nat, kind: nat)
    requires index + 8 <= |data| && end == index + 12 + Be32(data, index) <= |data| && kind == Be32(data, index + 4)
    ensures var b := data[index..];
      && HasChunk(b) && Be32(b, 4) == kind && b[12 + Be32(b, 0)..] == data[end..]
      && FrontShare(b) == if Stripped(kind) then [] else data[index..end]
  {
    SliceFacts(data, index, end - index);
  }

  lemma SliceFacts(data: seq<Byte>, index: nat, n: nat)
    requires index + n <= |data| && n >= 8
    ensures var b := data[index..]; b[..n] == data[index..index + n] && b[n..] == data[index + n..]
    ensures Be32(data[index..], 0) == Be32(data, index) && Be32(data[index..], 4) == Be32(data, index + 4)
  {
  }

  lemma PassOne(out: seq<Byte>, b: seq<Byte>)
    requires HasChunk(b)
    ensures var n := 12 + Be32(b, 0);
      var more := if Stripped(Be32(b, 4)) then out else out + b[..n];
      Pass(out, b) == if Be32(b, 4) == IEND then more else Pass(more, b[n..])
  {
  }
}
