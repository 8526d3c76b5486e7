/** JPEG metadata stripping (services/exif.py) against parse, filter, print. Marker segments: section B.1.1.4 of ITU-T
    T.81. */
module Jpeg {
  import opened Bytes

  const SOI: seq<Byte> := [0xFF, 0xD8]
  const SOS: nat := 0xDA

  /** APP1, APP2, 0xE13 masked to a byte, APP13 and comment. */
  predicate Stripped(marker: nat) {
    marker == 0xE1 || marker == 0xE2 || marker == 0x13 || marker == 0xED || marker == 0xFE
  }

  predicate IsStandalone(marker: nat) {
    marker == 0xD8 || marker == 0x01 || 0xD0 <= marker <= 0xD7
  }

  datatype Piece = Standalone(marker: Byte) | Segment(marker: Byte, body: seq<Byte>)

  predicate ValidPiece(p: Piece) {
    match p
    case Standalone(m) => IsStandalone(m)
    case Segment(m, body) => !IsStandalone(m) && m != SOS && |body| + 2 < 65536
  }

  predicate Valid(ps: seq<Piece>) {
    forall i | 0 <= i < |ps| :: ValidPiece(ps[i])
  }

  function PrintPiece(p: Piece): (b: seq<Byte>)
    requires ValidPiece(p)
    ensures |b| == Size(p) && b[0] == 0xFF && b[1] == p.marker
  {
    match p
    case Standalone(m) => [0xFF, m]
    case Segment(m, body) => [0xFF, m] + Put16(|body| + 2) + body
  }

  function Size(p: Piece): nat {
    if p.Standalone? then 2 else 4 + |p.body|
  }

  function Print(ps: seq<Piece>): seq<Byte>
    requires Valid(ps)
  {
    if ps == [] then [] else PrintPiece(ps[0]) + Print(ps[1..])
  }

  /** A piece lies whole at the front, with four bytes to look at. */
  predicate HasPiece(b: seq<Byte>) {
    && |b| >= 4 && b[0] == 0xFF && b[1] != SOS
    && (IsStandalone(b[1]) || (Be16(b, 2) >= 2 && 2 + Be16(b, 2) <= |b|))
  }

  function FrontPiece(b: seq<Byte>): (p: Piece)
    requires HasPiece(b)
    ensures ValidPiece(p) && Size(p) <= |b|
  {
    Be16Range(b, 2);
    if IsStandalone(b[1]) then Standalone(b[1]) else Segment(b[1], b[4..2 + Be16(b, 2)])
  }

  /** Pieces, then what is copied verbatim: the scan, or whatever is not a whole piece. Fewer than four bytes are
      dropped. */
  datatype Scan = Scan(pieces: seq<Piece>, tail: seq<Byte>)

  function Parse(b: seq<Byte>): (s: Scan)
    ensures Valid(s.pieces)
    decreases |b|
  {
    if |b| < 4 then Scan([], [])
    else if !HasPiece(b) then Scan([], b)
    else
      var p := FrontPiece(b);
      var s := Parse(b[Size(p)..]);
      Scan([p] + s.pieces, s.tail)
  }

  predicate Keeps(p: Piece) {
    p.Standalone? || !Stripped(p.marker)
  }

  function Filter(ps: seq<Piece>): (r: seq<Piece>)
    requires Valid(ps)
    ensures Valid(r)
  {
    if ps == [] then []
    else if Keeps(ps[0]) then [ps[0]] + Filter(ps[1..])
    else Filter(ps[1..])
  }

  function PrintScan(s: Scan): seq<Byte>
    requires Valid(s.pieces)
  {
    Print(s.pieces) + s.tail
  }

  function FilterScan(s: Scan): (r: Scan)
    requires Valid(s.pieces)
    ensures Valid(r.pieces)
  {
    Scan(Filter(s.pieces), s.tail)
  }

  function Strip(data: seq<Byte>): seq<Byte> {
    if StartsWith(data, SOI) then SOI + PrintScan(FilterScan(Parse(data[2..]))) else data
  }

  // ---------------------------------------------------------------- parsing and printing

  lemma FrontIsPrinted(b: seq<Byte>)
    requires HasPiece(b)
    ensures StartsWith(b, PrintPiece(FrontPiece(b)))
  {
    Be16Range(b, 2);
    if !IsStandalone(b[1]) {
      assert [b[0], b[1]] + b[2..4] + b[4..2 + Be16(b, 2)] == b[..2 + Be16(b, 2)];
    }
  }

  lemma PrintedIsFront(p: Piece, rest: seq<Byte>)
    requires ValidPiece(p) && (p.Segment? || |rest| >= 2)
    ensures var b := PrintPiece(p) + rest; HasPiece(b) && FrontPiece(b) == p && b[Size(p)..] == rest
  {
    var b := PrintPiece(p) + rest;
    if p.Segment? {
      var n := |p.body| + 2;
      assert b[2] == Put16(n)[0] && b[3] == Put16(n)[1];
      assert Be16(b, 2) == Be16(Put16(n), 0);
      assert b[4..2 + n] == p.body;
    }
  }

  lemma ParseFront(b: seq<Byte>)
    requires HasPiece(b)
    ensures var p := FrontPiece(b); var s := Parse(b[Size(p)..]);
      Parse(b) == Scan([p] + s.pieces, s.tail)
  {
  }

  lemma ParseCons(p: Piece, rest: seq<Byte>)
    requires ValidPiece(p) && (p.Segment? || |rest| >= 2)
    ensures Parse(PrintPiece(p) + rest) == Scan([p] + Parse(rest).pieces, Parse(rest).tail)
  {
    PrintedIsFront(p, rest);
    ParseFront(PrintPiece(p) + rest);
  }

  lemma PrintCons(p: Piece, rest: seq<Piece>)
    requires ValidPiece(p) && Valid(rest)
    ensures Valid([p] + rest) && Print([p] + rest) == PrintPiece(p) + Print(rest)
  {
    assert ([p] + rest)[1..] == rest;
  }

  lemma Regroup(a: seq<Byte>, b: seq<Byte>, c: seq<Byte>)
    ensures a + (b + c) == a + b + c
  {
  }

  /** Parsing loses at most three bytes: what was parsed, printed, is the input up to them. */
  lemma {:induction false} ParsedIsPrefix(b: seq<Byte>)
    ensures StartsWith(b, PrintScan(Parse(b))) && |b| - |PrintScan(Parse(b))| < 4
    ensures Parse(b).tail != [] ==> PrintScan(Parse(b)) == b
    decreases |b|
  {
    if HasPiece(b) {
      FrontIsPrinted(b);
      ParseFront(b);
      var p := FrontPiece(b);
      var rest := b[Size(p)..];
      ParsedIsPrefix(rest);
      PrintCons(p, Parse(rest).pieces);
      Regroup(PrintPiece(p), Print(Parse(rest).pieces), Parse(rest).tail);
      Glue(b, PrintPiece(p), PrintScan(Parse(rest)));
    }
  }

  /** A tail that parsing copies verbatim when it meets it. */
  predicate IsTail(tail: seq<Byte>) {
    |tail| >= 4 && !HasPiece(tail)
  }

  /** Print and parse again: everything comes back, given a tail or a last piece that is a segment. */
  lemma {:induction false} ParsePrint(s: Scan)
    requires Valid(s.pieces) && (s.tail == [] || IsTail(s.tail))
    requires s.tail == [] ==> s.pieces == [] || s.pieces[|s.pieces| - 1].Segment?
    ensures Parse(PrintScan(s)) == s
    decreases |s.pieces|
  {
    if s.pieces != [] {
      var p, rest := s.pieces[0], Scan(s.pieces[1..], s.tail);
      assert s.pieces == [p] + rest.pieces;
      assert rest.pieces != [] ==> rest.pieces[|rest.pieces| - 1] == s.pieces[|s.pieces| - 1];
      ParsePrint(rest);
      RoomAfter(rest);
      Regroup(PrintPiece(p), Print(rest.pieces), s.tail);
      ParseCons(p, PrintScan(rest));
    } else {
      assert PrintScan(s) == s.tail;
    }
  }

  lemma RoomAfter(s: Scan)
    requires Valid(s.pieces) && (s.tail == [] || IsTail(s.tail))
    ensures s.pieces != [] || s.tail != [] ==> |PrintScan(s)| >= 2
  {
  }

  lemma {:induction false} ParsedTail(b: seq<Byte>)
    ensures Parse(b).tail == [] || IsTail(Parse(b).tail)
    decreases |b|
  {
    if HasPiece(b) {
      ParsedTail(b[Size(FrontPiece(b))..]);
    }
  }

  lemma {:induction false} FilterTwice(ps: seq<Piece>)
    requires Valid(ps)
    ensures Filter(Filter(ps)) == Filter(ps) && (forall i | 0 <= i < |Filter(ps)| :: Keeps(Filter(ps)[i]))
    ensures |Print(Filter(ps))| <= |Print(ps)|
  {
    if ps != [] {
      FilterTwice(ps[1..]);
      if Keeps(ps[0]) {
        PrintCons(ps[0], Filter(ps[1..]));
        assert ([ps[0]] + Filter(ps[1..]))[1..] == Filter(ps[1..]);
      }
    }
  }

  // ---------------------------------------------------------------- main results

  /** On any bytes the output is no longer than the input. */
  lemma StripNeverGrows(data: seq<Byte>)
    ensures |Strip(data)| <= |data|
  {
    if StartsWith(data, SOI) {
      ParsedIsPrefix(data[2..]);
      FilterTwice(Parse(data[2..]).pieces);
    }
  }

  /** On any bytes, whatever a parser reads back from the output is kept: no metadata segment is among it. */
  lemma NothingStrippedRemains(data: seq<Byte>)
    requires StartsWith(data, SOI)
    ensures StartsWith(Strip(data), SOI)
    ensures forall i | 0 <= i < |Parse(Strip(data)[2..]).pieces| :: Keeps(Parse(Strip(data)[2..]).pieces[i])
  {
    var t := FilterScan(Parse(data[2..]));
    FilterTwice(Parse(data[2..]).pieces);
    ParsedTail(data[2..]);
    AfterFront(SOI, PrintScan(t));
    if t.tail == [] && t.pieces != [] && t.pieces[|t.pieces| - 1].Standalone? {
      assert t == Scan(t.pieces, []);
      FrontOnly(t.pieces);
    } else {
      ParsePrint(t);
    }
  }

  /** Whole segments and then scan data: the kept segments in order and everything from SOS unchanged. */
  lemma {:induction false} StripWellFormed(ps: seq<Piece>, scan: seq<Byte>)
    requires Valid(ps) && |scan| >= 4 && scan[0] == 0xFF && scan[1] == SOS
    ensures Strip(SOI + PrintScan(Scan(ps, scan))) == SOI + PrintScan(Scan(Filter(ps), scan))
    ensures Strip(SOI + PrintScan(Scan(Filter(ps), scan))) == SOI + PrintScan(Scan(Filter(ps), scan))
  {
    StripPrinted(Scan(ps, scan));
    StripPrinted(Scan(Filter(ps), scan));
    FilterTwice(ps);
  }

  lemma StripPrinted(s: Scan)
    requires Valid(s.pieces) && (s.tail == [] || IsTail(s.tail))
    requires s.tail == [] ==> s.pieces == [] || s.pieces[|s.pieces| - 1].Segment?
    ensures Strip(SOI + PrintScan(s)) == SOI + PrintScan(FilterScan(s))
  {
    ParsePrint(s);
    AfterFront(SOI, PrintScan(s));
  }

  /** What a second pass reads back whole: a verbatim tail, or nothing after SOI, or a last kept piece that is a
      segment. */
  predicate Stable(s: Scan)
    requires Valid(s.pieces)
  {
    var kept := Filter(s.pieces);
    s.tail != [] || kept == [] || kept[|kept| - 1].Segment?
  }

  /** A second pass changes nothing exactly when the first ended at a verbatim tail, kept nothing, or kept a segment
      last. */
  lemma IdempotentExactly(data: seq<Byte>)
    requires StartsWith(data, SOI)
    ensures Strip(Strip(data)) == Strip(data) <==> Stable(Parse(data[2..]))
  {
    var s := Parse(data[2..]);
    var t := FilterScan(s);
    ParsedTail(data[2..]);
    FilterTwice(s.pieces);
    if Stable(s) {
      StripPrinted(t);
      assert FilterScan(t) == t;
    } else {
      StandaloneLastIsLost(t);
    }
  }

  /** A standalone marker at the very end is dropped by the next pass. */
  lemma StandaloneLastIsLost(t: Scan)
    requires Valid(t.pieces) && t.tail == [] && t.pieces != [] && t.pieces[|t.pieces| - 1].Standalone?
    ensures |Strip(SOI + PrintScan(t))| < |SOI + PrintScan(t)|
  {
    AfterFront(SOI, PrintScan(t));
    var n := |t.pieces| - 1;
    FrontOnly(t.pieces);
    FilterTwice(Parse(PrintScan(t)).pieces);
  }

  lemma {:induction false} FrontOnly(ps: seq<Piece>)
    requires Valid(ps) && ps != [] && ps[|ps| - 1].Standalone?
    ensures Parse(PrintScan(Scan(ps, []))) == Scan(ps[..|ps| - 1], [])
    ensures |Print(ps[..|ps| - 1])| < |Print(ps)|
    decreases |ps|
  {
    var p, rest := ps[0], ps[1..];
    assert ps == [p] + rest;
    PrintCons(p, rest);
    assert PrintScan(Scan(ps, [])) == PrintPiece(p) + PrintScan(Scan(rest, []));
    if rest != [] {
      FrontOnly(rest);
      RoomAfter(Scan(rest, []));
      ParseCons(p, PrintScan(Scan(rest, [])));
      FrontOf(p, rest);
      PrintCons(p, rest[..|rest| - 1]);
    }
  }

  lemma FrontOf(p: Piece, rest: seq<Piece>)
    requires rest != []
    ensures ([p] + rest)[..|rest|] == [p] + rest[..|rest| - 1]
  {
  }

  /** SOI, a restart marker, and an empty APP1 segment that ends the input. */
  const RESTART_THEN_APP1: seq<Byte> := [0xFF, 0xD8, 0xFF, 0xD0, 0xFF, 0xE1, 0x00, 0x02]

  /** The failing family has a member: the first pass removes the segment, the second the restart marker. */
  lemma NotIdempotentInGeneral()
    ensures Strip(RESTART_THEN_APP1) == [0xFF, 0xD8, 0xFF, 0xD0]
    ensures Strip(Strip(RESTART_THEN_APP1)) == [0xFF, 0xD8]
  {
    var rest: seq<Byte> := [0xFF, 0xD0, 0xFF, 0xE1, 0x00, 0x02];
    assert RESTART_THEN_APP1 == SOI + rest;
    AfterFront(SOI, rest);
    RestartIsKept(rest);
    var marker: seq<Byte> := [0xFF, 0xD0];
    AfterFront(SOI, marker);
    NothingToWrite(marker);
  }

  /** Too short for a piece. */
  lemma NothingToWrite(b: seq<Byte>)
    requires |b| < 4
    ensures PrintScan(FilterScan(Parse(b))) == []
  {
  }

  lemma RestartIsKept(b: seq<Byte>)
    requires b == [0xFF, 0xD0, 0xFF, 0xE1, 0x00, 0x02]
    ensures PrintScan(FilterScan(Parse(b))) == [0xFF, 0xD0]
  {
    var marker: Piece := Standalone(0xD0);
    assert FrontPiece(b) == marker;
    ParseFront(b);
    SingleSegment(b[2..], 0xE1);
    FilterCons(marker, Scan([Segment(0xE1, [])], []));
    FilterCons(Segment(0xE1, []), Scan([], []));
    assert [Segment(0xE1, [])] + [] == [Segment(0xE1, [])];
    NothingToWrite([]);
  }

  lemma SingleSegment(b: seq<Byte>, marker: Byte)
    requires b == [0xFF, marker, 0x00, 0x02] && !IsStandalone(marker) && marker != SOS
    ensures Parse(b) == Scan([Segment(marker, [])], [])
  {
    assert Be16(b, 2) == 2;
    assert b[4..4] == [];
    assert FrontPiece(b) == Segment(marker, []);
    ParseFront(b);
    assert b[4..] == [];
  }

  // ---------------------------------------------------------------- the extra marker

  /** The markers the source documents: APP1, APP2, APP13 and comment. */
  predicate Documented(marker: nat) {
    marker == 0xE1 || marker == 0xE2 || marker == 0xED || marker == 0xFE
  }

  function FilterDocumented(ps: seq<Piece>): (r: seq<Piece>)
    requires Valid(ps)
    ensures Valid(r)
  {
    if ps == [] then []
    else if ps[0].Standalone? || !Documented(ps[0].marker) then [ps[0]] + FilterDocumented(ps[1..])
    else FilterDocumented(ps[1..])
  }

  /** What stripping the documented markers alone would give. */
  function StripDocumented(data: seq<Byte>): seq<Byte> {
    if StartsWith(data, SOI) then
      var s := Parse(data[2..]);
      SOI + PrintScan(Scan(FilterDocumented(s.pieces), s.tail))
    else data
  }

  predicate IsExtra(p: Piece) {
    p.Segment? && p.marker == 0x13
  }

  /** Nothing is lost by the extra marker exactly when no piece carries it. */
  lemma {:induction false} ExtraIsLost(ps: seq<Piece>)
    requires Valid(ps)
    ensures |Print(Filter(ps))| <= |Print(FilterDocumented(ps))|
    ensures |Print(Filter(ps))| == |Print(FilterDocumented(ps))| <==> forall i | 0 <= i < |ps| :: !IsExtra(ps[i])
    ensures |Print(Filter(ps))| == |Print(FilterDocumented(ps))| ==> Filter(ps) == FilterDocumented(ps)
  {
    if ps != [] {
      ExtraIsLost(ps[1..]);
      PrintCons(ps[0], Filter(ps[1..]));
      PrintCons(ps[0], FilterDocumented(ps[1..]));
      assert forall i | 0 < i < |ps| :: ps[i] == ps[1..][i - 1];
      assert (forall i | 0 <= i < |ps| :: !IsExtra(ps[i])) <==>
        !IsExtra(ps[0]) && forall i | 0 <= i < |ps[1..]| :: !IsExtra(ps[1..][i]);
    }
  }

  /** The code strips what its documentation names exactly when no parsed segment has the marker 0x13. */
  lemma {:induction false} StripsAsDocumentedExactly(data: seq<Byte>)
    requires StartsWith(data, SOI)
    ensures Strip(data) == StripDocumented(data) <==>
      forall i | 0 <= i < |Parse(data[2..]).pieces| :: !IsExtra(Parse(data[2..]).pieces[i])
  {
    var s := Parse(data[2..]);
    var kept, documented := Filter(s.pieces), FilterDocumented(s.pieces);
    ExtraIsLost(s.pieces);
    if |Print(kept)| == |Print(documented)| {
      assert Strip(data) == StripDocumented(data);
    } else {
      assert |Strip(data)| == 2 + |Print(kept)| + |s.tail|;
      assert |StripDocumented(data)| == 2 + |Print(documented)| + |s.tail|;
      assert Strip(data) != StripDocumented(data);
    }
  }

  /** SOI and an empty segment with marker 0x13. */
  const EXTRA_SEGMENT: seq<Byte> := [0xFF, 0xD8, 0xFF, 0x13, 0x00, 0x02]

  /** An input on which the two differ: the code drops a segment its documentation does not name. */
  lemma ExtraMarkerIsStripped()
    ensures Strip(EXTRA_SEGMENT) == [0xFF, 0xD8] && StripDocumented(EXTRA_SEGMENT) == EXTRA_SEGMENT
  {
    var rest: seq<Byte> := [0xFF, 0x13, 0x00, 0x02];
    assert EXTRA_SEGMENT == SOI + rest;
    AfterFront(SOI, rest);
    SingleSegment(rest, 0x13);
    ExtraSegmentAlone(rest);
    assert SOI + [] == [0xFF, 0xD8];
  }

  lemma ExtraSegmentAlone(b: seq<Byte>)
    requires b == [0xFF, 0x13, 0x00, 0x02] && Parse(b) == Scan([Segment(0x13, [])], [])
    ensures PrintScan(FilterScan(Parse(b))) == []
    ensures PrintScan(Scan(FilterDocumented(Parse(b).pieces), Parse(b).tail)) == b
  {
    var ps: seq<Piece> := [Segment(0x13, [])];
    assert ps[1..] == [];
    assert Filter(ps) == [] && FilterDocumented(ps) == ps;
    assert Print(ps) == PrintPiece(ps[0]) + [];
    assert PrintPiece(ps[0]) == b;
  }

  // ---------------------------------------------------------------- the single pass

  /** `out` after one pass over `b`. */
  function Pass(out: seq<Byte>, b: seq<Byte>): seq<Byte>
    decreases |b|
  {
    if |b| < 4 then out
    else if !HasPiece(b) then out + b
    else
      var n := Size(FrontPiece(b));
      Pass(if Keeps(FrontPiece(b)) then out + b[..n] else out, b[n..])
  }

  lemma {:induction false} PassIsParseFilterPrint(out: seq<Byte>, b: seq<Byte>)
    ensures Pass(out, b) == out + PrintScan(FilterScan(Parse(b)))
    decreases |b|
  {
    if |b| < 4 {
      assert out + PrintScan(FilterScan(Parse(b))) == out;
    } else if !HasPiece(b) {
      assert PrintScan(FilterScan(Parse(b))) == b;
    } else {
      var p := FrontPiece(b);
      var s := Parse(b[Size(p)..]);
      var more := if Keeps(p) then out + b[..Size(p)] else out;
      PassUnfolds(out, b, Size(p), more, b[Size(p)..]);
      PassIsParseFilterPrint(more, b[Size(p)..]);
      ParseFront(b);
      FrontIsPrinted(b);
      FilterCons(p, s);
      Regroup(out, PrintPiece(p), PrintScan(FilterScan(s)));
    }
  }

  lemma FilterCons(p: Piece, s: Scan)
    requires ValidPiece(p) && Valid(s.pieces)
    ensures var t := Scan([p] + s.pieces, s.tail);
      PrintScan(FilterScan(t))
        == if Keeps(p) then PrintPiece(p) + PrintScan(FilterScan(s)) else PrintScan(FilterScan(s))
  {
    assert ([p] + s.pieces)[1..] == s.pieces;
    PrintCons(p, Filter(s.pieces));
    Regroup(PrintPiece(p), Print(Filter(s.pieces)), s.tail);
  }

  lemma PassUnfolds(out: seq<Byte>, b: seq<Byte>, n: nat, more: seq<Byte>, rest: seq<Byte>)
    requires HasPiece(b) && n == Size(FrontPiece(b)) && rest == b[n..]
    requires more == if Keeps(FrontPiece(b)) then out + b[..n] else out
    ensures Pass(out, b) == Pass(more, rest)
  {
  }

  method StripJpeg(data: seq<Byte>) returns (out: seq<Byte>)
    ensures out == Strip(data)
    ensures !StartsWith(data, [0xFF, 0xD8]) ==> out == data
  {
    if !StartsWith(data, SOI) {
      return data;
    }
    PassIsParseFilterPrint(SOI, data[2..]);
    out := Walk(data, SOI);
  }

  /** The loop over the markers that follow `start`. */
  method Walk(data: seq<Byte>, start: seq<Byte>) returns (out: seq<Byte>)
    requires StartsWith(data, start)
    ensures out == Pass(start, data[|start|..])
  {
    out := start;
    var index, ended := |start|, false;
    while index + 4 <= |data| && !ended
      invariant |start| <= index <= |data|
      invariant Pass(start, data[|start|..]) == if ended then out else Pass(out, data[index..])
      decreases |data| - index, if ended then 0 else 1
    {
      out, index, ended := Next(data, index, out);
    }
  }

  /** One marker: copied, skipped, or the end of what is understood. */
  method Next(data: seq<Byte>, index: nat, out: seq<Byte>) returns (more: seq<Byte>, next: nat, ended: bool)
    requires index + 4 <= |data|
    ensures index <= next <= |data| && (!ended ==> index < next)
    ensures Pass(out, data[index..]) == if ended then more else Pass(more, data[next..])
  {
    if data[index] != 0xFF {
      TailStep(data, index, out);
      return out + data[index..], index, true;
    }
    var marker := data[index + 1];
    if IsStandalone(marker) {
      StandaloneStep(data, index, out);
      return out + data[index..index + 2], index + 2, false;
    }
    if marker == SOS {
      TailStep(data, index, out);
      return out + data[index..], index, true;
    }
    var segmentLength := Be16(data, index + 2);
    var segmentEnd := index + 2 + segmentLength;
    if segmentLength < 2 || segmentEnd > |data| {
      TailStep(data, index, out);
      return out + data[index..], index, true;
    }
    SegmentStep(data, index, segmentEnd, out);
    more := if Stripped(marker) then out else out + data[index..segmentEnd];
    next, ended := segmentEnd, false;
  }

  lemma TailStep(data: seq<Byte>, index: nat, out: seq<Byte>)
    requires index + 4 <= |data|
    requires data[index] != 0xFF || (!IsStandalone(data[index + 1]) &&
      (data[index + 1] == SOS || Be16(data, index + 2) < 2 || index + 2 + Be16(data, index + 2) > |data|))
    ensures Pass(out, data[index..]) == out + data[index..]
  {
  }

  lemma StandaloneStep(data: seq<Byte>, index: nat, out: seq<Byte>)
    requires index + 4 <= |data| && data[index] == 0xFF && IsStandalone(data[index + 1])
    ensures Pass(out, data[index..]) == Pass(out + data[index..index + 2], data[index + 2..])
  {
    PassStep(data, index, index + 2, out, out + data[index..index + 2]);
  }

  lemma SegmentStep(data: seq<Byte>, index: nat, end: nat, out: seq<Byte>)
    requires index + 4 <= |data| && data[index] == 0xFF && !IsStandalone(data[index + 1]) && data[index + 1] != SOS
    requires index + 4 <= end == index + 2 + Be16(data, index + 2) <= |data|
    ensures Pass(out, data[index..]) == Pass(if Stripped(data[index + 1]) then out else out + data[index..end],
      data[end..])
  {
    PassStep(data, index, end, out, if Stripped(data[index + 1]) then out else out + data[index..end]);
  }

  lemma PassStep(data: seq<Byte>, index: nat, end: nat, out: seq<Byte>, more: seq<Byte>)
    requires index < end <= |data| && HasPiece(data[index..]) && end - index == Size(FrontPiece(data[index..]))
    requires more == if Keeps(FrontPiece(data[index..])) then out + data[index..end] else out
    ensures Pass(out, data[index..]) == Pass(more, data[end..])
  {
    var b, n := data[index..], end - index;
    assert b[..n] == data[index..end];
    var rest := b[n..];
    assert rest == data[end..];
    PassUnfolds(out, b, n, more, rest);
  }
}
