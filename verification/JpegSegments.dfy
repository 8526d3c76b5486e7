/** What JPEG stripping does to a file, byte by byte. */
module JpegSegments {
  import opened Bytes
  import opened Jpeg

  /** A marker that stands alone, or one with a body. */
  datatype Marked = Bare(marker: Byte) | Block(marker: Byte, body: seq<Byte>)

  /** TEM, the eight restart markers and SOI have no body. */
  predicate StandsAlone(marker: Byte) {
    marker in [0x01, 0xD0, 0xD1, 0xD2, 0xD3, 0xD4, 0xD5, 0xD6, 0xD7, 0xD8]
  }

  predicate ValidMarked(m: Marked) {
    match m
    case Bare(marker) => StandsAlone(marker)
    case Block(marker, body) => !StandsAlone(marker) && marker != 0xDA && |body| <= 0xFFFD
  }

  predicate AllValid(ms: seq<Marked>) {
    forall i | 0 <= i < |ms| :: ValidMarked(ms[i])
  }

  /** How it lies in a file; a body comes after its length, which counts itself, high byte first. */
  function OnDisk(m: Marked): seq<Byte>
    requires ValidMarked(m)
  {
    match m
    case Bare(marker) => [0xFF, marker]
    case Block(marker, body) =>
      var n := |body| + 2;
      [0xFF, marker, n / 0x100, n % 0x100] + body
  }

  function AllOnDisk(ms: seq<Marked>): seq<Byte>
    requires AllValid(ms)
  {
    if ms == [] then [] else OnDisk(ms[0]) + AllOnDisk(ms[1..])
  }

  /** What the code removes: APP1, APP2, APP13, comments, and the marker 0x13. */
  predicate Removed(m: Marked) {
    m.Block? && m.marker in [0xE1, 0xE2, 0xED, 0xFE, 0x13]
  }

  function WithoutRemoved(ms: seq<Marked>): (r: seq<Marked>)
    requires AllValid(ms)
    ensures AllValid(r)
  {
    if ms == [] then [] else (if Removed(ms[0]) then [] else [ms[0]]) + WithoutRemoved(ms[1..])
  }

  function AsPiece(m: Marked): (p: Piece)
    requires ValidMarked(m)
    ensures ValidPiece(p)
  {
    match m
    case Bare(marker) => Standalone(marker)
    case Block(marker, body) => Segment(marker, body)
  }

  function AsPieces(ms: seq<Marked>): (ps: seq<Piece>)
    requires AllValid(ms)
    ensures |ps| == |ms| && Valid(ps) && forall i | 0 <= i < |ms| :: ps[i] == AsPiece(ms[i])
  {
    seq(|ms|, i requires 0 <= i < |ms| => AsPiece(ms[i]))
  }

  lemma PiecesCons(ms: seq<Marked>)
    requires AllValid(ms) && ms != []
    ensures AsPieces(ms) == [AsPiece(ms[0])] + AsPieces(ms[1..]) && AsPieces(ms)[1..] == AsPieces(ms[1..])
  {
  }

  lemma OnDiskIsPrinted(m: Marked)
    requires ValidMarked(m)
    ensures OnDisk(m) == PrintPiece(AsPiece(m))
  {
  }

  lemma {:induction false} AllOnDiskIsPrinted(ms: seq<Marked>)
    requires AllValid(ms)
    ensures AllOnDisk(ms) == Print(AsPieces(ms))
    decreases |ms|
  {
    if ms != [] {
      OnDiskIsPrinted(ms[0]);
      AllOnDiskIsPrinted(ms[1..]);
      PiecesCons(ms);
    }
  }

  lemma {:induction false} WithoutRemovedIsFilter(ms: seq<Marked>)
    requires AllValid(ms)
    ensures Filter(AsPieces(ms)) == AsPieces(WithoutRemoved(ms))
    decreases |ms|
  {
    if ms != [] {
      WithoutRemovedIsFilter(ms[1..]);
      PiecesCons(ms);
      var kept := WithoutRemoved(ms[1..]);
      if !Removed(ms[0]) {
        PiecesCons([ms[0]] + kept);
        assert ([ms[0]] + kept)[1..] == kept;
      }
    }
  }

  function Length(high: nat, low: nat): nat {
    high * 0x100 + low
  }

  /** What is copied as it is wherever a marker is due: the scan, bytes that do not start with FF, or a segment whose
      length is below two or reaches past the end. */
  predicate Verbatim(tail: seq<Byte>) {
    && |tail| >= 4
    && (tail[0] != 0xFF || tail[1] == 0xDA
        || (!StandsAlone(tail[1]) && (Length(tail[2], tail[3]) < 2 || 2 + Length(tail[2], tail[3]) > |tail|)))
  }

  /** Any file that parsing leaves at such bytes: exactly the segments the code removes go. */
  lemma StripsUpToVerbatim(ms: seq<Marked>, tail: seq<Byte>)
    requires AllValid(ms) && Verbatim(tail)
    ensures Strip([0xFF, 0xD8] + (AllOnDisk(ms) + tail)) == [0xFF, 0xD8] + (AllOnDisk(WithoutRemoved(ms)) + tail)
  {
    AllOnDiskIsPrinted(ms);
    WithoutRemovedIsFilter(ms);
    AllOnDiskIsPrinted(WithoutRemoved(ms));
    assert !HasPiece(tail);
    StripPrinted(Scan(AsPieces(ms), tail));
  }

  /** A well-formed file, byte by byte: SOI, whole marker segments and standalone markers, then SOS and the scan.
      Exactly the segments the code removes go; everything else stays as it was, in order. */
  lemma StripsExactlyRemoved(ms: seq<Marked>, scan: seq<Byte>)
    requires AllValid(ms) && |scan| >= 2
    ensures Strip([0xFF, 0xD8] + (AllOnDisk(ms) + ([0xFF, 0xDA] + scan)))
         == [0xFF, 0xD8] + (AllOnDisk(WithoutRemoved(ms)) + ([0xFF, 0xDA] + scan))
  {
    StripsUpToVerbatim(ms, [0xFF, 0xDA] + scan);
  }
}
