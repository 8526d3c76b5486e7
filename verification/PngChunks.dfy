/** What PNG stripping does to chunks by their names, and to a file byte by byte. */
module PngChunks {
  import opened Bytes
  import opened Png

  /** The chunk types that carry metadata: text, Exif and modification time. */
  predicate Metadata(name: string) {
    name in ["tEXt", "iTXt", "zTXt", "eXIf", "tIME"]
  }

  /** A chunk by the four bytes of its type, as letters. */
  datatype Named = Named(name: string, body: seq<Byte>, crc: seq<Byte>)

  predicate FourBytes(name: string) {
    |name| == 4 && forall i | 0 <= i < 4 :: name[i] as int < 0x100
  }

  predicate ValidNamed(c: Named) {
    FourBytes(c.name) && |c.crc| == 4 && |c.body| < 0x1_0000_0000
  }

  /** The number that four letters spell, first letter highest. */
  function Spelled(name: string): nat {
    if |name| != 4 then 0
    else name[0] as int * 0x100_0000 + name[1] as int * 0x1_0000 + name[2] as int * 0x100 + name[3] as int
  }

  /** How a chunk lies in a file: the length of its body, high byte first, its letters, its body and its checksum. */
  function OnDisk(c: Named): seq<Byte>
    requires ValidNamed(c)
  {
    var n := |c.body|;
    [n / 0x100_0000, n / 0x1_0000 % 0x100, n / 0x100 % 0x100, n % 0x100]
    + [c.name[0] as int, c.name[1] as int, c.name[2] as int, c.name[3] as int] + c.body + c.crc
  }

  predicate AllValid(cs: seq<Named>) {
    forall i | 0 <= i < |cs| :: ValidNamed(cs[i])
  }

  function AllOnDisk(cs: seq<Named>): seq<Byte>
    requires AllValid(cs)
  {
    if cs == [] then [] else OnDisk(cs[0]) + AllOnDisk(cs[1..])
  }

  function WithoutMetadata(cs: seq<Named>): (r: seq<Named>)
    requires AllValid(cs)
    ensures AllValid(r)
  {
    if cs == [] then [] else (if Metadata(cs[0].name) then [] else [cs[0]]) + WithoutMetadata(cs[1..])
  }

  lemma MetadataIsStripped(name: string)
    ensures Metadata(name) ==> Stripped(Spelled(name))
    ensures FourBytes(name) && Stripped(Spelled(name)) ==> Metadata(name)
    ensures FourBytes(name) ==> (Spelled(name) == IEND <==> name == "IEND")
  {
    assert Spelled("tEXt") == TEXT && Spelled("iTXt") == ITXT && Spelled("zTXt") == ZTXT;
    assert Spelled("eXIf") == EXIF && Spelled("tIME") == TIME && Spelled("IEND") == IEND;
    if FourBytes(name) {
      SpelledOnce(name, "tEXt");
      SpelledOnce(name, "iTXt");
      SpelledOnce(name, "zTXt");
      SpelledOnce(name, "eXIf");
      SpelledOnce(name, "tIME");
      SpelledOnce(name, "IEND");
    }
  }

  lemma SpelledOnce(a: string, b: string)
    requires FourBytes(a) && FourBytes(b)
    ensures Spelled(a) == Spelled(b) ==> a == b
  {
    FourDigits(a[0] as int, a[1] as int, a[2] as int, a[3] as int);
    FourDigits(b[0] as int, b[1] as int, b[2] as int, b[3] as int);
    if Spelled(a) == Spelled(b) {
      assert a[0] == b[0] && a[1] == b[1] && a[2] == b[2] && a[3] == b[3];
    }
  }

  function AsChunk(c: Named): (r: Chunk)
    requires ValidNamed(c)
    ensures ValidChunk(r)
  {
    Chunk(Spelled(c.name), c.body, c.crc)
  }

  lemma OnDiskIsPrinted(c: Named)
    requires ValidNamed(c)
    ensures OnDisk(c) == PrintChunk(AsChunk(c))
  {
    HighFirst(|c.body|);
    BytesInPlace(c.name);
  }

  lemma HighFirst(n: nat)
    requires n < 0x1_0000_0000
    ensures Put32(n) == [n / 0x100_0000, n / 0x1_0000 % 0x100, n / 0x100 % 0x100, n % 0x100]
  {
    LowHalf(n);
    assert Put32(n) == [n / 0x1_0000 / 0x100, n / 0x1_0000 % 0x100, n % 0x1_0000 / 0x100, n % 0x1_0000 % 0x100];
  }

  lemma BytesInPlace(name: string)
    requires FourBytes(name)
    ensures Put32(Spelled(name)) == [name[0] as int, name[1] as int, name[2] as int, name[3] as int]
  {
    HighFirst(Spelled(name));
    FourDigits(name[0] as int, name[1] as int, name[2] as int, name[3] as int);
  }

  lemma FourDigits(a: Byte, b: Byte, c: Byte, d: Byte)
    ensures var k := a * 0x100_0000 + b * 0x1_0000 + c * 0x100 + d;
      k / 0x100_0000 == a && k / 0x1_0000 % 0x100 == b && k / 0x100 % 0x100 == c && k % 0x100 == d
  {
    var k := a * 0x100_0000 + b * 0x1_0000 + c * 0x100 + d;
    var k2: nat := a * 0x1_0000 + b * 0x100 + c;
    var k3: nat := a * 0x100 + b;
    LastDigit(k, k2, d);
    LastDigit(k2, k3, c);
    LastDigit(k3, a, b);
    assert k / 0x1_0000 == k2 / 0x100 && k / 0x100_0000 == k3 / 0x100;
  }

  lemma LastDigit(k: nat, rest: nat, digit: Byte)
    requires k == rest * 0x100 + digit
    ensures k / 0x100 == rest && k % 0x100 == digit
  {
  }

  lemma LowHalf(n: nat)
    ensures n / 0x1_0000 / 0x100 == n / 0x100_0000
    ensures n % 0x1_0000 / 0x100 == n / 0x100 % 0x100 && n % 0x1_0000 % 0x100 == n % 0x100
  {
  }

  function AsChunks(cs: seq<Named>): (r: seq<Chunk>)
    requires AllValid(cs)
    ensures |r| == |cs| && Valid(r) && forall i | 0 <= i < |cs| :: r[i] == AsChunk(cs[i])
  {
    seq(|cs|, i requires 0 <= i < |cs| => AsChunk(cs[i]))
  }

  lemma {:induction false} AllOnDiskIsPrinted(cs: seq<Named>)
    requires AllValid(cs)
    ensures AllOnDisk(cs) == Print(AsChunks(cs))
    decreases |cs|
  {
    if cs != [] {
      OnDiskIsPrinted(cs[0]);
      AllOnDiskIsPrinted(cs[1..]);
      ChunksCons(cs);
    }
  }

  lemma {:induction false} WithoutMetadataIsFilter(cs: seq<Named>)
    requires AllValid(cs)
    ensures Filter(AsChunks(cs)) == AsChunks(WithoutMetadata(cs))
    decreases |cs|
  {
    if cs != [] {
      MetadataIsStripped(cs[0].name);
      WithoutMetadataIsFilter(cs[1..]);
      ChunksCons(cs);
      var kept := WithoutMetadata(cs[1..]);
      if !Metadata(cs[0].name) {
        ChunksCons([cs[0]] + kept);
        assert ([cs[0]] + kept)[1..] == kept;
      }
    }
  }

  lemma ChunksCons(cs: seq<Named>)
    requires AllValid(cs) && cs != []
    ensures AsChunks(cs) == [AsChunk(cs[0])] + AsChunks(cs[1..]) && AsChunks(cs)[1..] == AsChunks(cs[1..])
  {
  }

  /** A well-formed file, byte by byte: the signature and whole chunks up to their only IEND, whatever follows. Exactly
      the metadata chunks go; the others stay as they were, in order, and what follows IEND is cut off. */
  lemma StripsExactlyMetadata(cs: seq<Named>, tail: seq<Byte>)
    requires AllValid(cs) && cs != []
    requires forall i | 0 <= i < |cs| :: cs[i].name == "IEND" <==> i == |cs| - 1
    ensures Strip([0x89, 0x50, 0x4E, 0x47, 0x0D, 0x0A, 0x1A, 0x0A] + (AllOnDisk(cs) + tail))
         == [0x89, 0x50, 0x4E, 0x47, 0x0D, 0x0A, 0x1A, 0x0A] + AllOnDisk(WithoutMetadata(cs))
  {
    AllOnDiskIsPrinted(cs);
    WithoutMetadataIsFilter(cs);
    AllOnDiskIsPrinted(WithoutMetadata(cs));
    forall i | 0 <= i < |cs| ensures AsChunks(cs)[i].kind == IEND <==> i == |cs| - 1 {
      MetadataIsStripped(cs[i].name);
    }
    StripWellFormed(AsChunks(cs), tail);
  }

  /** Reading back printed chunks with no IEND among them, before bytes that hold no whole chunk. */
  lemma {:induction false} ParsePrintCut(cs: seq<Chunk>, tail: seq<Byte>)
    requires Valid(cs) && (forall i | 0 <= i < |cs| :: cs[i].kind != IEND) && !HasChunk(tail)
    ensures Parse(Print(cs) + tail) == cs
    decreases |cs|
  {
    if cs == [] {
      assert Print(cs) + tail == tail;
    } else {
      assert cs == [cs[0]] + cs[1..];
      ParsePrinted(cs[0], cs[1..], tail);
      ParsePrintCut(cs[1..], tail);
    }
  }

  /** The bytes end before a whole chunk does. */
  predicate NoWholeChunk(tail: seq<Byte>) {
    |tail| < 8 || 12 + tail[0] * 0x100_0000 + tail[1] * 0x1_0000 + tail[2] * 0x100 + tail[3] > |tail|
  }

  /** A file cut off before its IEND: exactly the metadata chunks go, and with them the incomplete chunk at the end. */
  lemma StripsCutFile(cs: seq<Named>, tail: seq<Byte>)
    requires AllValid(cs) && NoWholeChunk(tail) && forall i | 0 <= i < |cs| :: cs[i].name != "IEND"
    ensures Strip([0x89, 0x50, 0x4E, 0x47, 0x0D, 0x0A, 0x1A, 0x0A] + (AllOnDisk(cs) + tail))
         == [0x89, 0x50, 0x4E, 0x47, 0x0D, 0x0A, 0x1A, 0x0A] + AllOnDisk(WithoutMetadata(cs))
  {
    AllOnDiskIsPrinted(cs);
    WithoutMetadataIsFilter(cs);
    AllOnDiskIsPrinted(WithoutMetadata(cs));
    forall i | 0 <= i < |cs| ensures AsChunks(cs)[i].kind != IEND {
      MetadataIsStripped(cs[i].name);
    }
    assert !HasChunk(tail);
    ParsePrintCut(AsChunks(cs), tail);
    StripAfterMagic(Print(AsChunks(cs)) + tail);
  }

  /** Reading back the output of arbitrary bytes with the signature finds no metadata chunk. */
  lemma NothingStrippedRemains(data: seq<Byte>)
    requires StartsWith(data, [0x89, 0x50, 0x4E, 0x47, 0x0D, 0x0A, 0x1A, 0x0A])
    ensures |Strip(data)| >= 8
    ensures forall i, name | 0 <= i < |Parse(Strip(data)[8..])| && Metadata(name) ::
      Parse(Strip(data)[8..])[i].kind != Spelled(name)
  {
    OutputIsClean(data);
    forall name | Metadata(name) ensures Stripped(Spelled(name)) {
      MetadataIsStripped(name);
    }
  }
}
