/** Bytes and their big-endian numbers. */
module Bytes {
  type Byte = x: nat | x < 256

  function Be16(b: seq<Byte>, i: nat): nat
    requires i + 2 <= |b|
  {
    var high: nat := b[i];
    high * 256 + b[i + 1]
  }

  function Be32(b: seq<Byte>, i: nat): nat
    requires i + 4 <= |b|
  {
    Be16(b, i) * 65536 + Be16(b, i + 2)
  }

  function Put16(n: nat): (b: seq<Byte>)
    requires n < 65536
    ensures |b| == 2 && Be16(b, 0) == n
  {
    [n / 256, n % 256]
  }

  function Put32(n: nat): (b: seq<Byte>)
    requires n < 0x1_0000_0000
    ensures |b| == 4 && Be32(b, 0) == n
  {
    var high, low := Put16(n / 65536), Put16(n % 65536);
    [high[0], high[1], low[0], low[1]]
  }

  lemma Be16Range(b: seq<Byte>, i: nat)
    requires i + 2 <= |b|
    ensures Be16(b, i) < 65536 && Put16(Be16(b, i)) == b[i..i + 2]
  {
  }

  lemma Be32Range(b: seq<Byte>, i: nat)
    requires i + 4 <= |b|
    ensures Be32(b, i) < 0x1_0000_0000 && Put32(Be32(b, i)) == b[i..i + 4]
  {
    Be16Range(b, i);
    Be16Range(b, i + 2);
    var high, low := Be16(b, i), Be16(b, i + 2);
    assert Be32(b, i) / 65536 == high && Be32(b, i) % 65536 == low;
    assert Put16(high)[0] == b[i..i + 2][0] && Put16(high)[1] == b[i..i + 2][1];
    assert Put16(low)[0] == b[i + 2..i + 4][0] && Put16(low)[1] == b[i + 2..i + 4][1];
  }

  predicate StartsWith(data: seq<Byte>, prefix: seq<Byte>) {
    |data| >= |prefix| && data[..|prefix|] == prefix
  }

  /** Two adjacent fronts make a front. */
  lemma Glue(b: seq<Byte>, first: seq<Byte>, second: seq<Byte>)
    requires StartsWith(b, first) && StartsWith(b[|first|..], second)
    ensures StartsWith(b, first + second)
  {
    assert b[..|first|] + b[|first|..][..|second|] == b[..|first| + |second|];
  }

  lemma AfterFront(front: seq<Byte>, rest: seq<Byte>)
    ensures StartsWith(front + rest, front) && (front + rest)[|front|..] == rest
  {
  }
}
