/** In what order an export writes, and what its totals add up. */
module ExportOrder {
  import opened Common
  import opened Exports

  lemma LastOf<T>(a: seq<T>, b: seq<T>)
    requires b != []
    ensures var n := |b| - 1; (a + b)[..|a + b| - 1] == a + b[..n] && (a + b)[|a + b| - 1] == b[n]
  {
  }

  /** Records are built conversation by conversation, in the order given. */
  lemma {:induction false} BuiltInOrder(a: seq<nat>, b: seq<nat>, build: nat -> Option<string>, split: nat -> string)
    ensures Built(a + b, build, split) == Built(a, build, split) + Built(b, build, split)
    decreases |b|
  {
    if b == [] {
      assert a + b == a;
    } else {
      LastOf(a, b);
      BuiltInOrder(a, b[..|b| - 1], build, split);
    }
  }

  lemma BuiltAlone(id: nat, build: nat -> Option<string>, split: nat -> string)
    ensures Built([id], build, split) == if build(id).Some? then [Record(id, build(id).value, split(id))] else []
  {
    assert [id][..0] == [];
  }

  /** A split keeps its records in the order they were built. */
  lemma {:induction false} SplitKeepsOrder(a: seq<Record>, b: seq<Record>, s: string)
    ensures OfSplit(a + b, s) == OfSplit(a, s) + OfSplit(b, s)
    decreases |b|
  {
    if b == [] {
      assert a + b == a;
    } else {
      LastOf(a, b);
      SplitKeepsOrder(a, b[..|b| - 1], s);
    }
  }

  lemma SplitOfOne(r: Record, s: string)
    ensures OfSplit([r], s) == if r.split == s then [r] else []
  {
    assert [r][..0] == [];
  }

  lemma {:induction false} GatheredJoin(records: seq<Record>, a: seq<string>, b: seq<string>)
    ensures Gathered(records, a + b) == Gathered(records, a) + Gathered(records, b)
    decreases |b|
  {
    if b == [] {
      assert a + b == a;
    } else {
      LastOf(a, b);
      GatheredJoin(records, a, b[..|b| - 1]);
    }
  }

  /** The splits come one after the other, in the order of their names. */
  lemma GatheredGoesByName(records: seq<Record>, names: seq<string>, i: nat)
    requires i < |names|
    ensures Gathered(records, names)
         == Gathered(records, names[..i]) + OfSplit(records, names[i]) + Gathered(records, names[i + 1..])
  {
    assert names == names[..i + 1] + names[i + 1..];
    GatheredJoin(records, names[..i + 1], names[i + 1..]);
    assert names[..i + 1][..i] == names[..i];
  }

  function Sizes(parts: seq<Part>): (sizes: seq<nat>)
    ensures |sizes| == |parts| && forall k | 0 <= k < |parts| :: sizes[k] == parts[k].byteSize
  {
    seq(|parts|, k requires 0 <= k < |parts| => parts[k].byteSize)
  }

  /** The byte total is the sum over the parts. */
  lemma {:induction false} TotalBytesIsSum(parts: seq<Part>)
    ensures TotalBytes(parts) == Sum(Sizes(parts))
    decreases |parts|
  {
    if parts != [] {
      var n := |parts| - 1;
      TotalBytesIsSum(parts[..n]);
      assert Sizes(parts) == Sizes(parts[..n]) + [parts[n].byteSize];
      SumAppend(Sizes(parts[..n]), [parts[n].byteSize]);
    }
  }
}
