/** Curated exports (services/exports.py): whole conversations into splits, splits into numbered parts. */
module Exports {
  import opened Common

  const RECORDS_PER_PART := 5000

  datatype Record = Record(conversation: nat, body: string, split: string)

  datatype Part = Part(number: nat, split: string, records: seq<Record>, byteSize: nat)

  // ---------------------------------------------------------------- names in order

  predicate Less(a: string, b: string) {
    if b == "" then false
    else if a == "" then true
    else a[0] < b[0] || (a[0] == b[0] && Less(a[1..], b[1..]))
  }

  lemma {:induction false} LessIsTotal(a: string, b: string)
    ensures a == b || Less(a, b) || Less(b, a)
    decreases |a|
  {
    if a != "" && b != "" && a[0] == b[0] {
      LessIsTotal(a[1..], b[1..]);
      assert a == [a[0]] + a[1..] && b == [b[0]] + b[1..];
    }
  }

  lemma {:induction false} LessIsTransitive(a: string, b: string, c: string)
    requires Less(a, b) && Less(b, c)
    ensures Less(a, c)
    decreases |a|
  {
    if a != "" && a[0] == b[0] && b[0] == c[0] {
      LessIsTransitive(a[1..], b[1..], c[1..]);
    }
  }

  /** The names first differ at `n`, where `a` has ended or has the smaller character. */
  ghost predicate DiffersAt(a: string, b: string, n: nat) {
    && n <= |a| && n < |b| && a[..n] == b[..n] && (n == |a| || a[n] < b[n])
  }

  /** The order is that of a dictionary. */
  lemma {:induction false} LessIsLexicographic(a: string, b: string)
    ensures Less(a, b) <==> exists n: nat :: DiffersAt(a, b, n)
    decreases |a|
  {
    if b != "" && a != "" {
      LessIsLexicographic(a[1..], b[1..]);
      if a[0] == b[0] {
        if Less(a[1..], b[1..]) {
          var n: nat :| DiffersAt(a[1..], b[1..], n);
          assert a[..n + 1] == [a[0]] + a[1..][..n] && b[..n + 1] == [b[0]] + b[1..][..n];
          assert DiffersAt(a, b, n + 1);
        }
        forall n: nat | DiffersAt(a, b, n) ensures Less(a, b) {
          assert n > 0;
          assert a[1..][..n - 1] == a[..n][1..] && b[1..][..n - 1] == b[..n][1..];
          assert DiffersAt(a[1..], b[1..], n - 1);
        }
      } else {
        assert a[..0] == b[..0];
        assert a[0] < b[0] ==> DiffersAt(a, b, 0);
        forall n: nat | DiffersAt(a, b, n) ensures a[0] < b[0] {
          if n > 0 {
            assert a[..n][0] == b[..n][0];
          }
        }
      }
    } else if b != "" {
      assert a[..0] == b[..0];
      assert DiffersAt(a, b, 0);
    }
  }

  predicate IsLeast(names: set<string>, n: string) {
    n in names && forall m | m in names && m != n :: Less(n, m)
  }

  lemma {:induction false} LeastExists(names: set<string>)
    requires names != {}
    ensures exists n :: IsLeast(names, n)
    decreases names
  {
    var n :| n in names;
    var rest := names - {n};
    if rest == {} {
      assert forall m | m in names :: m == n || m in rest;
      assert IsLeast(names, n);
    } else {
      LeastExists(rest);
      var m :| IsLeast(rest, m);
      LessIsTotal(n, m);
      if Less(n, m) {
        forall k | k in names && k != n ensures Less(n, k) {
          assert k in rest;
          if k != m { LessIsTransitive(n, m, k); }
        }
        assert IsLeast(names, n);
      } else {
        assert forall k | k in names && k != m :: k == n || k in rest;
        assert IsLeast(names, m);
      }
    }
  }

  ghost predicate InOrder(names: seq<string>) {
    forall i, k | 0 <= i < k < |names| :: Less(names[i], names[k]) && names[i] != names[k]
  }

  method Sorted(keys: set<string>) returns (names: seq<string>)
    ensures InOrder(names) && forall n :: n in names <==> n in keys
  {
    names := [];
    var rest := keys;
    while rest != {}
      invariant InOrder(names) && forall n :: n in keys <==> n in names || n in rest
      invariant forall n, m | n in names && m in rest :: Less(n, m) && n != m
      decreases rest
    {
      LeastExists(rest);
      var least :| least in rest && IsLeast(rest, least);
      names := names + [least];
      rest := rest - {least};
    }
  }

  // ---------------------------------------------------------------- specification

  /** The records a run builds, in the order of its conversations; a conversation that is gone yields none. */
  function Built(ids: seq<nat>, build: nat -> Option<string>, split: nat -> string): seq<Record> {
    if ids == [] then []
    else
      var id := ids[|ids| - 1];
      Built(ids[..|ids| - 1], build, split)
      + (match build(id) case None => [] case Some(body) => [Record(id, body, split(id))])
  }

  function OfSplit(records: seq<Record>, s: string): seq<Record> {
    if records == [] then []
    else
      var r := records[|records| - 1];
      OfSplit(records[..|records| - 1], s) + if r.split == s then [r] else []
  }

  /** The records split by split, each in its original order. */
  function Gathered(records: seq<Record>, names: seq<string>): seq<Record> {
    if names == [] then []
    else Gathered(records, names[..|names| - 1]) + OfSplit(records, names[|names| - 1])
  }

  function Written(parts: seq<Part>): seq<Record> {
    if parts == [] then [] else Written(parts[..|parts| - 1]) + parts[|parts| - 1].records
  }

  function TotalBytes(parts: seq<Part>): nat {
    if parts == [] then 0 else TotalBytes(parts[..|parts| - 1]) + parts[|parts| - 1].byteSize
  }

  /** Numbered from one, between one and 5000 records each, of one split, and full unless the split ends there. */
  ghost predicate WellFormed(parts: seq<Part>) {
    && (forall k | 0 <= k < |parts| :: parts[k].number == k + 1 && 1 <= |parts[k].records| <= 5000)
    && (forall k, j | 0 <= k < |parts| && 0 <= j < |parts[k].records| :: parts[k].records[j].split == parts[k].split)
    && forall k | 0 <= k < |parts| - 1 && parts[k].split == parts[k + 1].split :: |parts[k].records| == 5000
  }

  // ---------------------------------------------------------------- the run

  /** Fills the buckets. */
  method Bucketed(ids: seq<nat>, build: nat -> Option<string>, split: nat -> string)
    returns (buckets: map<string, seq<Record>>)
    ensures var records := Built(ids, build, split);
      forall s :: (s in buckets <==> OfSplit(records, s) != []) && (s in buckets ==> buckets[s] == OfSplit(records, s))
  {
    buckets := map[];
    var i := 0;
    while i < |ids|
      invariant 0 <= i <= |ids|
      invariant var records := Built(ids[..i], build, split);
        forall s :: (s in buckets <==> OfSplit(records, s) != [])
          && (s in buckets ==> buckets[s] == OfSplit(records, s))
    {
      assert ids[..i + 1][..i] == ids[..i];
      match build(ids[i]) {
        case None =>
          assert Built(ids[..i + 1], build, split) == Built(ids[..i], build, split);
        case Some(body) =>
          var record := Record(ids[i], body, split(ids[i]));
          OneMoreRecord(Built(ids[..i], build, split), record);
          var sofar := if record.split in buckets then buckets[record.split] else [];
          buckets := buckets[record.split := sofar + [record]];
      }
      i := i + 1;
    }
    assert ids[..i] == ids;
  }

  lemma OneMoreRecord(records: seq<Record>, r: Record)
    ensures forall s :: OfSplit(records + [r], s) == OfSplit(records, s) + if r.split == s then [r] else []
  {
    assert (records + [r])[..|records|] == records;
  }

  lemma {:induction false} SplitIsPure(records: seq<Record>, s: string)
    ensures forall j | 0 <= j < |OfSplit(records, s)| :: OfSplit(records, s)[j].split == s
    decreases |records|
  {
    if records != [] {
      SplitIsPure(records[..|records| - 1], s);
    }
  }

  /** The parts one split's `taken` records were cut into, numbered on from `base`. */
  ghost predicate Cut(parts: seq<Part>, base: nat, s: string, taken: seq<Record>, size: seq<Record> -> nat) {
    && Written(parts) == taken
    && (forall k {:trigger parts[k]} | 0 <= k < |parts| :: PartOf(parts[k], base + k + 1, s, size))
    && forall k | 0 <= k < |parts| - 1 :: |parts[k].records| == 5000
  }

  ghost predicate PartOf(p: Part, number: nat, s: string, size: seq<Record> -> nat) {
    && p.number == number && p.split == s && 1 <= |p.records| <= 5000 && p.byteSize == size(p.records)
    && forall j | 0 <= j < |p.records| :: p.records[j].split == s
  }

  /** Cuts one bucket into parts of 5000. `size` is what storing a part reports. */
  method CutBucket(base: nat, s: string, bucket: seq<Record>, size: seq<Record> -> nat) returns (parts: seq<Part>)
    requires forall j | 0 <= j < |bucket| :: bucket[j].split == s
    ensures Cut(parts, base, s, bucket, size)
  {
    parts := [];
    var at := 0;
    while at < |bucket|
      invariant 0 <= at <= |bucket| && Cut(parts, base, s, bucket[..at], size)
      invariant at < |bucket| && |parts| > 0 ==> |parts[|parts| - 1].records| == RECORDS_PER_PART
      decreases |bucket| - at
    {
      var end := if at + RECORDS_PER_PART < |bucket| then at + RECORDS_PER_PART else |bucket|;
      var chunk := bucket[at..end];
      var part := Part(base + |parts| + 1, s, chunk, size(chunk));
      assert bucket[..at] + chunk == bucket[..end];
      CutStep(parts, base, s, bucket[..at], part, size);
      parts := parts + [part];
      at := end;
    }
    assert bucket[..at] == bucket;
  }

  lemma CutStep(parts: seq<Part>, base: nat, s: string, taken: seq<Record>, p: Part, size: seq<Record> -> nat)
    requires Cut(parts, base, s, taken, size) && PartOf(p, base + |parts| + 1, s, size)
    requires |parts| > 0 ==> |parts[|parts| - 1].records| == RECORDS_PER_PART
    ensures Cut(parts + [p], base, s, taken + p.records, size)
  {
    var more := parts + [p];
    WrittenAppend(parts, p);
    forall k {:trigger more[k]} | 0 <= k < |more| ensures PartOf(more[k], base + k + 1, s, size) {
      assert k < |parts| ==> more[k] == parts[k];
    }
  }

  lemma WrittenAppend(parts: seq<Part>, p: Part)
    ensures Written(parts + [p]) == Written(parts) + p.records
  {
    assert (parts + [p])[..|parts|] == parts;
  }

  lemma {:induction false} WrittenJoin(a: seq<Part>, b: seq<Part>)
    ensures Written(a + b) == Written(a) + Written(b)
    decreases |b|
  {
    if b == [] {
      assert a + b == a;
    } else {
      var n := |b| - 1;
      assert (a + b)[..|a + b| - 1] == a + b[..n];
      WrittenJoin(a, b[..n]);
    }
  }

  /** Appending a new split's parts keeps the list well formed. */
  lemma JoinParts(parts: seq<Part>, more: seq<Part>, s: string, taken: seq<Record>, size: seq<Record> -> nat)
    requires WellFormed(parts) && Cut(more, |parts|, s, taken, size)
    requires forall k | 0 <= k < |parts| :: parts[k].split != s
    ensures WellFormed(parts + more) && Written(parts + more) == Written(parts) + taken
    ensures forall k | |parts| <= k < |parts + more| :: PartOf((parts + more)[k], k + 1, s, size)
  {
    WrittenJoin(parts, more);
    forall k | |parts| <= k < |parts + more| ensures PartOf((parts + more)[k], k + 1, s, size) {
      assert (parts + more)[k] == more[k - |parts|];
    }
    JoinKeepsForm(parts, more, s, size);
  }

  lemma JoinKeepsForm(parts: seq<Part>, more: seq<Part>, s: string, size: seq<Record> -> nat)
    requires WellFormed(parts) && forall k | 0 <= k < |parts| :: parts[k].split != s
    requires forall k | |parts| <= k < |parts + more| :: PartOf((parts + more)[k], k + 1, s, size)
    requires forall k | 0 <= k < |more| - 1 :: |more[k].records| == RECORDS_PER_PART
    ensures WellFormed(parts + more)
  {
    var all := parts + more;
    assert forall k | 0 <= k < |parts| :: all[k] == parts[k];
    forall k | 0 <= k < |all| - 1 && all[k].split == all[k + 1].split ensures |all[k].records| == RECORDS_PER_PART {
      if k >= |parts| {
        assert all[k] == more[k - |parts|];
      }
    }
  }

  /** An export run: the parts and their totals. `useSplit` off puts everything in one split. */
  method RunExport(ids: seq<nat>, build: nat -> Option<string>, splitOf: nat -> string, useSplit: bool,
                   size: seq<Record> -> nat)
    returns (parts: seq<Part>, totalRecords: nat, totalBytes: nat, names: seq<string>)
    ensures var split := if useSplit then splitOf else (id: nat) => "all";
      var records := Built(ids, build, split);
      && InOrder(names) && (forall s :: s in names <==> OfSplit(records, s) != [])
      && WellFormed(parts) && Written(parts) == Gathered(records, names)
      && totalRecords == |Written(parts)| && totalBytes == TotalBytes(parts)
      && forall k | 0 <= k < |parts| :: parts[k].byteSize == size(parts[k].records)
  {
    var split := if useSplit then splitOf else (id: nat) => "all";
    ghost var records := Built(ids, build, split);
    var buckets := Bucketed(ids, build, split);
    names := Sorted(buckets.Keys);
    parts := WriteParts(names, buckets, records, size);
    totalRecords, totalBytes := Totals(parts);
  }

  /** The loop over the splits in order. */
  method WriteParts(names: seq<string>, buckets: map<string, seq<Record>>, ghost records: seq<Record>,
                    size: seq<Record> -> nat)
    returns (parts: seq<Part>)
    requires InOrder(names) && forall n | n in names :: n in buckets && buckets[n] == OfSplit(records, n)
    ensures WellFormed(parts) && Written(parts) == Gathered(records, names)
    ensures forall k | 0 <= k < |parts| :: parts[k].byteSize == size(parts[k].records)
  {
    parts := [];
    var i := 0;
    while i < |names|
      invariant 0 <= i <= |names|
      invariant WellFormed(parts) && Written(parts) == Gathered(records, names[..i])
      invariant forall k | 0 <= k < |parts| ::
        parts[k].split in names[..i] && parts[k].byteSize == size(parts[k].records)
    {
      assert names[..i + 1][..i] == names[..i];
      SplitIsPure(records, names[i]);
      ghost var before := parts;
      var more := CutBucket(|parts|, names[i], buckets[names[i]], size);
      JoinParts(parts, more, names[i], buckets[names[i]], size);
      parts := parts + more;
      forall k | 0 <= k < |parts|
        ensures parts[k].split in names[..i + 1] && parts[k].byteSize == size(parts[k].records)
      {
        if k < |before| {
          assert parts[k] == before[k];
        }
      }
      i := i + 1;
    }
    assert names[..i] == names;
  }

  method Totals(parts: seq<Part>) returns (records: nat, bytes: nat)
    ensures records == |Written(parts)| && bytes == TotalBytes(parts)
  {
    records, bytes := 0, 0;
    var k := 0;
    while k < |parts|
      invariant 0 <= k <= |parts|
      invariant records == |Written(parts[..k])| && bytes == TotalBytes(parts[..k])
    {
      assert parts[..k + 1][..k] == parts[..k];
      records, bytes := records + |parts[k].records|, bytes + parts[k].byteSize;
      k := k + 1;
    }
    assert parts[..k] == parts;
  }

  // ---------------------------------------------------------------- what the parts amount to

  lemma {:induction false} SplitCopies(records: seq<Record>, s: string, r: Record)
    ensures multiset(OfSplit(records, s))[r] == if r.split == s then multiset(records)[r] else 0
    decreases |records|
  {
    if records != [] {
      var n := |records| - 1;
      SplitCopies(records[..n], s, r);
      assert records == records[..n] + [records[n]];
    }
  }

  lemma {:induction false} GatheredCopies(records: seq<Record>, names: seq<string>, r: Record)
    requires InOrder(names)
    ensures multiset(Gathered(records, names))[r] == if r.split in names then multiset(records)[r] else 0
    decreases |names|
  {
    if names != [] {
      var n := |names| - 1;
      GatheredCopies(records, names[..n], r);
      SplitCopies(records, names[n], r);
      assert names == names[..n] + [names[n]];
    }
  }

  function CopiesInParts(parts: seq<Part>, s: string, r: Record): nat {
    if parts == [] then 0
    else
      var p := parts[|parts| - 1];
      CopiesInParts(parts[..|parts| - 1], s, r) + if p.split == s then multiset(p.records)[r] else 0
  }

  lemma {:induction false} CopiesOnlyInOwnSplit(parts: seq<Part>, s: string, r: Record)
    requires WellFormed(parts)
    ensures CopiesInParts(parts, s, r) == if s == r.split then multiset(Written(parts))[r] else 0
    decreases |parts|
  {
    if parts != [] {
      var n := |parts| - 1;
      CopiesOnlyInOwnSplit(parts[..n], s, r);
      var p := parts[n];
      if p.split != r.split {
        assert r !in p.records;
      }
    }
  }

  /** Every built record is written as often as it was built, in parts of its own split and in no other split's. */
  lemma EveryRecordInItsSplitOnce(records: seq<Record>, names: seq<string>, parts: seq<Part>, s: string, r: Record)
    requires InOrder(names) && (forall t :: t in names <==> OfSplit(records, t) != [])
    requires WellFormed(parts) && Written(parts) == Gathered(records, names)
    ensures CopiesInParts(parts, s, r) == if s == r.split then multiset(records)[r] else 0
  {
    CopiesOnlyInOwnSplit(parts, s, r);
    GatheredCopies(records, names, r);
    SplitCopies(records, r.split, r);
  }

  lemma {:induction false} BuiltOnce(ids: seq<nat>, build: nat -> Option<string>, split: nat -> string, r: Record)
    requires forall i, k | 0 <= i < k < |ids| :: ids[i] != ids[k]
    ensures multiset(Built(ids, build, split))[r]
         == if r.conversation in ids && build(r.conversation) == Some(r.body)
           && r.split == split(r.conversation) then 1 else 0
    decreases |ids|
  {
    if ids != [] {
      var n := |ids| - 1;
      BuiltOnce(ids[..n], build, split, r);
      assert ids == ids[..n] + [ids[n]];
    }
  }

  /** For distinct conversations: one that yields a record is written exactly once, in its single split, and nothing
      else is. */
  lemma {:induction false} ConversationsNeverSpanSplits(ids: seq<nat>, build: nat -> Option<string>,
                                                        split: nat -> string,
                                     names: seq<string>, parts: seq<Part>, s: string, r: Record)
    requires forall i, k | 0 <= i < k < |ids| :: ids[i] != ids[k]
    requires var records := Built(ids, build, split);
      && InOrder(names) && (forall t :: t in names <==> OfSplit(records, t) != [])
      && WellFormed(parts) && Written(parts) == Gathered(records, names)
    ensures CopiesInParts(parts, s, r)
         == if r.conversation in ids && build(r.conversation) == Some(r.body) && r.split == split(r.conversation)
           && s == r.split
            then 1 else 0
  {
    EveryRecordInItsSplitOnce(Built(ids, build, split), names, parts, s, r);
    BuiltOnce(ids, build, split, r);
  }

  /** The record total is the number of records built. */
  lemma {:induction false} TotalsAgree(records: seq<Record>, names: seq<string>, parts: seq<Part>)
    requires InOrder(names) && (forall t :: t in names <==> OfSplit(records, t) != [])
    requires Written(parts) == Gathered(records, names)
    ensures multiset(Written(parts)) == multiset(records) && |Written(parts)| == |records|
  {
    forall r: Record ensures multiset(Written(parts))[r] == multiset(records)[r] {
      GatheredCopies(records, names, r);
      SplitCopies(records, r.split, r);
    }
    var written, built := multiset(Written(parts)), multiset(records);
    assert forall r: Record :: written[r] == built[r];
    assert written == built;
    assert |Written(parts)| == |written| && |records| == |built|;
  }
}
