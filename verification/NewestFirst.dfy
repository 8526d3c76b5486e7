/** A message's versions as the reconcile job reads them: newest first. */
module NewestFirst {
  import opened Common
  import opened Ingestion

  /** Rows by descending version number; equal numbers in table order. */
  function InsertDescending(vs: seq<Version>, rows: seq<nat>, v: nat): (r: seq<nat>)
    requires v < |vs| && forall i | 0 <= i < |rows| :: rows[i] < |vs|
    ensures |r| == |rows| + 1 && forall i | 0 <= i < |r| :: r[i] < |vs|
  {
    if rows == [] then [v]
    else if vs[rows[0]].number >= vs[v].number then [rows[0]] + InsertDescending(vs, rows[1..], v)
    else [v] + rows
  }

  lemma {:induction false} InsertedAre(vs: seq<Version>, rows: seq<nat>, v: nat)
    requires v < |vs| && forall i | 0 <= i < |rows| :: rows[i] < |vs|
    ensures forall w :: w in InsertDescending(vs, rows, v) <==> w == v || w in rows
    decreases |rows|
  {
    if rows != [] && vs[rows[0]].number >= vs[v].number {
      InsertedAre(vs, rows[1..], v);
      assert rows == [rows[0]] + rows[1..];
    }
  }

  /** The query: the versions of `m` among the first `n` rows, ordered by version number, newest first. */
  function VersionsDescending(vs: seq<Version>, m: nat, n: nat): (rows: seq<nat>)
    requires n <= |vs|
    ensures forall i | 0 <= i < |rows| :: rows[i] < |vs|
  {
    if n == 0 then []
    else
      var rows := VersionsDescending(vs, m, n - 1);
      if vs[n - 1].message == m then InsertDescending(vs, rows, n - 1) else rows
  }

  lemma {:induction false} DescendingAreRows(vs: seq<Version>, m: nat, n: nat)
    requires n <= |vs|
    ensures forall v: nat :: v in VersionsDescending(vs, m, n) <==> v < n && vs[v].message == m
  {
    if n > 0 {
      DescendingAreRows(vs, m, n - 1);
      InsertedAre(vs, VersionsDescending(vs, m, n - 1), n - 1);
    }
  }

  /** Each row is no newer than the one before it. */
  ghost predicate Descending(vs: seq<Version>, rows: seq<nat>)
    requires forall i | 0 <= i < |rows| :: rows[i] < |vs|
  {
    |rows| < 2 || (vs[rows[0]].number >= vs[rows[1]].number && Descending(vs, rows[1..]))
  }

  lemma {:induction false} InsertKeepsOrder(vs: seq<Version>, rows: seq<nat>, v: nat)
    requires v < |vs| && forall i | 0 <= i < |rows| :: rows[i] < |vs|
    requires Descending(vs, rows)
    ensures Descending(vs, InsertDescending(vs, rows, v))
    decreases |rows|
  {
    var r := InsertDescending(vs, rows, v);
    if rows != [] {
      if vs[rows[0]].number >= vs[v].number {
        InsertKeepsOrder(vs, rows[1..], v);
        assert r[1..] == InsertDescending(vs, rows[1..], v);
      } else {
        assert r[1..] == rows;
      }
    }
  }

  function FirstComplete(vs: seq<Version>, rows: seq<nat>): (r: Option<nat>)
    requires forall i | 0 <= i < |rows| :: rows[i] < |vs|
    ensures r.Some? ==> rows != [] && r.value < |vs|
  {
    if rows == [] then None
    else if vs[rows[0]].completion == Complete then Some(rows[0])
    else FirstComplete(vs, rows[1..])
  }

  /** The newer of two complete versions, the first one if equally new. */
  function Newer(vs: seq<Version>, best: Option<nat>, v: nat): Option<nat>
    requires v < |vs| && (best.Some? ==> best.value < |vs|)
  {
    if vs[v].completion == Complete && (best.None? || vs[best.value].number < vs[v].number) then Some(v) else best
  }

  lemma {:induction false} FirstCompleteIsLeading(vs: seq<Version>, rows: seq<nat>)
    requires forall i | 0 <= i < |rows| :: rows[i] < |vs|
    requires Descending(vs, rows)
    ensures FirstComplete(vs, rows).Some? ==> vs[FirstComplete(vs, rows).value].number <= vs[rows[0]].number
    decreases |rows|
  {
    if rows != [] && vs[rows[0]].completion != Complete {
      FirstCompleteIsLeading(vs, rows[1..]);
    }
  }

  /** Inserting a row changes the first complete one only if it is complete and strictly newer. */
  lemma {:induction false} FirstCompleteAfterInsert(vs: seq<Version>, rows: seq<nat>, v: nat)
    requires v < |vs| && forall i | 0 <= i < |rows| :: rows[i] < |vs|
    requires Descending(vs, rows)
    ensures FirstComplete(vs, InsertDescending(vs, rows, v)) == Newer(vs, FirstComplete(vs, rows), v)
    decreases |rows|
  {
    FirstCompleteIsLeading(vs, rows);
    if rows != [] {
      FirstCompleteAfterInsert(vs, rows[1..], v);
      if vs[rows[0]].number >= vs[v].number {
        assert ([rows[0]] + InsertDescending(vs, rows[1..], v))[1..] == InsertDescending(vs, rows[1..], v);
      } else {
        assert ([v] + rows)[1..] == rows;
      }
    }
  }

  lemma {:induction false} RowsAreDescending(vs: seq<Version>, m: nat, n: nat)
    requires n <= |vs|
    ensures Descending(vs, VersionsDescending(vs, m, n))
  {
    if n > 0 {
      RowsAreDescending(vs, m, n - 1);
      if vs[n - 1].message == m {
        InsertKeepsOrder(vs, VersionsDescending(vs, m, n - 1), n - 1);
      }
    }
  }

  /** Reading newest first, the first complete version is the newest complete one. */
  lemma {:induction false} FirstCompleteIsNewest(s: Archive, m: nat, n: nat)
    requires n <= |s.versions|
    ensures FirstComplete(s.versions, VersionsDescending(s.versions, m, n)) == NewestComplete(s, m, n)
  {
    if n > 0 {
      FirstCompleteIsNewest(s, m, n - 1);
      RowsAreDescending(s.versions, m, n - 1);
      if s.versions[n - 1].message == m {
        FirstCompleteAfterInsert(s.versions, VersionsDescending(s.versions, m, n - 1), n - 1);
      }
    }
  }
}
