/** Monthly partitions (services/partitions.py and the first migration): month arithmetic, creation and dropping. */
module Partitions {
  datatype Date = Date(year: int, month: int, day: int)

  predicate Valid(d: Date) {
    1 <= d.month <= 12 && d.day >= 1
  }

  predicate Before(a: Date, b: Date) {
    a.year < b.year || (a.year == b.year && (a.month < b.month || (a.month == b.month && a.day < b.day)))
  }

  predicate AtMost(a: Date, b: Date) {
    a == b || Before(a, b)
  }

  function MonthStart(d: Date): Date {
    d.(day := 1)
  }

  function NextMonth(d: Date): Date {
    if d.month == 12 then Date(d.year + 1, 1, 1) else Date(d.year, d.month + 1, 1)
  }

  function MonthsOn(d: Date, k: nat): Date {
    if k == 0 then d else NextMonth(MonthsOn(d, k - 1))
  }

  /** The closed form: first and last bound of the month `offset` months after `today`. */
  function MonthBounds(today: Date, offset: nat): (Date, Date) {
    var months := today.month + offset;
    var year, month := today.year + (months - 1) / 12, (months - 1) % 12 + 1;
    (Date(year, month, 1), if month == 12 then Date(year + 1, 1, 1) else Date(year, month + 1, 1))
  }

  /** The closed form is `NextMonth` taken `offset` times, and its end is where the following month starts. */
  lemma {:induction false} MonthBoundsIsIteration(today: Date, offset: nat)
    requires Valid(today)
    ensures MonthBounds(today, offset).0 == MonthsOn(MonthStart(today), offset)
    ensures MonthBounds(today, offset).1 == MonthsOn(MonthStart(today), offset + 1) == MonthBounds(today, offset + 1).0
    decreases offset
  {
    if offset > 0 {
      MonthBoundsIsIteration(today, offset - 1);
    }
    CarryOver(today.month + offset - 1);
  }

  lemma CarryOver(n: nat)
    ensures n % 12 == 11 ==> (n + 1) / 12 == n / 12 + 1 && (n + 1) % 12 == 0
    ensures n % 12 != 11 ==> (n + 1) / 12 == n / 12 && (n + 1) % 12 == n % 12 + 1
  {
  }

  predicate SameMonth(a: Date, b: Date) {
    a.year == b.year && a.month == b.month
  }

  /** A month's bounds hold exactly the dates of that month. */
  lemma BoundsHoldOneMonth(start: Date, d: Date)
    requires Valid(start) && start.day == 1 && Valid(d)
    ensures AtMost(start, d) && Before(d, NextMonth(start)) <==> SameMonth(start, d)
  {
  }

  // ---------------------------------------------------------------- the catalog

  /** A partition's name: the month it is for, or one that names no month. */
  datatype Name = Monthly(table: string, year: int, month: int) | Other(table: string)

  datatype Range = Range(start: Date, end: Date)

  type Parts = map<Name, Range>

  function NameOf(table: string, start: Date): Name {
    Monthly(table, start.year, start.month)
  }

  function RangeOf(start: Date): Range {
    Range(start, NextMonth(start))
  }

  /** Every monthly partition covers the month in its name. */
  ghost predicate WellNamed(parts: Parts) {
    forall n | n in parts && n.Monthly? :: 1 <= n.month <= 12 && parts[n] == RangeOf(Date(n.year, n.month, 1))
  }

  predicate Holds(r: Range, d: Date) {
    AtMost(r.start, d) && Before(d, r.end)
  }

  predicate Covers(parts: Parts, table: string, n: Name, d: Date) {
    n in parts && n.Monthly? && n.table == table && Holds(parts[n], d)
  }

  function Created(parts: Parts, table: string, start: Date): Parts {
    if NameOf(table, start) in parts then parts else parts[NameOf(table, start) := RangeOf(start)]
  }

  /** `count` consecutive months of one table. */
  function CreatedMonths(parts: Parts, table: string, start: Date, count: nat): Parts {
    if count == 0 then parts
    else Created(CreatedMonths(parts, table, start, count - 1), table, MonthsOn(start, count - 1))
  }

  function CreatedAll(parts: Parts, tables: seq<string>, start: Date, count: nat): Parts {
    if tables == [] then parts
    else CreatedMonths(CreatedAll(parts, tables[..|tables| - 1], start, count), tables[|tables| - 1], start, count)
  }

  function NamesFor(table: string, start: Date, count: nat): seq<Name> {
    if count == 0 then [] else NamesFor(table, start, count - 1) + [NameOf(table, MonthsOn(start, count - 1))]
  }

  function AllNames(tables: seq<string>, start: Date, count: nat): seq<Name> {
    if tables == [] then []
    else AllNames(tables[..|tables| - 1], start, count) + NamesFor(tables[|tables| - 1], start, count)
  }

  lemma {:induction false} MonthsOnValid(d: Date, k: nat)
    requires Valid(d) && d.day == 1
    ensures Valid(MonthsOn(d, k)) && MonthsOn(d, k).day == 1 && AtMost(d, MonthsOn(d, k))
  {
    if k > 0 {
      MonthsOnValid(d, k - 1);
    }
  }

  /** What creation leaves: well named, with every old partition, and a partition for each month asked for. */
  ghost predicate Extends(before: Parts, after: Parts, table: string, start: Date, count: nat) {
    && WellNamed(after) && (forall n | n in before :: n in after && after[n] == before[n])
    && forall k {:trigger MonthsOn(start, k)} | 0 <= k < count :: NameOf(table, MonthsOn(start, k)) in after
  }

  lemma {:induction false} MonthsCreated(parts: Parts, table: string, start: Date, count: nat)
    requires WellNamed(parts) && Valid(start) && start.day == 1
    ensures Extends(parts, CreatedMonths(parts, table, start, count), table, start, count)
    decreases count
  {
    if count > 0 {
      MonthsCreated(parts, table, start, count - 1);
      MonthsOnValid(start, count - 1);
    }
  }

  lemma {:induction false} AllCreated(parts: Parts, tables: seq<string>, start: Date, count: nat, table: string)
    requires WellNamed(parts) && Valid(start) && start.day == 1 && table in tables
    ensures Extends(parts, CreatedAll(parts, tables, start, count), table, start, count)
    decreases |tables|
  {
    var n := |tables| - 1;
    WellNamedAll(parts, tables[..n], start, count);
    MonthsCreated(CreatedAll(parts, tables[..n], start, count), tables[n], start, count);
    if table != tables[n] {
      assert table in tables[..n];
      AllCreated(parts, tables[..n], start, count, table);
    }
  }

  lemma {:induction false} WellNamedAll(parts: Parts, tables: seq<string>, start: Date, count: nat)
    requires WellNamed(parts) && Valid(start) && start.day == 1
    ensures WellNamed(CreatedAll(parts, tables, start, count))
    ensures forall n | n in parts ::
      n in CreatedAll(parts, tables, start, count) && CreatedAll(parts, tables, start, count)[n] == parts[n]
    decreases |tables|
  {
    if tables != [] {
      var n := |tables| - 1;
      WellNamedAll(parts, tables[..n], start, count);
      MonthsCreated(CreatedAll(parts, tables[..n], start, count), tables[n], start, count);
    }
  }

  /** No two monthly partitions of a table share a date. */
  lemma PartitionsNeverOverlap(parts: Parts, table: string, m: Name, n: Name, d: Date)
    requires WellNamed(parts) && Valid(d) && Covers(parts, table, m, d) && Covers(parts, table, n, d)
    ensures m == n
  {
    BoundsHoldOneMonth(parts[m].start, d);
    BoundsHoldOneMonth(parts[n].start, d);
  }

  /** Every date from the first month to the end of the last one lies in one of the iterated months. */
  lemma {:induction false} MonthOf(start: Date, count: nat, d: Date) returns (k: nat)
    requires Valid(start) && start.day == 1 && Valid(d)
    requires AtMost(start, d) && Before(d, MonthsOn(start, count))
    ensures k < count && SameMonth(MonthsOn(start, k), d)
    decreases count
  {
    assert count > 0;
    MonthsOnValid(start, count - 1);
    if Before(d, MonthsOn(start, count - 1)) {
      k := MonthOf(start, count - 1, d);
    } else {
      k := count - 1;
      BoundsHoldOneMonth(MonthsOn(start, k), d);
      assert AtMost(MonthsOn(start, k), d);
    }
  }

  /** After creation every date of the created span lies in exactly one partition: months tile without gap or
      overlap. */
  lemma MonthsTile(parts: Parts, tables: seq<string>, start: Date, count: nat, table: string, d: Date)
    requires WellNamed(parts) && Valid(start) && start.day == 1 && table in tables && Valid(d)
    requires AtMost(start, d) && Before(d, MonthsOn(start, count))
    ensures var after := CreatedAll(parts, tables, start, count);
      Covers(after, table, Monthly(table, d.year, d.month), d)
      && forall n | Covers(after, table, n, d) :: n == Monthly(table, d.year, d.month)
  {
    var after := CreatedAll(parts, tables, start, count);
    AllCreated(parts, tables, start, count, table);
    var k := MonthOf(start, count, d);
    var name := NameOf(table, MonthsOn(start, k));
    MonthsOnValid(start, k);
    BoundsHoldOneMonth(Date(d.year, d.month, 1), d);
    assert name in after;
    forall n | Covers(after, table, n, d) ensures n == name {
      PartitionsNeverOverlap(after, table, n, name, d);
    }
  }

  /** A name asked for: one of the tables, one of the months. */
  ghost predicate AskedFor(tables: seq<string>, start: Date, count: nat, n: Name) {
    exists i, k: nat :: WantedAt(tables, start, count, n, i, k)
  }

  ghost predicate WantedAt(tables: seq<string>, start: Date, count: nat, n: Name, i: int, k: nat) {
    0 <= i < |tables| && k < count && n == Monthly(tables[i], MonthsOn(start, k).year, MonthsOn(start, k).month)
  }

  lemma {:induction false} MonthsAreNamed(table: string, start: Date, count: nat)
    ensures |NamesFor(table, start, count)| == count
    ensures forall k | 0 <= k < count ::
      NamesFor(table, start, count)[k] == Monthly(table, MonthsOn(start, k).year, MonthsOn(start, k).month)
  {
    if count > 0 {
      MonthsAreNamed(table, start, count - 1);
    }
  }

  lemma {:induction false} NamesJoin(a: seq<string>, b: seq<string>, start: Date, count: nat)
    ensures AllNames(a + b, start, count) == AllNames(a, start, count) + AllNames(b, start, count)
    decreases |b|
  {
    if b == [] {
      assert a + b == a;
    } else {
      var n := |b| - 1;
      assert (a + b)[..|a + b| - 1] == a + b[..n];
      NamesJoin(a, b[..n], start, count);
    }
  }

  /** The names answered go table by table: those of the tables before, this one's months in order, then the rest. */
  lemma NamesGoByTable(tables: seq<string>, start: Date, count: nat, i: nat)
    requires i < |tables|
    ensures AllNames(tables, start, count)
         == AllNames(tables[..i], start, count) + NamesFor(tables[i], start, count)
            + AllNames(tables[i + 1..], start, count)
  {
    assert tables == tables[..i + 1] + tables[i + 1..];
    NamesJoin(tables[..i + 1], tables[i + 1..], start, count);
    assert tables[..i + 1][..i] == tables[..i];
  }

  lemma {:induction false} MonthsCreatedExactly(parts: Parts, table: string, start: Date, count: nat, n: Name)
    ensures n in CreatedMonths(parts, table, start, count) <==> n in parts || AskedFor([table], start, count, n)
    decreases count
  {
    if count > 0 {
      MonthsCreatedExactly(parts, table, start, count - 1, n);
      var last := Monthly(table, MonthsOn(start, count - 1).year, MonthsOn(start, count - 1).month);
      if AskedFor([table], start, count - 1, n) {
        var i, k: nat :| WantedAt([table], start, count - 1, n, i, k);
        assert WantedAt([table], start, count, n, i, k);
      }
      if AskedFor([table], start, count, n) && n != last {
        var i, k: nat :| WantedAt([table], start, count, n, i, k);
        assert WantedAt([table], start, count - 1, n, i, k);
      }
      if n == last {
        assert WantedAt([table], start, count, n, 0, count - 1);
      }
    } else {
      assert !AskedFor([table], start, count, n);
    }
  }

  /** Creation leaves exactly the partitions there were and those asked for: one per table and month, no more. */
  lemma {:induction false} CreatedExactly(parts: Parts, tables: seq<string>, start: Date, count: nat, n: Name)
    ensures n in CreatedAll(parts, tables, start, count) <==> n in parts || AskedFor(tables, start, count, n)
    decreases |tables|
  {
    if tables != [] {
      var last := |tables| - 1;
      CreatedExactly(parts, tables[..last], start, count, n);
      MonthsCreatedExactly(CreatedAll(parts, tables[..last], start, count), tables[last], start, count, n);
      OneTableMore(tables, start, count, n);
    } else {
      assert !AskedFor(tables, start, count, n);
    }
  }

  lemma OneTableMore(tables: seq<string>, start: Date, count: nat, n: Name)
    requires tables != []
    ensures var last := |tables| - 1;
      AskedFor(tables, start, count, n) <==>
        AskedFor(tables[..last], start, count, n) || AskedFor([tables[last]], start, count, n)
  {
    var last := |tables| - 1;
    if AskedFor(tables, start, count, n) {
      var i, k: nat :| WantedAt(tables, start, count, n, i, k);
      if i < last {
        assert WantedAt(tables[..last], start, count, n, i, k);
      } else {
        assert WantedAt([tables[last]], start, count, n, 0, k);
      }
    }
    if AskedFor(tables[..last], start, count, n) {
      var i, k: nat :| WantedAt(tables[..last], start, count, n, i, k);
      assert WantedAt(tables, start, count, n, i, k);
    }
    if AskedFor([tables[last]], start, count, n) {
      var i, k: nat :| WantedAt([tables[last]], start, count, n, i, k);
      assert WantedAt(tables, start, count, n, last, k);
    }
  }

  // ---------------------------------------------------------------- dropping

  predicate IsOld(n: Name, cutoff: Date) {
    n.Monthly? && AtMost(NextMonth(Date(n.year, n.month, 1)), cutoff)
  }

  /** The names a query for one table lists. */
  ghost predicate ListsTable(names: seq<Name>, parts: Parts, table: string) {
    && (forall n | n in names :: n in parts && n.table == table)
    && (forall n | n in parts && n.table == table :: n in names)
  }

  function OldOnes(names: seq<Name>, cutoff: Date): seq<Name> {
    if names == [] then []
    else OldOnes(names[..|names| - 1], cutoff) + if IsOld(names[|names| - 1], cutoff) then [names[|names| - 1]] else []
  }

  function Without(parts: Parts, names: seq<Name>): Parts {
    map n | n in parts && n !in names :: parts[n]
  }

  lemma {:induction false} OldOnesAre(names: seq<Name>, cutoff: Date)
    ensures forall n :: n in OldOnes(names, cutoff) <==> n in names && IsOld(n, cutoff)
    decreases |names|
  {
    if names != [] {
      var k := |names| - 1;
      OldOnesAre(names[..k], cutoff);
      assert names == names[..k] + [names[k]];
    }
  }

  /** Dropping takes exactly the months wholly before the cutoff: a date loses its partition only if its whole month is
      before the cutoff, and no partition left in the table ends by then. */
  lemma DropsWholeOldMonthsOnly(parts: Parts, table: string, names: seq<Name>, cutoff: Date, n: Name, d: Date)
    requires WellNamed(parts) && ListsTable(names, parts, table) && Valid(d) && Covers(parts, table, n, d)
    ensures var after := Without(parts, OldOnes(names, cutoff));
      && (Covers(after, table, n, d) <==> Before(cutoff, parts[n].end))
      && (AtMost(cutoff, d) ==> Covers(after, table, n, d))
      && WellNamed(after)
  {
    OldOnesAre(names, cutoff);
  }

  /** A partition is left exactly unless it is the table's, is for a month, and that month ends by the cutoff; what is
      left is unchanged. */
  lemma DroppedExactly(parts: Parts, table: string, names: seq<Name>, cutoff: Date, n: Name)
    requires ListsTable(names, parts, table)
    ensures var after := Without(parts, OldOnes(names, cutoff));
      && (n in after ==> n in parts && after[n] == parts[n])
      && (n in parts && n !in after <==>
            && n in parts && n.table == table && n.Monthly?
            && AtMost(if n.month == 12 then Date(n.year + 1, 1, 1) else Date(n.year, n.month + 1, 1), cutoff))
  {
    OldOnesAre(names, cutoff);
  }

  /** The database's partitions. */
  class Catalog {
    var parts: Parts

    constructor ()
      ensures parts == map[]
    {
      parts := map[];
    }

    /** Create the current month and the next `monthsAhead` for every table. */
    method EnsurePartitions(tables: seq<string>, monthsAhead: nat, now: Date) returns (created: seq<Name>)
      modifies this
      ensures parts == CreatedAll(old(parts), tables, MonthStart(now), monthsAhead + 1)
      ensures created == AllNames(tables, MonthStart(now), monthsAhead + 1)
    {
      var start := MonthStart(now);
      created := [];
      var i := 0;
      while i < |tables|
        invariant 0 <= i <= |tables|
        invariant parts == CreatedAll(old(parts), tables[..i], start, monthsAhead + 1)
        invariant created == AllNames(tables[..i], start, monthsAhead + 1)
      {
        ghost var sofar, before := created, parts;
        var cursor := start;
        var k := 0;
        while k < monthsAhead + 1
          invariant 0 <= k <= monthsAhead + 1 && cursor == MonthsOn(start, k)
          invariant parts == CreatedMonths(before, tables[i], start, k)
          invariant created == sofar + NamesFor(tables[i], start, k)
        {
          parts := Created(parts, tables[i], cursor);
          created := created + [NameOf(tables[i], cursor)];
          cursor := NextMonth(cursor);
          k := k + 1;
        }
        assert tables[..i + 1][..i] == tables[..i];
        i := i + 1;
      }
      assert tables[..i] == tables;
    }

    /** Drop whole months that end by the cutoff; `names` is what listing the table returns. */
    method DropPartitionsOlderThan(table: string, names: seq<Name>, cutoff: Date, dryRun: bool)
      returns (dropped: seq<Name>)
      requires ListsTable(names, parts, table)
      modifies this
      ensures dropped == OldOnes(names, cutoff)
      ensures parts == if dryRun then old(parts) else Without(old(parts), dropped)
    {
      dropped := [];
      var i := 0;
      while i < |names|
        invariant 0 <= i <= |names|
        invariant dropped == OldOnes(names[..i], cutoff)
        invariant parts == if dryRun then old(parts) else Without(old(parts), dropped)
      {
        assert names[..i + 1][..i] == names[..i];
        match names[i] {
          case Other(_) =>
          case Monthly(_, year, month) =>
            if AtMost(NextMonth(Date(year, month, 1)), cutoff) {
              dropped := dropped + [names[i]];
              if !dryRun {
                parts := parts - {names[i]};
              }
            }
        }
        i := i + 1;
      }
      assert names[..i] == names;
    }
  }
}
