/** The client's offline queue and its flush loop (modules/offline-queue.ts, background/sync-engine.ts), on values. */
module OfflineQueue {
  import opened Common

  /** A queued request. `id` stands for the store key, `sequence` for the tie-breaker inside one millisecond. */
  datatype Item = Item(
    id: int, key: string, createdAt: int, sequence: nat, attempts: nat, nextAttemptAt: int, byteSize: nat)

  datatype Limits = Limits(maxItems: int, maxBytes: int, maxAgeMs: int, maxAttempts: int)

  type Store = map<int, Item>

  /** What a dispatch comes back with; a retried item is due again at `retryAt`. */
  datatype Reply = Sent(backpressure: bool) | Refused(retryable: bool, backpressure: bool, retryAt: int)

  datatype FlushResult = FlushResult(attempted: nat, succeeded: nat, retried: nat, dropped: nat, backpressure: bool)

  const NOTHING_SENT := FlushResult(0, 0, 0, 0, false)

  predicate Older(a: Item, b: Item) {
    || a.createdAt < b.createdAt
    || (a.createdAt == b.createdAt && (a.sequence < b.sequence || (a.sequence == b.sequence && a.id < b.id)))
  }

  ghost predicate InAgeOrder(items: seq<Item>) {
    forall i, k | 0 <= i < k < |items| :: Older(items[i], items[k])
  }

  predicate WellKeyed(store: Store) {
    forall id | id in store :: store[id].id == id
  }

  /** `items` lists the store, oldest first. */
  ghost predicate Lists(items: seq<Item>, store: Store) {
    && WellKeyed(store) && InAgeOrder(items)
    && (forall i | 0 <= i < |items| :: items[i].id in store && store[items[i].id] == items[i])
    && (forall id | id in store :: store[id] in items)
  }

  predicate IsYoungest(store: Store, id: int) {
    id in store && forall k | k in store && k != id :: Older(store[k], store[id])
  }

  lemma HasKey(store: Store)
    requires |store| > 0
    ensures exists id :: id in store
  {
    if forall id :: id !in store {
      assert false;
    }
  }

  lemma AnyKey(store: Store) returns (id: int)
    requires |store| > 0
    ensures id in store
  {
    HasKey(store);
    id :| id in store;
  }

  lemma {:induction false} YoungestExists(store: Store)
    requires WellKeyed(store) && |store| > 0
    ensures exists id :: IsYoungest(store, id)
    decreases |store|
  {
    var id := AnyKey(store);
    var rest := store - {id};
    if |rest| == 0 {
      assert forall k | k in store && k != id :: k in rest;
      assert IsYoungest(store, id);
    } else {
      YoungestExists(rest);
      var m :| IsYoungest(rest, m);
      assert forall k | k in store && k != id :: k in rest;
      assert IsYoungest(store, if Older(store[m], store[id]) then id else m);
    }
  }

  ghost function ByAge(store: Store): (items: seq<Item>)
    requires WellKeyed(store)
    ensures Lists(items, store) && |items| == |store|
    decreases |store|
  {
    if |store| == 0 then []
    else
      YoungestExists(store);
      var id :| IsYoungest(store, id);
      KeptKeys(store, id, store[id]);
      AppendListing(ByAge(store - {id}), store, id);
      ByAge(store - {id}) + [store[id]]
  }

  lemma KeptKeys(s: Store, id: int, item: Item)
    requires id in s
    ensures |s[id := item]| == |s| && |s - {id}| == |s| - 1
  {
    assert s[id := item].Keys == s.Keys;
    assert (s - {id}).Keys == s.Keys - {id};
  }

  lemma AppendListing(items: seq<Item>, store: Store, id: int)
    requires WellKeyed(store) && IsYoungest(store, id) && Lists(items, store - {id})
    ensures Lists(items + [store[id]], store)
  {
    var all := items + [store[id]];
    forall i, k | 0 <= i < k < |all| ensures Older(all[i], all[k]) {
      assert all[i] == items[i] && items[i].id in store - {id};
    }
    forall k | k in store ensures store[k] in all {
      if k != id {
        assert (store - {id})[k] in items;
      }
    }
  }

  lemma ListsFront(items: seq<Item>, store: Store)
    requires Lists(items, store) && items != []
    ensures Lists(items[..|items| - 1], store - {items[|items| - 1].id})
  {
    var n := |items| - 1;
    var front, rest := items[..n], store - {items[n].id};
    forall i | 0 <= i < n ensures front[i].id in rest {
      assert Older(items[i], items[n]);
      assert store[items[i].id] == items[i] && store[items[n].id] == items[n];
    }
    forall id | id in rest ensures rest[id] in front {
      assert store[id] in items;
      var i :| 0 <= i <= n && items[i] == store[id];
      assert items[n].id in store;
      assert i < n ==> front[i] == items[i];
      assert store[items[n].id] == items[n];
      WellListed(items, store, id, i);
    }
  }

  lemma WellListed(items: seq<Item>, store: Store, id: int, i: nat)
    requires Lists(items, store) && id in store && i < |items| && items[i] == store[id]
    ensures items[i].id == id
  {
  }

  lemma LastIsYoungest(items: seq<Item>, store: Store)
    requires Lists(items, store) && items != []
    ensures IsYoungest(store, items[|items| - 1].id)
  {
    var n := |items| - 1;
    forall k | k in store && k != items[n].id ensures Older(store[k], items[n]) {
      assert store[k] in items;
      var i :| 0 <= i <= n && items[i] == store[k];
    }
  }

  lemma NotEmpty(items: seq<Item>, store: Store)
    requires Lists(items, store)
    ensures |store| > 0 ==> items != []
  {
    if |store| > 0 {
      var id := AnyKey(store);
      assert store[id] in items;
    }
  }

  lemma {:induction false} ListingLength(items: seq<Item>, store: Store)
    requires Lists(items, store)
    ensures |items| == |store|
    decreases |items|
  {
    if items == [] {
      NotEmpty(items, store);
    } else {
      var n := |items| - 1;
      ListsFront(items, store);
      ListingLength(items[..n], store - {items[n].id});
      KeptKeys(store, items[n].id, items[n]);
    }
  }

  /** A store has one listing. */
  lemma {:induction false} ListingIsUnique(a: seq<Item>, b: seq<Item>, store: Store)
    requires Lists(a, store) && Lists(b, store)
    ensures a == b
    decreases |a|
  {
    ListingLength(a, store);
    ListingLength(b, store);
    if a != [] {
      var x, y := a[|a| - 1], b[|b| - 1];
      LastIsYoungest(a, store);
      LastIsYoungest(b, store);
      assert x == y;
      ListsFront(a, store);
      ListsFront(b, store);
      ListingIsUnique(a[..|a| - 1], b[..|b| - 1], store - {x.id});
      assert a == a[..|a| - 1] + [x] && b == b[..|b| - 1] + [x];
    }
  }

  // ---------------------------------------------------------------- eviction

  function ItemBytes(items: seq<Item>): nat {
    if items == [] then 0 else items[0].byteSize + ItemBytes(items[1..])
  }

  predicate TooOld(item: Item, limits: Limits, now: int) {
    now - item.createdAt > limits.maxAgeMs
  }

  lemma {:induction false} ItemBytesAppend(items: seq<Item>, item: Item)
    ensures ItemBytes(items + [item]) == ItemBytes(items) + item.byteSize
    decreases |items|
  {
    if items == [] {
      assert items + [item] == [item];
    } else {
      assert (items + [item])[1..] == items[1..] + [item];
      ItemBytesAppend(items[1..], item);
    }
  }

  /** The three bounds together. */
  predicate Fits(items: seq<Item>, limits: Limits, now: int) {
    && (forall i | 0 <= i < |items| :: !TooOld(items[i], limits, now))
    && |items| <= limits.maxItems
    && ItemBytes(items) <= limits.maxBytes
  }

  /** The longest suffix that meets every bound. */
  function Survivors(items: seq<Item>, limits: Limits, now: int): seq<Item> {
    if items == [] || Fits(items, limits, now) then items else Survivors(items[1..], limits, now)
  }

  lemma {:induction false} SurvivorsAreLongest(items: seq<Item>, limits: Limits, now: int)
    ensures var kept := Survivors(items, limits, now);
      && |kept| <= |items| && kept == items[|items| - |kept|..]
      && (limits.maxItems >= 0 && limits.maxBytes >= 0 ==> Fits(kept, limits, now))
      && forall cut | 0 <= cut < |items| - |kept| :: !Fits(items[cut..], limits, now)
    decreases |items|
  {
    if items != [] && !Fits(items, limits, now) {
      SurvivorsAreLongest(items[1..], limits, now);
      var kept := Survivors(items, limits, now);
      assert items[1..][|items| - 1 - |kept|..] == items[|items| - |kept|..];
      forall cut | 0 <= cut < |items| - |kept| ensures !Fits(items[cut..], limits, now) {
        if cut > 0 {
          assert items[cut..] == items[1..][cut - 1..];
        } else {
          assert items[0..] == items;
        }
      }
    }
  }

  /** A suffix that fits, or is empty, with nothing longer fitting, is what survives. */
  lemma {:induction false} LongestIsSurvivors(items: seq<Item>, cut: nat, limits: Limits, now: int)
    requires cut <= |items| && (cut == |items| || Fits(items[cut..], limits, now))
    requires forall c | 0 <= c < cut :: !Fits(items[c..], limits, now)
    ensures Survivors(items, limits, now) == items[cut..]
    decreases cut
  {
    assert items[0..] == items;
    if cut > 0 {
      forall c | 0 <= c < cut - 1 ensures !Fits(items[1..][c..], limits, now) {
        assert items[1..][c..] == items[c + 1..];
      }
      assert items[1..][cut - 1..] == items[cut..];
      assert !Fits(items[0..], limits, now);
      LongestIsSurvivors(items[1..], cut - 1, limits, now);
    }
  }

  function Only(store: Store, items: seq<Item>): Store {
    map id | id in store && store[id] in items :: store[id]
  }

  ghost function Enforced(store: Store, limits: Limits, now: int): (t: Store)
    requires WellKeyed(store)
    ensures WellKeyed(t) && t.Keys <= store.Keys && forall id | id in t :: t[id] == store[id]
  {
    Only(store, Survivors(ByAge(store), limits, now))
  }

  lemma {:induction false} SuffixListsOnly(items: seq<Item>, n: nat, store: Store)
    requires Lists(items, store) && n <= |items|
    ensures Lists(items[n..], Only(store, items[n..]))
  {
    var kept := items[n..];
    forall i | 0 <= i < |kept| ensures kept[i].id in Only(store, kept) {
      assert kept[i] == items[n + i] && store[items[n + i].id] == items[n + i];
    }
  }

  lemma OnlySuffix(store: Store, n: nat)
    requires WellKeyed(store) && n <= |store|
    ensures var kept := ByAge(store)[n..]; WellKeyed(Only(store, kept)) && ByAge(Only(store, kept)) == kept
  {
    var items := ByAge(store);
    SuffixListsOnly(items, n, store);
    ListingIsUnique(ByAge(Only(store, items[n..])), items[n..], Only(store, items[n..]));
  }

  /** What is left is listed by the longest suffix that meets the bounds. */
  lemma EnforcedIsLongestSuffix(store: Store, limits: Limits, now: int)
    requires WellKeyed(store)
    ensures ByAge(Enforced(store, limits, now)) == Survivors(ByAge(store), limits, now)
  {
    var n := SurvivorsAreSuffix(ByAge(store), limits, now);
    OnlySuffix(store, n);
  }

  lemma {:induction false} SurvivorsAreSuffix(items: seq<Item>, limits: Limits, now: int) returns (n: nat)
    ensures n <= |items| && Survivors(items, limits, now) == items[n..]
    decreases |items|
  {
    n := 0;
    if items != [] && !Fits(items, limits, now) {
      n := SurvivorsAreSuffix(items[1..], limits, now);
      n := n + 1;
    }
  }

  lemma OnlyListed(store: Store, items: seq<Item>)
    requires Lists(items, store)
    ensures Only(store, items) == store
  {
    forall id | id in store ensures id in Only(store, items) {
      assert store[id] in items;
    }
  }

  /** Enforcing the same bounds again evicts nothing. */
  lemma EnforcingTwiceIsOnce(store: Store, limits: Limits, now: int)
    requires WellKeyed(store)
    ensures Enforced(Enforced(store, limits, now), limits, now) == Enforced(store, limits, now)
  {
    EnforcedIsLongestSuffix(store, limits, now);
    SurvivorsFit(ByAge(store), limits, now);
    OnlyListed(Enforced(store, limits, now), ByAge(Enforced(store, limits, now)));
  }

  lemma {:induction false} SurvivorsFit(items: seq<Item>, limits: Limits, now: int)
    ensures var kept := Survivors(items, limits, now); kept == [] || Fits(kept, limits, now)
    decreases |items|
  {
    if items != [] && !Fits(items, limits, now) {
      SurvivorsFit(items[1..], limits, now);
    }
  }

  // ---------------------------------------------------------------- enqueue

  predicate KeyQueued(store: Store, key: string) {
    exists id | id in store :: store[id].key == key
  }

  predicate Accepts(store: Store, limits: Limits, item: Item) {
    item.byteSize <= limits.maxBytes && !KeyQueued(store, item.key)
  }

  /** Adding an item: too large or already queued changes nothing, else it is stored and the bounds are enforced. */
  ghost function Enqueued(store: Store, limits: Limits, item: Item, now: int): Store
    requires WellKeyed(store)
  {
    if Accepts(store, limits, item) then Enforced(store[item.id := item], limits, now) else store
  }

  /** The newest item, when it fits the byte budget and is not yet over age, is never the victim of its own enqueue. */
  lemma NewestSurvivesItsEnqueue(store: Store, limits: Limits, item: Item, now: int)
    requires WellKeyed(store) && item.id !in store && Accepts(store, limits, item)
    requires limits.maxItems >= 1 && !TooOld(item, limits, now)
    requires forall id | id in store :: Older(store[id], item)
    ensures item.id in Enqueued(store, limits, item, now)
  {
    NewestIsLast(store, item);
    FittingLastSurvives(ByAge(store[item.id := item]), limits, now);
  }

  lemma FittingLastSurvives(items: seq<Item>, limits: Limits, now: int)
    requires items != [] && limits.maxItems >= 1
    requires var last := items[|items| - 1]; !TooOld(last, limits, now) && last.byteSize <= limits.maxBytes
    ensures items[|items| - 1] in Survivors(items, limits, now)
  {
    var n := |items| - 1;
    assert items[n..] == [items[n]] && ItemBytes([items[n]]) == items[n].byteSize;
    SurvivorsKeepTail(items, n, limits, now);
  }

  lemma NewestIsLast(store: Store, item: Item)
    requires WellKeyed(store) && forall id | id in store :: Older(store[id], item)
    ensures var items := ByAge(store[item.id := item]); items != [] && items[|items| - 1] == item
  {
    var full := store[item.id := item];
    var items := ByAge(full);
    assert full[item.id] in items;
    LastIsYoungest(items, full);
    assert IsYoungest(full, items[|items| - 1].id);
  }

  lemma {:induction false} SurvivorsKeepTail(items: seq<Item>, n: nat, limits: Limits, now: int)
    requires n < |items| && Fits(items[n..], limits, now)
    ensures forall i | n <= i < |items| :: items[i] in Survivors(items, limits, now)
    decreases |items|
  {
    if !Fits(items, limits, now) {
      assert items[0..] == items;
      assert items[1..][n - 1..] == items[n..];
      SurvivorsKeepTail(items[1..], n - 1, limits, now);
      assert forall i | n <= i < |items| :: items[i] == items[1..][i - 1];
    }
  }

  // ---------------------------------------------------------------- flush

  function DueOnly(store: Store, now: int): Store {
    map id | id in store && store[id].nextAttemptAt <= now :: store[id]
  }

  function Take(items: seq<Item>, n: nat): seq<Item> {
    if n < |items| then items[..n] else items
  }

  ghost function Due(store: Store, limit: nat, now: int): seq<Item>
    requires WellKeyed(store)
  {
    Take(ByAge(DueOnly(store, now)), limit)
  }

  function Retried(item: Item, retryAt: int): Item {
    item.(attempts := item.attempts + 1, nextAttemptAt := retryAt)
  }

  /** One dispatched item's row after its reply. */
  function Settled(store: Store, item: Item, reply: Reply, maxAttempts: int): Store {
    if reply.Sent? || !reply.retryable || item.attempts + 1 >= maxAttempts then store - {item.id}
    else store[item.id := Retried(item, reply.retryAt)]
  }

  function Tallied(r: FlushResult, item: Item, reply: Reply, maxAttempts: int): FlushResult {
    var pressed := reply.backpressure && (reply.Sent? || reply.retryable);
    var s := r.(attempted := r.attempted + 1, backpressure := r.backpressure || pressed);
    if reply.Sent? then s.(succeeded := r.succeeded + 1)
    else if !reply.retryable || item.attempts + 1 >= maxAttempts then s.(dropped := r.dropped + 1)
    else s.(retried := r.retried + 1)
  }

  /** The rows and the tally after dispatching `due` in order. */
  function Dispatched(store: Store, due: seq<Item>, reply: Item -> Reply, maxAttempts: int): (Store, FlushResult) {
    if due == [] then (store, NOTHING_SENT)
    else
      var item := due[|due| - 1];
      var (s, r) := Dispatched(store, due[..|due| - 1], reply, maxAttempts);
      (Settled(s, item, reply(item), maxAttempts), Tallied(r, item, reply(item), maxAttempts))
  }

  ghost predicate QueueInv(store: Store, limits: Limits) {
    && WellKeyed(store)
    && (forall i, k | i in store && k in store && store[i].key == store[k].key :: i == k)
    && forall id | id in store :: store[id].attempts < limits.maxAttempts
  }

  /** Distinct items taken from the store. */
  ghost predicate Picked(store: Store, due: seq<Item>) {
    && (forall i | 0 <= i < |due| :: due[i].id in store && store[due[i].id] == due[i])
    && forall i, k | 0 <= i < k < |due| :: due[i].id != due[k].id
  }

  predicate Names(due: seq<Item>, id: int) {
    exists i | 0 <= i < |due| :: due[i].id == id
  }

  predicate GoesAgain(item: Item, reply: Reply, maxAttempts: int) {
    reply.Refused? && reply.retryable && item.attempts + 1 < maxAttempts
  }

  /** Row by row: what was not dispatched is untouched; what was is gone or waits with one more attempt. */
  ghost predicate RowsSettled(store: Store, due: seq<Item>, reply: Item -> Reply, maxAttempts: int, t: Store) {
    && t.Keys <= store.Keys
    && (forall id | id in store && !Names(due, id) :: id in t && t[id] == store[id])
    && forall i | 0 <= i < |due| :: (due[i].id in t <==> GoesAgain(due[i], reply(due[i]), maxAttempts))
         && (due[i].id in t ==> t[due[i].id] == WaitingAgain(due[i], reply(due[i]).retryAt))
  }

  /** The same request, one attempt further on and due at `retryAt`. */
  function WaitingAgain(item: Item, retryAt: int): Item {
    Item(item.id, item.key, item.createdAt, item.sequence, item.attempts + 1, retryAt, item.byteSize)
  }

  lemma {:induction false} DispatchSettlesRows(store: Store, due: seq<Item>, reply: Item -> Reply, maxAttempts: int)
    requires WellKeyed(store) && Picked(store, due)
    ensures RowsSettled(store, due, reply, maxAttempts, Dispatched(store, due, reply, maxAttempts).0)
    decreases |due|
  {
    if due != [] {
      var n := |due| - 1;
      var item := due[n];
      DispatchSettlesRows(store, due[..n], reply, maxAttempts);
      var s := Dispatched(store, due[..n], reply, maxAttempts).0;
      var t := Dispatched(store, due, reply, maxAttempts).0;
      forall id | id in store && !Names(due, id) ensures id in t && t[id] == store[id] {
        assert due[n].id != id;
        assert forall i | 0 <= i < n :: due[..n][i] == due[i];
      }
      forall i | 0 <= i < |due|
        ensures (due[i].id in t <==> GoesAgain(due[i], reply(due[i]), maxAttempts))
             && (due[i].id in t ==> t[due[i].id] == WaitingAgain(due[i], reply(due[i]).retryAt))
      {
        if i < n {
          assert due[..n][i] == due[i];
        }
      }
    }
  }

  lemma LastIsUntouched(store: Store, due: seq<Item>, reply: Item -> Reply, maxAttempts: int)
    requires WellKeyed(store) && Picked(store, due) && due != []
    ensures var n := |due| - 1;
      var s := Dispatched(store, due[..n], reply, maxAttempts).0; due[n].id in s && s[due[n].id] == due[n]
  {
    var n := |due| - 1;
    DispatchSettlesRows(store, due[..n], reply, maxAttempts);
    assert !Names(due[..n], due[n].id);
  }

  /** attempted = succeeded + retried + dropped, and the queue shrinks by exactly succeeded + dropped. */
  lemma {:induction false} DispatchConserves(store: Store, due: seq<Item>, reply: Item -> Reply, maxAttempts: int)
    requires WellKeyed(store) && Picked(store, due)
    ensures var (t, r) := Dispatched(store, due, reply, maxAttempts);
      && r.attempted == |due| == r.succeeded + r.retried + r.dropped
      && |t| + r.succeeded + r.dropped == |store|
    decreases |due|
  {
    if due != [] {
      var n := |due| - 1;
      DispatchConserves(store, due[..n], reply, maxAttempts);
      LastIsUntouched(store, due, reply, maxAttempts);
      var s := Dispatched(store, due[..n], reply, maxAttempts).0;
      KeptKeys(s, due[n].id, Retried(due[n], if reply(due[n]).Refused? then reply(due[n]).retryAt else 0));
    }
  }

  // ---------------------------------------------------------------- attempts left

  ghost function Total(store: Store, weight: Item -> nat): nat
    decreases |store|
  {
    if |store| == 0 then 0
    else
      HasKey(store);
      var id :| id in store;
      weight(store[id]) + Total(store - {id}, weight)
  }

  lemma {:induction false} TotalWithout(store: Store, weight: Item -> nat, id: int)
    requires id in store
    ensures Total(store, weight) == weight(store[id]) + Total(store - {id}, weight)
    decreases |store|
  {
    var first := TotalUnfolds(store, weight);
    if first != id {
      KeptKeys(store, first, store[first]);
      TotalWithout(store - {first}, weight, id);
      KeptKeys(store, id, store[id]);
      TotalWithout(store - {id}, weight, first);
      TakenInEitherOrder(store, first, id);
    }
  }

  lemma TotalUnfolds(store: Store, weight: Item -> nat) returns (first: int)
    requires |store| > 0
    ensures first in store && Total(store, weight) == weight(store[first]) + Total(store - {first}, weight)
  {
    HasKey(store);
    first :| first in store && Total(store, weight) == weight(store[first]) + Total(store - {first}, weight);
  }

  lemma TakenInEitherOrder(store: Store, a: int, b: int)
    ensures store - {a} - {b} == store - {b} - {a}
  {
  }

  lemma TotalWith(store: Store, weight: Item -> nat, item: Item)
    ensures Total(store[item.id := item], weight) == weight(item) + Total(store - {item.id}, weight)
  {
    TotalWithout(store[item.id := item], weight, item.id);
    assert store[item.id := item] - {item.id} == store - {item.id};
  }

  lemma {:induction false} TotalOfPart(part: Store, store: Store, weight: Item -> nat)
    requires part.Keys <= store.Keys && forall id | id in part :: weight(part[id]) <= weight(store[id])
    ensures Total(part, weight) <= Total(store, weight)
    decreases |part|
  {
    if |part| > 0 {
      var id := AnyKey(part);
      KeptKeys(part, id, part[id]);
      TotalWithout(part, weight, id);
      TotalWithout(store, weight, id);
      TotalOfPart(part - {id}, store - {id}, weight);
    }
  }

  function AttemptsLeft(limits: Limits): Item -> nat {
    (item: Item) => if item.attempts < limits.maxAttempts then limits.maxAttempts - item.attempts else 0
  }

  function Bytes(): Item -> nat {
    (item: Item) => item.byteSize
  }

  lemma SettlingUsesAttempt(s: Store, item: Item, reply: Reply, limits: Limits)
    requires item.id in s && s[item.id] == item && item.attempts < limits.maxAttempts
    ensures Total(Settled(s, item, reply, limits.maxAttempts), AttemptsLeft(limits)) + 1
         <= Total(s, AttemptsLeft(limits))
  {
    TotalWithout(s, AttemptsLeft(limits), item.id);
    if GoesAgain(item, reply, limits.maxAttempts) {
      RetryUsesAttempt(s, Retried(item, reply.retryAt), limits);
    }
  }

  lemma RetryUsesAttempt(s: Store, retried: Item, limits: Limits)
    requires retried.attempts < limits.maxAttempts
    ensures Total(s[retried.id := retried], AttemptsLeft(limits))
         == limits.maxAttempts - retried.attempts + Total(s - {retried.id}, AttemptsLeft(limits))
  {
    TotalWith(s, AttemptsLeft(limits), retried);
  }

  /** Every dispatch uses up at least one of the attempts left in the queue. */
  lemma {:induction false} DispatchUsesAttempts(store: Store, due: seq<Item>, reply: Item -> Reply, limits: Limits)
    requires WellKeyed(store) && Picked(store, due)
    requires forall i | 0 <= i < |due| :: due[i].attempts < limits.maxAttempts
    ensures Total(Dispatched(store, due, reply, limits.maxAttempts).0, AttemptsLeft(limits)) + |due|
         <= Total(store, AttemptsLeft(limits))
    decreases |due|
  {
    if due != [] {
      var n := |due| - 1;
      var item := due[n];
      DispatchUsesAttempts(store, due[..n], reply, limits);
      LastIsUntouched(store, due, reply, limits.maxAttempts);
      var s := Dispatched(store, due[..n], reply, limits.maxAttempts).0;
      SettlingUsesAttempt(s, item, reply(item), limits);
    }
  }

  /** Due items are distinct rows of the store, in age order, within the limit. */
  lemma DueAreRows(store: Store, limit: nat, now: int)
    requires WellKeyed(store)
    ensures var due := Due(store, limit, now);
      && Picked(store, due) && InAgeOrder(due) && |due| <= limit
      && (forall i | 0 <= i < |due| :: due[i].nextAttemptAt <= now)
  {
    var all, due := ByAge(DueOnly(store, now)), Due(store, limit, now);
    forall i, k | 0 <= i < k < |due| ensures due[i].id != due[k].id {
      assert Older(all[i], all[k]);
    }
  }

  /** A due row that was not taken is younger than every row taken, and the limit is why. */
  lemma LeftOutIsYounger(store: Store, limit: nat, now: int, id: int)
    requires WellKeyed(store) && id in store && store[id].nextAttemptAt <= now && !Names(Due(store, limit, now), id)
    ensures var due := Due(store, limit, now);
      |due| == limit && forall i | 0 <= i < |due| :: Older(due[i], store[id])
  {
    var part := DueOnly(store, now);
    var all, due := ByAge(part), Due(store, limit, now);
    assert part[id] in all;
    var k :| 0 <= k < |all| && all[k] == store[id];
    assert forall i | 0 <= i < |due| :: due[i] == all[i];
  }

  lemma {:induction false} DueIsPicked(store: Store, limit: nat, now: int)
    requires WellKeyed(store)
    ensures var due := Due(store, limit, now);
      && Picked(store, due) && InAgeOrder(due) && |due| <= limit
      && (forall i | 0 <= i < |due| :: due[i].nextAttemptAt <= now)
      && (forall id | id in store && store[id].nextAttemptAt <= now && !Names(due, id) ::
            |due| == limit && forall i | 0 <= i < |due| :: Older(due[i], store[id]))
  {
    DueAreRows(store, limit, now);
    var due := Due(store, limit, now);
    forall id | id in store && store[id].nextAttemptAt <= now && !Names(due, id)
      ensures |due| == limit && forall i | 0 <= i < |due| :: Older(due[i], store[id])
    {
      LeftOutIsYounger(store, limit, now, id);
    }
  }
}
