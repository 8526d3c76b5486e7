/** The queue over its mutable store, and the flush loop that drains it. */
module OfflineStore {
  import opened Common
  import opened OfflineQueue

  /** Sorts the store's rows oldest first. */
  method SortByAge(store: Store) returns (items: seq<Item>)
    requires WellKeyed(store)
    ensures items == ByAge(store)
  {
    var rest := store;
    items := [];
    while |rest| > 0
      invariant WellKeyed(rest) && ByAge(store) == ByAge(rest) + items
      decreases |rest|
    {
      YoungestExists(rest);
      var id :| id in rest && IsYoungest(rest, id);
      MoveYoungest(store, rest, items, id);
      items := [rest[id]] + items;
      rest := rest - {id};
    }
  }

  lemma YoungestIsLast(store: Store, id: int)
    requires WellKeyed(store) && IsYoungest(store, id)
    ensures WellKeyed(store - {id}) && ByAge(store) == ByAge(store - {id}) + [store[id]]
    ensures |store - {id}| < |store|
  {
    KeptKeys(store, id, store[id]);
    AppendListing(ByAge(store - {id}), store, id);
    ListingIsUnique(ByAge(store), ByAge(store - {id}) + [store[id]], store);
  }

  lemma MoveYoungest(store: Store, rest: Store, items: seq<Item>, id: int)
    requires WellKeyed(store) && WellKeyed(rest) && IsYoungest(rest, id)
    ensures WellKeyed(rest - {id}) && |rest - {id}| < |rest|
    ensures ByAge(store) == ByAge(rest) + items ==> ByAge(store) == ByAge(rest - {id}) + ([rest[id]] + items)
  {
    YoungestIsLast(rest, id);
    Regroup(ByAge(rest - {id}), rest[id], items);
  }

  lemma Regroup(front: seq<Item>, item: Item, items: seq<Item>)
    ensures front + [item] + items == front + ([item] + items)
  {
  }

  class QueueStore {
    var store: Store
    var limits: Limits
    var counter: nat

    constructor (limits: Limits)
      ensures store == map[] && this.limits == limits && counter == 0
    {
      store, this.limits, counter := map[], limits, 0;
    }

    method Configure(limits: Limits)
      modifies this`limits
      ensures this.limits == limits
    {
      this.limits := limits;
    }

    /** Queue a request under a fresh id; `later` is the clock when the bounds are enforced. */
    method Enqueue(byteSize: nat, key: string, id: int, created: int, later: int) returns (added: Option<Item>)
      requires WellKeyed(store) && id !in store
      modifies this`store, this`counter
      ensures var item := Item(id, key, created, old(counter) + 1, 0, created, byteSize);
        && store == Enqueued(old(store), limits, item, later) && WellKeyed(store)
        && added == (if Accepts(old(store), limits, item) then Some(item) else None)
        && counter == old(counter) + if added.Some? then 1 else 0
    {
      if byteSize > limits.maxBytes {
        return None;
      }
      if KeyQueued(store, key) {
        return None;
      }
      counter := counter + 1;
      var item := Item(id, key, created, counter, 0, created, byteSize);
      Add(item, later);
      added := Some(item);
    }

    method Add(item: Item, now: int)
      requires WellKeyed(store)
      modifies this`store
      ensures store == Enforced(old(store)[item.id := item], limits, now) && WellKeyed(store)
    {
      store := store[item.id := item];
      var _ := EnforceLimits(now);
    }

    method PeekAll() returns (items: seq<Item>)
      requires WellKeyed(store)
      ensures items == ByAge(store)
    {
      items := SortByAge(store);
    }

    method TakeDue(limit: nat, now: int) returns (due: seq<Item>)
      requires WellKeyed(store)
      ensures due == Due(store, limit, now)
    {
      due := SortByAge(DueOnly(store, now));
      due := Take(due, limit);
    }

    method Remove(id: int)
      modifies this`store
      ensures store == old(store) - {id}
    {
      store := store - {id};
    }

    /** Record a failure: the item waits until `retryAt`, or is dropped when its attempts are used up. */
    method Reschedule(item: Item, retryAt: int) returns (retried: bool)
      modifies this`store
      ensures retried == (item.attempts + 1 < limits.maxAttempts)
      ensures store == Settled(old(store), item, Refused(true, false, retryAt), limits.maxAttempts)
    {
      if item.attempts + 1 >= limits.maxAttempts {
        Remove(item.id);
        return false;
      }
      store := store[item.id := Retried(item, retryAt)];
      retried := true;
    }

    /** Evict by age first, then oldest first until the count and byte caps hold. */
    method EnforceLimits(now: int) returns (evicted: nat)
      requires WellKeyed(store)
      modifies this`store
      ensures store == Enforced(old(store), limits, now) && WellKeyed(store)
      ensures evicted == |old(store)| - |store|
    {
      var items := PeekAll();
      evicted := CountDoomed(items, now);
      EvictFirst(items, evicted);
    }

    /** How many of the oldest-first `items` must go. */
    method CountDoomed(items: seq<Item>, now: int) returns (doomed: nat)
      requires InAgeOrder(items)
      ensures doomed <= |items| && Survivors(items, limits, now) == items[doomed..]
    {
      var aged, totalBytes := SplitByAge(items, now);
      var index := Trim(items[aged..], totalBytes);
      Cut(items, aged, index, limits, now);
      doomed := aged + index;
    }

    /** How many of the oldest-first `items` are over age, and the bytes of the others. */
    method SplitByAge(items: seq<Item>, now: int) returns (aged: nat, totalBytes: nat)
      requires InAgeOrder(items)
      ensures aged <= |items| && totalBytes == ItemBytes(items[aged..])
      ensures forall k | 0 <= k < |items| :: TooOld(items[k], limits, now) <==> k < aged
    {
      aged, totalBytes := 0, 0;
      var i := 0;
      while i < |items|
        invariant aged <= i <= |items|
        invariant forall k | 0 <= k < i :: TooOld(items[k], limits, now) <==> k < aged
        invariant totalBytes == ItemBytes(items[aged..i])
      {
        if TooOld(items[i], limits, now) {
          if i > 0 {
            OlderIsTooOld(items, i - 1, i, limits, now);
          }
          assert aged == i;
          aged := aged + 1;
        } else {
          ItemBytesAppend(items[aged..i], items[i]);
          assert items[aged..i + 1] == items[aged..i] + [items[i]];
          totalBytes := totalBytes + items[i].byteSize;
        }
        i := i + 1;
      }
      assert items[aged..i] == items[aged..];
    }

    /** How many of the survivors must still go for the count and byte caps to hold. */
    method Trim(survivors: seq<Item>, bytes: nat) returns (index: nat)
      requires bytes == ItemBytes(survivors)
      ensures index <= |survivors|
      ensures index < |survivors| ==> !OverCaps(survivors, index, limits)
      ensures forall k | 0 <= k < index :: OverCaps(survivors, k, limits)
    {
      var totalBytes := bytes;
      index := 0;
      assert survivors[0..] == survivors;
      while |survivors| - index > limits.maxItems && index < |survivors|
        invariant index <= |survivors| && totalBytes == ItemBytes(survivors[index..])
        invariant forall k | 0 <= k < index :: OverCaps(survivors, k, limits)
      {
        ItemBytesDrop(survivors, index);
        totalBytes := totalBytes - survivors[index].byteSize;
        index := index + 1;
      }
      while totalBytes > limits.maxBytes && index < |survivors|
        invariant index <= |survivors| && totalBytes == ItemBytes(survivors[index..])
        invariant index < |survivors| ==> |survivors| - index <= limits.maxItems
        invariant forall k | 0 <= k < index :: OverCaps(survivors, k, limits)
      {
        ItemBytesDrop(survivors, index);
        totalBytes := totalBytes - survivors[index].byteSize;
        index := index + 1;
      }
    }

    /** Deletes the `n` oldest rows one by one. */
    method EvictFirst(items: seq<Item>, n: nat)
      requires WellKeyed(store) && items == ByAge(store) && n <= |items|
      modifies this`store
      ensures store == Only(old(store), items[n..]) && |store| == |items| - n
    {
      var i := 0;
      assert items[0..] == items;
      OnlyListed(store, items);
      while i < n
        invariant 0 <= i <= n && store == Only(old(store), items[i..]) && |store| == |items| - i
      {
        OneLess(old(store), items, i);
        Remove(items[i].id);
        i := i + 1;
      }
    }
  }

  lemma OlderIsTooOld(items: seq<Item>, k: nat, i: nat, limits: Limits, now: int)
    requires InAgeOrder(items) && k < i < |items| && TooOld(items[i], limits, now)
    ensures TooOld(items[k], limits, now)
  {
    assert Older(items[k], items[i]);
  }

  predicate OverCaps(items: seq<Item>, k: nat, limits: Limits)
    requires k <= |items|
  {
    |items| - k > limits.maxItems || ItemBytes(items[k..]) > limits.maxBytes
  }

  lemma ItemBytesDrop(items: seq<Item>, i: nat)
    requires i < |items|
    ensures ItemBytes(items[i..]) == items[i].byteSize + ItemBytes(items[i + 1..])
  {
    assert items[i..][1..] == items[i + 1..];
  }

  lemma OneLess(store: Store, items: seq<Item>, i: nat)
    requires Lists(items, store) && i < |items|
    ensures items[i].id in Only(store, items[i..])
    ensures Only(store, items[i..]) - {items[i].id} == Only(store, items[i + 1..])
    ensures |Only(store, items[i + 1..])| == |Only(store, items[i..])| - 1
  {
    assert items[i..] == [items[i]] + items[i + 1..];
    LaterIdsDiffer(store, items, i);
    OnlyWithout(store, items[i], items[i + 1..]);
    KeptKeys(Only(store, items[i..]), items[i].id, items[i]);
  }

  lemma OnlyWithout(store: Store, item: Item, rest: seq<Item>)
    requires WellKeyed(store) && item.id in store && store[item.id] == item && forall r | r in rest :: r.id != item.id
    ensures Only(store, [item] + rest) - {item.id} == Only(store, rest) && item.id in Only(store, [item] + rest)
  {
    var before, after := Only(store, [item] + rest), Only(store, rest);
    forall id | id in store ensures id in before - {item.id} <==> id in after {
      assert store[id] in [item] + rest <==> store[id] == item || store[id] in rest;
    }
  }

  lemma LaterIdsDiffer(store: Store, items: seq<Item>, i: nat)
    requires Lists(items, store) && i < |items|
    ensures forall item | item in items[i + 1..] :: item.id != items[i].id
  {
    forall k | i < k < |items| ensures items[k].id != items[i].id {
      assert Older(items[i], items[k]) && store[items[k].id] == items[k];
    }
  }

  /** What age and the caps leave is the longest suffix meeting all three. */
  lemma Cut(items: seq<Item>, aged: nat, index: nat, limits: Limits, now: int)
    requires aged + index <= |items|
    requires forall k | 0 <= k < aged :: TooOld(items[k], limits, now)
    requires forall k | aged <= k < |items| :: !TooOld(items[k], limits, now)
    requires aged + index < |items| ==> !OverCaps(items[aged..], index, limits)
    requires forall k | 0 <= k < index :: OverCaps(items[aged..], k, limits)
    ensures Survivors(items, limits, now) == items[aged + index..]
  {
    var rest := items[aged..];
    assert rest[index..] == items[aged + index..];
    forall c | 0 <= c < aged + index ensures !Fits(items[c..], limits, now) {
      if c < aged {
        assert TooOld(items[c..][0], limits, now);
      } else {
        assert rest[c - aged..] == items[c..] && OverCaps(rest, c - aged, limits);
      }
    }
    LongestIsSurvivors(items, aged + index, limits, now);
  }

  /** Drains the queue. `dispatch` is the network: what each item's request comes back with. */
  class SyncEngine {
    const queue: QueueStore

    constructor (queue: QueueStore)
      ensures this.queue == queue
    {
      this.queue := queue;
    }

    /** Send everything that is due. */
    method Flush(limit: nat, now: int, dispatch: Item -> Reply) returns (result: FlushResult)
      requires WellKeyed(queue.store)
      modifies queue`store
      ensures (queue.store, result) == Dispatched(old(queue.store), Due(old(queue.store), limit, now), dispatch,
        queue.limits.maxAttempts)
    {
      var due := queue.TakeDue(limit, now);
      result := NOTHING_SENT;
      var i := 0;
      while i < |due|
        invariant 0 <= i <= |due|
        invariant queue.limits == old(queue.limits)
        invariant (queue.store, result) == Dispatched(old(queue.store), due[..i], dispatch, queue.limits.maxAttempts)
        decreases |due| - i
      {
        assert due[..i + 1][..i] == due[..i];
        result := Send(due[i], dispatch(due[i]), result);
        i := i + 1;
      }
      assert due[..i] == due;
    }

    /** Settles one dispatched item and counts it. */
    method Send(item: Item, reply: Reply, soFar: FlushResult) returns (result: FlushResult)
      modifies queue`store
      ensures queue.store == Settled(old(queue.store), item, reply, queue.limits.maxAttempts)
      ensures result == Tallied(soFar, item, reply, queue.limits.maxAttempts)
    {
      result := soFar.(attempted := soFar.attempted + 1);
      match reply {
        case Sent(backpressure) =>
          queue.Remove(item.id);
          result := result.(succeeded := result.succeeded + 1, backpressure := result.backpressure || backpressure);
        case Refused(retryable, backpressure, retryAt) =>
          if !retryable {
            queue.Remove(item.id);
            result := result.(dropped := result.dropped + 1);
          } else {
            var retried := queue.Reschedule(item, retryAt);
            result := if retried then result.(retried := result.retried + 1)
              else result.(dropped := result.dropped + 1);
            result := result.(backpressure := result.backpressure || backpressure);
          }
      }
    }
  }
}
