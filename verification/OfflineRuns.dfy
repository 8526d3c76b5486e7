/** What holds along every run of enqueues, sweeps and flushes under fixed limits. */
module OfflineRuns {
  import opened Common
  import opened OfflineQueue

  datatype Happening =
    | Add(item: Item, now: int)
    | Sweep(now: int)
    | Flush(limit: nat, now: int, reply: Item -> Reply)

  ghost predicate Possible(store: Store, e: Happening) {
    e.Add? ==> e.item.id !in store && e.item.attempts == 0
  }

  ghost function After(store: Store, limits: Limits, e: Happening): Store
    requires WellKeyed(store)
  {
    match e
    case Add(item, now) => Enqueued(store, limits, item, now)
    case Sweep(now) => Enforced(store, limits, now)
    case Flush(limit, now, reply) => Dispatched(store, Due(store, limit, now), reply, limits.maxAttempts).0
  }

  ghost predicate Leads(limits: Limits, s: Store, e: Happening, t: Store) {
    WellKeyed(s) && Possible(s, e) && t == After(s, limits, e)
  }

  ghost predicate ValidRun(limits: Limits, es: seq<Happening>, states: seq<Store>) {
    && |states| == |es| + 1 && states[0] == map[]
    && forall i {:trigger es[i]} | 0 <= i < |es| :: Leads(limits, states[i], es[i], states[i + 1])
  }

  ghost predicate Sensible(limits: Limits) {
    limits.maxItems >= 0 && limits.maxBytes >= 0 && limits.maxAttempts >= 1
  }

  ghost predicate WithinCaps(store: Store, limits: Limits) {
    |store| <= limits.maxItems && Total(store, Bytes()) <= limits.maxBytes
  }

  lemma {:induction false} BytesOfListing(items: seq<Item>, store: Store)
    requires Lists(items, store)
    ensures Total(store, Bytes()) == ItemBytes(items)
    decreases |items|
  {
    ListingLength(items, store);
    if items != [] {
      var n := |items| - 1;
      ListsFront(items, store);
      BytesOfListing(items[..n], store - {items[n].id});
      LastItemBytes(items);
      LastItemTotal(items, store);
    }
  }

  lemma LastItemBytes(items: seq<Item>)
    requires items != []
    ensures var n := |items| - 1; ItemBytes(items) == ItemBytes(items[..n]) + items[n].byteSize
  {
    var n := |items| - 1;
    assert items == items[..n] + [items[n]];
    ItemBytesAppend(items[..n], items[n]);
  }

  lemma LastItemTotal(items: seq<Item>, store: Store)
    requires Lists(items, store) && items != []
    ensures var last := items[|items| - 1];
      Total(store, Bytes()) == last.byteSize + Total(store - {last.id}, Bytes())
  {
    TotalWithout(store, Bytes(), items[|items| - 1].id);
  }

  lemma EnforcedWithinCaps(store: Store, limits: Limits, now: int)
    requires WellKeyed(store) && Sensible(limits)
    ensures WithinCaps(Enforced(store, limits, now), limits)
  {
    var t := Enforced(store, limits, now);
    EnforcedIsLongestSuffix(store, limits, now);
    SurvivorsFit(ByAge(store), limits, now);
    BytesOfListing(ByAge(t), t);
  }

  lemma DispatchKeepsInv(store: Store, due: seq<Item>, reply: Item -> Reply, limits: Limits)
    requires QueueInv(store, limits) && Picked(store, due)
    ensures QueueInv(Dispatched(store, due, reply, limits.maxAttempts).0, limits)
    ensures WithinCaps(store, limits) ==> WithinCaps(Dispatched(store, due, reply, limits.maxAttempts).0, limits)
  {
    DispatchSettlesRows(store, due, reply, limits.maxAttempts);
    DispatchConserves(store, due, reply, limits.maxAttempts);
    var t := Dispatched(store, due, reply, limits.maxAttempts).0;
    forall id | id in t
      ensures t[id].id == id && t[id].key == store[id].key && t[id].byteSize == store[id].byteSize
      ensures t[id].attempts < limits.maxAttempts
    {
      if Names(due, id) {
        var i :| 0 <= i < |due| && due[i].id == id;
        assert t[due[i].id] == WaitingAgain(due[i], reply(due[i]).retryAt);
      }
    }
    TotalOfPart(t, store, Bytes());
  }

  lemma AddKeepsQueue(store: Store, limits: Limits, item: Item, now: int)
    requires Sensible(limits) && QueueInv(store, limits) && WithinCaps(store, limits)
    requires item.id !in store && item.attempts == 0
    ensures QueueInv(Enqueued(store, limits, item, now), limits)
    ensures WithinCaps(Enqueued(store, limits, item, now), limits)
  {
    if Accepts(store, limits, item) {
      assert QueueInv(store[item.id := item], limits);
      EnforcedWithinCaps(store[item.id := item], limits, now);
    }
  }

  lemma FlushKeepsQueue(store: Store, limits: Limits, limit: nat, now: int, reply: Item -> Reply)
    requires QueueInv(store, limits) && WithinCaps(store, limits)
    ensures var t := Dispatched(store, Due(store, limit, now), reply, limits.maxAttempts).0;
      QueueInv(t, limits) && WithinCaps(t, limits)
  {
    DueIsPicked(store, limit, now);
    DispatchKeepsInv(store, Due(store, limit, now), reply, limits);
  }

  /** What one flush did: its tally adds up, the queue shrank by what succeeded or was dropped, every row is accounted
      for, and rows that were not due are as before. */
  ghost predicate FlushAccounted(store: Store, due: seq<Item>, now: int, reply: Item -> Reply, maxAttempts: int,
                                 t: Store, r: FlushResult) {
    && r.attempted == |due| == r.succeeded + r.retried + r.dropped
    && |t| + r.succeeded + r.dropped == |store|
    && RowsSettled(store, due, reply, maxAttempts, t)
    && forall id | id in store && store[id].nextAttemptAt > now :: id in t && t[id] == store[id]
  }

  lemma FlushConserves(store: Store, limits: Limits, limit: nat, now: int, reply: Item -> Reply)
    requires QueueInv(store, limits)
    ensures var due := Due(store, limit, now);
      var (t, r) := Dispatched(store, due, reply, limits.maxAttempts);
      FlushAccounted(store, due, now, reply, limits.maxAttempts, t, r)
  {
    var due := Due(store, limit, now);
    DueIsPicked(store, limit, now);
    DispatchConserves(store, due, reply, limits.maxAttempts);
    DispatchSettlesRows(store, due, reply, limits.maxAttempts);
    assert forall id | id in store && store[id].nextAttemptAt > now :: !Names(due, id);
  }

  /** Whatever happens: keys stay unique, every queued item has attempts to spare, and the caps hold. */
  lemma StepKeepsQueue(store: Store, limits: Limits, e: Happening)
    requires Sensible(limits) && QueueInv(store, limits) && WithinCaps(store, limits) && Possible(store, e)
    ensures QueueInv(After(store, limits, e), limits) && WithinCaps(After(store, limits, e), limits)
  {
    match e
    case Add(item, now) =>
      AddKeepsQueue(store, limits, item, now);
    case Sweep(now) =>
      EnforcedWithinCaps(store, limits, now);
    case Flush(limit, now, reply) =>
      FlushKeepsQueue(store, limits, limit, now, reply);
  }

  lemma {:induction false} RunKeepsQueue(limits: Limits, es: seq<Happening>, states: seq<Store>, n: nat)
    requires Sensible(limits) && ValidRun(limits, es, states) && n <= |es|
    ensures QueueInv(states[n], limits) && WithinCaps(states[n], limits)
    decreases n
  {
    if n > 0 {
      RunKeepsQueue(limits, es, states, n - 1);
      StepKeepsQueue(states[n - 1], limits, es[n - 1]);
    }
  }

  // ---------------------------------------------------------------- dispatches are finite

  ghost function Dispatches(store: Store, limits: Limits, e: Happening): nat {
    if e.Flush? && WellKeyed(store)
    then Dispatched(store, Due(store, e.limit, e.now), e.reply, limits.maxAttempts).1.attempted
    else 0
  }

  predicate Adds(store: Store, limits: Limits, e: Happening) {
    e.Add? && Accepts(store, limits, e.item)
  }

  /** How many dispatches each happening of a run makes, and whether it adds an item. */
  ghost function DispatchCounts(limits: Limits, es: seq<Happening>, states: seq<Store>): (counts: seq<nat>)
    requires |es| < |states|
    ensures |counts| == |es| && forall i | 0 <= i < |es| :: counts[i] == Dispatches(states[i], limits, es[i])
  {
    seq(|es|, i requires 0 <= i < |es| => Dispatches(states[i], limits, es[i]))
  }

  function AddCounts(limits: Limits, es: seq<Happening>, states: seq<Store>): (counts: seq<nat>)
    requires |es| < |states|
    ensures |counts| == |es| && forall i | 0 <= i < |es| :: counts[i] == if Adds(states[i], limits, es[i]) then 1 else 0
  {
    seq(|es|, i requires 0 <= i < |es| => if Adds(states[i], limits, es[i]) then 1 else 0)
  }

  lemma AddSpends(store: Store, limits: Limits, item: Item, now: int)
    requires WellKeyed(store) && item.id !in store && item.attempts == 0 && Sensible(limits)
    requires Accepts(store, limits, item)
    ensures Total(Enqueued(store, limits, item, now), AttemptsLeft(limits))
         <= Total(store, AttemptsLeft(limits)) + limits.maxAttempts
  {
    TotalWithNew(store, AttemptsLeft(limits), item);
    EnforcingSpends(store[item.id := item], limits, now);
  }

  lemma TotalWithNew(store: Store, weight: Item -> nat, item: Item)
    requires item.id !in store
    ensures Total(store[item.id := item], weight) == weight(item) + Total(store, weight)
  {
    TotalWith(store, weight, item);
    assert store - {item.id} == store;
  }

  lemma EnforcingSpends(store: Store, limits: Limits, now: int)
    requires WellKeyed(store)
    ensures Total(Enforced(store, limits, now), AttemptsLeft(limits)) <= Total(store, AttemptsLeft(limits))
  {
    TotalOfPart(Enforced(store, limits, now), store, AttemptsLeft(limits));
  }

  lemma FlushSpends(store: Store, limits: Limits, limit: nat, now: int, reply: Item -> Reply)
    requires QueueInv(store, limits)
    ensures var (t, r) := Dispatched(store, Due(store, limit, now), reply, limits.maxAttempts);
      r.attempted + Total(t, AttemptsLeft(limits)) <= Total(store, AttemptsLeft(limits))
  {
    DueIsPicked(store, limit, now);
    DispatchConserves(store, Due(store, limit, now), reply, limits.maxAttempts);
    DispatchUsesAttempts(store, Due(store, limit, now), reply, limits);
  }

  lemma StepSpendsAttempts(store: Store, limits: Limits, e: Happening)
    requires Sensible(limits) && QueueInv(store, limits) && Possible(store, e)
    ensures Dispatches(store, limits, e) + Total(After(store, limits, e), AttemptsLeft(limits))
         <= Total(store, AttemptsLeft(limits)) + if Adds(store, limits, e) then limits.maxAttempts else 0
  {
    match e
    case Add(item, now) =>
      if Accepts(store, limits, item) {
        AddSpends(store, limits, item, now);
      }
    case Sweep(now) =>
      EnforcingSpends(store, limits, now);
    case Flush(limit, now, reply) =>
      FlushSpends(store, limits, limit, now, reply);
  }

  lemma RunSpends(limits: Limits, es: seq<Happening>, states: seq<Store>, n: nat)
    requires Sensible(limits) && ValidRun(limits, es, states) && n < |es|
    ensures WellKeyed(states[n])
    ensures Dispatches(states[n], limits, es[n]) + Total(states[n + 1], AttemptsLeft(limits))
         <= Total(states[n], AttemptsLeft(limits)) + if Adds(states[n], limits, es[n]) then limits.maxAttempts else 0
  {
    RunKeepsQueue(limits, es, states, n);
    StepSpendsAttempts(states[n], limits, es[n]);
  }

  ghost function Left(limits: Limits, states: seq<Store>): (left: seq<nat>)
    ensures |left| == |states| && forall i | 0 <= i < |states| :: left[i] == Total(states[i], AttemptsLeft(limits))
  {
    seq(|states|, i requires 0 <= i < |states| => Total(states[i], AttemptsLeft(limits)))
  }

  /** A stock that each step draws `spent` from and that grows by `each` per unit of `gained`. */
  lemma {:induction false} StockPays(spent: seq<nat>, gained: seq<nat>, stock: seq<nat>, each: nat)
    requires |spent| == |gained| == |stock| - 1
    requires forall k | 0 <= k < |spent| :: spent[k] + stock[k + 1] <= stock[k] + each * gained[k]
    ensures Sum(spent) + stock[|spent|] <= stock[0] + each * Sum(gained)
    decreases |spent|
  {
    if |spent| > 0 {
      StockPays(spent[1..], gained[1..], stock[1..], each);
      Distribute(each, gained[0], Sum(gained[1..]));
    }
  }

  lemma Distribute(each: nat, a: nat, b: nat)
    ensures each * (a + b) == each * a + each * b
  {
  }

  /** Along any run, dispatches made plus attempts still available never exceed `maxAttempts` per accepted item: each
      item costs at most that many dispatches, and without new items a run dispatches finitely often. */
  lemma DispatchesAreBounded(limits: Limits, es: seq<Happening>, states: seq<Store>)
    requires Sensible(limits) && ValidRun(limits, es, states)
    ensures Sum(DispatchCounts(limits, es, states)) + Total(states[|es|], AttemptsLeft(limits))
         <= limits.maxAttempts * Sum(AddCounts(limits, es, states))
  {
    var spent, gained, left := DispatchCounts(limits, es, states), AddCounts(limits, es, states), Left(limits, states);
    forall k | 0 <= k < |spent| ensures spent[k] + left[k + 1] <= left[k] + limits.maxAttempts * gained[k] {
      RunSpends(limits, es, states, k);
    }
    StockPays(spent, gained, left, limits.maxAttempts);
    NothingLeft(limits, states[0]);
  }

  lemma NothingLeft(limits: Limits, store: Store)
    requires |store| == 0
    ensures Total(store, AttemptsLeft(limits)) == 0
  {
  }
}
