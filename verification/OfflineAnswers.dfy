/** What the offline queue's order, bounds and tally mean, item by item. */
module OfflineAnswers {
  import opened Common
  import opened OfflineQueue

  /** The listing goes by creation time, then by sequence number, then by id. */
  lemma ListedByAge(store: Store, i: nat, k: nat)
    requires WellKeyed(store) && i < k < |ByAge(store)|
    ensures var a, b := ByAge(store)[i], ByAge(store)[k];
      && a.createdAt <= b.createdAt
      && (a.createdAt == b.createdAt ==> a.sequence <= b.sequence)
      && (a.createdAt == b.createdAt && a.sequence == b.sequence ==> a.id < b.id)
  {
    assert Older(ByAge(store)[i], ByAge(store)[k]);
  }

  /** The items from `cut` on meet the age, count and byte bounds. */
  ghost predicate MeetsBounds(items: seq<Item>, cut: nat, limits: Limits, now: int)
    requires cut <= |items|
  {
    && (forall i | cut <= i < |items| :: now - items[i].createdAt <= limits.maxAgeMs)
    && |items| - cut <= limits.maxItems && ItemBytes(items[cut..]) <= limits.maxBytes
  }

  /** `kept` is all of `items` from the first place on from which they meet the bounds, or nothing. */
  ghost predicate CutOldest(items: seq<Item>, kept: seq<Item>, limits: Limits, now: int) {
    && |kept| <= |items| && kept == items[|items| - |kept|..]
    && (kept != [] ==> MeetsBounds(items, |items| - |kept|, limits, now))
    && forall cut | 0 <= cut < |items| - |kept| :: !MeetsBounds(items, cut, limits, now)
  }

  /** Enforcing the bounds cuts off the oldest rows, no more and no fewer than the bounds demand. */
  lemma EnforcingCutsOldest(store: Store, limits: Limits, now: int)
    requires WellKeyed(store)
    ensures CutOldest(ByAge(store), ByAge(Enforced(store, limits, now)), limits, now)
  {
    EnforcedIsLongestSuffix(store, limits, now);
    SurvivorsMeetBounds(ByAge(store), limits, now);
  }

  lemma SurvivorsMeetBounds(items: seq<Item>, limits: Limits, now: int)
    ensures CutOldest(items, Survivors(items, limits, now), limits, now)
  {
    SurvivorsAreLongest(items, limits, now);
    SurvivorsFit(items, limits, now);
    var kept := Survivors(items, limits, now);
    FittingIsMeeting(items, |items| - |kept|, limits, now);
    forall cut | 0 <= cut < |items| - |kept| ensures !MeetsBounds(items, cut, limits, now) {
      FittingIsMeeting(items, cut, limits, now);
    }
  }

  lemma FittingIsMeeting(items: seq<Item>, cut: nat, limits: Limits, now: int)
    requires cut <= |items|
    ensures Fits(items[cut..], limits, now) <==> MeetsBounds(items, cut, limits, now)
  {
    assert forall i | cut <= i < |items| :: items[i] == items[cut..][i - cut];
  }

  /** An item is refused exactly when it alone is over the byte bound or its key is already queued; refusal changes
      nothing, and otherwise the bounds are enforced with the item stored. */
  lemma EnqueueAnswers(store: Store, limits: Limits, item: Item, now: int)
    requires WellKeyed(store)
    ensures Enqueued(store, limits, item, now)
         == if item.byteSize > limits.maxBytes || exists id | id in store :: store[id].key == item.key then store
            else Enforced(store[item.id := item], limits, now)
  {
  }

  // ---------------------------------------------------------------- the tally

  function HowMany(items: seq<Item>, p: Item -> bool): nat {
    if items == [] then 0 else HowMany(items[..|items| - 1], p) + if p(items[|items| - 1]) then 1 else 0
  }

  function IsSent(reply: Item -> Reply): Item -> bool {
    (item: Item) => reply(item).Sent?
  }

  function IsRetried(reply: Item -> Reply, maxAttempts: int): Item -> bool {
    (item: Item) => reply(item).Refused? && reply(item).retryable && item.attempts + 1 < maxAttempts
  }

  function IsGivenUp(reply: Item -> Reply, maxAttempts: int): Item -> bool {
    (item: Item) => reply(item).Refused? && (!reply(item).retryable || item.attempts + 1 >= maxAttempts)
  }

  function Presses(reply: Item -> Reply): Item -> bool {
    (item: Item) => reply(item).backpressure && (reply(item).Sent? || reply(item).retryable)
  }

  /** Each number of the tally counts the replies it names: sent, to be tried again, or given up because they cannot be
      retried or have no attempts left; back-pressure is reported exactly if some reply that was not given up at once
      asked for it. */
  lemma {:induction false} TallyCountsReplies(store: Store, due: seq<Item>, reply: Item -> Reply, maxAttempts: int)
    ensures var r := Dispatched(store, due, reply, maxAttempts).1;
      && r.attempted == |due|
      && r.succeeded == HowMany(due, IsSent(reply))
      && r.retried == HowMany(due, IsRetried(reply, maxAttempts))
      && r.dropped == HowMany(due, IsGivenUp(reply, maxAttempts))
      && (r.backpressure <==> exists i | 0 <= i < |due| :: Presses(reply)(due[i]))
    decreases |due|
  {
    if due != [] {
      var n := |due| - 1;
      TallyCountsReplies(store, due[..n], reply, maxAttempts);
      assert forall i | 0 <= i < n :: due[..n][i] == due[i];
    }
  }
}
