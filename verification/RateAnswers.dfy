/** What a limiter's answers and its cleaning mean, over whole traces. */
module RateAnswers {
  import opened RateLimit

  /** The earliest of `ts` not before `from`, and how long it stays in a window that ends at `now`; a window that holds
      nothing is waited out whole. */
  function TimeLeft(ts: seq<real>, window: real, now: real): real {
    if ts == [] then window
    else if ts[0] >= now - window then ts[0] + window - now
    else TimeLeft(ts[1..], window, now)
  }

  lemma {:induction false} TimeLeftOfSuffix(ts: seq<real>, q: seq<real>, window: real, now: real)
    requires |q| <= |ts| && q == ts[|ts| - |q|..] && (q != [] ==> q[0] >= now - window)
    requires forall i | 0 <= i < |ts| - |q| :: ts[i] < now - window
    ensures TimeLeft(ts, window, now) == if q == [] then window else q[0] + window - now
    decreases |ts|
  {
    if |ts| > |q| {
      assert ts[1..][|ts| - 1 - |q|..] == q;
      TimeLeftOfSuffix(ts[1..], q, window, now);
    }
  }

  /** An admission leaves the rest of the limit and asks for no wait; a denial leaves nothing and asks for the whole
      seconds, rounded up past the next, until the oldest admission in the window has left it. */
  ghost predicate AnswersExactly(c: Config, call: Call, past: seq<real>, d: Decision) {
    && d.limit == c.limit
    && (d.allowed ==> d.retryAfter == 0)
    && (!d.allowed ==>
          && d.remaining == 0 && d.retryAfter >= 1
          && (d.retryAfter - 1) as real <= TimeLeft(past, c.window, call.now) < d.retryAfter as real)
  }

  lemma DequeAnswersExactly(c: Config, call: Call, q: seq<real>, past: seq<real>)
    requires c.window > 0.0 && Faithful(q, past, call.now - c.window)
    requires forall i | 0 <= i < |q| :: call.now - c.window <= q[i]
    ensures AnswersExactly(c, call, past, Decide(c, call, q))
  {
    TimeLeftOfSuffix(past, q, c.window, call.now);
  }

  /** `q` decided the call: it is what the window holds of the key's past admissions. */
  ghost predicate DecidedBy(c: Config, call: Call, past: seq<real>, d: Decision, q: seq<real>) {
    && d == Decide(c, call, q) && Sorted(past) && Faithful(q, past, call.now - c.window)
    && forall k | 0 <= k < |q| :: q[k] >= call.now - c.window
  }

  lemma DecidingDeque(c: Config, x: Trace, i: nat) returns (q: seq<real>)
    requires ValidTrace(c, x) && NoEviction(c, x) && i < |x.calls|
    ensures c.window > 0.0
    ensures DecidedBy(c, x.calls[i], Admitted(x.calls[..i], x.decisions[..i], x.calls[i].key), x.decisions[i], q)
  {
    var call := x.calls[i];
    DequeIsFaithful(c, x, i, call.key, call.now);
    AdmittedSorted(c, x, i, call.key);
    q := DequeAt(c, x, i, Admitted(x.calls[..i], x.decisions[..i], call.key));
  }

  lemma DequeAt(c: Config, x: Trace, i: nat, past: seq<real>) returns (q: seq<real>)
    requires ValidTrace(c, x) && NoEviction(c, x) && i < |x.calls| && Sorted(past)
    requires Faithful(HitsOf(x.states[i].hits, x.calls[i].key), past, x.calls[i].now - c.window)
    ensures DecidedBy(c, x.calls[i], past, x.decisions[i], q)
  {
    var hits := WorkedOn(c, x, i);
    assert !Evicts(c, x.states[i], x.calls[i].now);
    q := DequeOfCheck(c, x.states[i], x.calls[i], hits, x.states[i + 1], x.decisions[i], past);
  }

  lemma DequeOfCheck(c: Config, s: Limiter, call: Call, hits: map<string, seq<real>>, t: Limiter, d: Decision,
                     past: seq<real>) returns (q: seq<real>)
    requires Cleaned(c, s, call.now, hits) && Checked(c, s, call, hits, t, d) && !Evicts(c, s, call.now)
    requires Sorted(past) && Faithful(HitsOf(s.hits, call.key), past, call.now - c.window)
    ensures DecidedBy(c, call, past, d, q)
  {
    q := DropOld(HitsOf(hits, call.key), call.now - c.window);
    CleaningForgetsOnlyOld(c, s, call.now, hits, call.key, past);
    RestIsRecent(HitsOf(hits, call.key), past, call.now - c.window);
    CheckDecides(c, s, call, hits, t, d);
  }

  lemma CheckDecides(c: Config, s: Limiter, call: Call, hits: map<string, seq<real>>, t: Limiter, d: Decision)
    requires Checked(c, s, call, hits, t, d)
    ensures d == Decide(c, call, DropOld(HitsOf(hits, call.key), call.now - c.window))
  {
  }

  lemma RestIsRecent(hits: seq<real>, past: seq<real>, cutoff: real)
    requires Faithful(hits, past, cutoff) && Sorted(past)
    ensures Faithful(DropOld(hits, cutoff), past, cutoff)
    ensures forall k | 0 <= k < |DropOld(hits, cutoff)| :: DropOld(hits, cutoff)[k] >= cutoff
  {
    DropOldCounts(hits, past, cutoff, cutoff);
    assert Sorted(hits);
    DropOldSplits(hits, cutoff);
  }

  /** While no eviction has fired, every answer's wait is exact. */
  lemma WaitIsExact(c: Config, x: Trace, i: nat)
    requires ValidTrace(c, x) && NoEviction(c, x) && i < |x.calls|
    ensures AnswersExactly(c, x.calls[i], Admitted(x.calls[..i], x.decisions[..i], x.calls[i].key), x.decisions[i])
  {
    var q := DecidingDeque(c, x, i);
    DequeAnswersExactly(c, x.calls[i], q, Admitted(x.calls[..i], x.decisions[..i], x.calls[i].key));
  }

  /** With these past admissions, `w` seconds from now the same call would still be over the limit. */
  ghost predicate StillOver(c: Config, call: Call, past: seq<real>, w: int) {
    CountFrom(past, call.now + w as real - c.window) + call.cost > c.limit
  }

  /** And no shorter whole wait would do: with no other call on the key, the same call is still over the limit. */
  lemma NoShorterWaitHelps(c: Config, x: Trace, i: nat, w: int)
    requires ValidTrace(c, x) && NoEviction(c, x) && i < |x.calls| && !x.decisions[i].allowed
    requires 1 <= w < x.decisions[i].retryAfter
    ensures StillOver(c, x.calls[i], Admitted(x.calls[..i], x.decisions[..i], x.calls[i].key), w)
  {
    var q := DecidingDeque(c, x, i);
    StillCounted(c, x.calls[i], q, Admitted(x.calls[..i], x.decisions[..i], x.calls[i].key), x.decisions[i], w);
  }

  lemma StillCounted(c: Config, call: Call, q: seq<real>, past: seq<real>, d: Decision, w: int)
    requires c.window > 0.0 && DecidedBy(c, call, past, d, q) && !d.allowed && 1 <= w < d.retryAfter
    ensures StillOver(c, call, past, w)
  {
    var from := call.now + w as real - c.window;
    var gone := past[..|past| - |q|];
    assert past == gone + q;
    CountFromAppend(gone, q, from);
    if q != [] {
      var left := c.window - (call.now - q[0]);
      assert w <= Int(left);
      assert forall k | 0 <= k < |q| :: q[k] >= q[0] >= from;
      CountFromAll(q, from);
    }
  }

  // ---------------------------------------------------------------- memory

  /** Never more than 102048 keys, and no key with more hits than the limit. */
  lemma {:induction false} MemoryIsBoundedInNumbers(c: Config, x: Trace, n: nat)
    requires ValidTrace(c, x) && n <= |x.calls|
    ensures |x.states[n].hits| <= 102_048 && forall k | k in x.states[n].hits :: |x.states[n].hits[k]| <= c.limit
  {
    MemoryIsBounded(c, x, n);
  }

  /** The key was hit within the window that ends at `now`. */
  predicate Recent(hits: map<string, seq<real>>, key: string, window: real, now: real) {
    key in hits && hits[key] != [] && hits[key][|hits[key]| - 1] >= now - window
  }

  /** `cold` is half of the recent keys, rounded down, none of them hit later than a recent key that is not in it. */
  ghost predicate ColdHalf(hits: map<string, seq<real>>, recent: set<string>, cold: set<string>) {
    && cold <= recent && |cold| == |recent| / 2 && recent <= hits.Keys
    && forall a, b | a in cold && b in recent - cold && hits[a] != [] && hits[b] != [] ::
      hits[a][|hits[a]| - 1] <= hits[b][|hits[b]| - 1]
  }

  /** Of the keys that a call is not about, those tracked after it are: between cleanings the same ones, with their
      hits; on every 2048th call the recent ones, and if these are more than 100000, those of them outside a cold
      half. */
  ghost predicate KeepsExactly(s: map<string, seq<real>>, t: map<string, seq<real>>, ops: nat, key: string, now: real,
                               window: real) {
    var left := t.Keys - {key};
    var recent := set k | k in s && Recent(s, k, window, now);
    && (forall k | k in left :: k in s && t[k] == s[k])
    && (ops % 2048 != 0 ==> left == s.Keys - {key})
    && (ops % 2048 == 0 && |recent| <= 100_000 ==> left == recent - {key})
    && (ops % 2048 == 0 && |recent| > 100_000 ==>
          exists cold :: ColdHalf(s, recent, cold) && left == recent - cold - {key})
  }

  lemma CleaningKeepsExactly(c: Config, x: Trace, i: nat)
    requires ValidTrace(c, x) && i < |x.calls|
    ensures KeepsExactly(x.states[i].hits, x.states[i + 1].hits, i + 1, x.calls[i].key, x.calls[i].now, c.window)
  {
    CallsAreCounted(c, x, i);
    StepKeepsExactly(c, x.states[i], x.calls[i], x.states[i + 1], x.decisions[i]);
  }

  lemma StepKeepsExactly(c: Config, s: Limiter, call: Call, t: Limiter, d: Decision)
    requires Step(c, s, call, t, d)
    ensures KeepsExactly(s.hits, t.hits, s.ops + 1, call.key, call.now, c.window)
  {
    var hits :| Cleaned(c, s, call.now, hits) && Checked(c, s, call, hits, t, d);
    CallKeepsExactly(c, s, call, hits, t, d);
  }

  lemma CallsAreCounted(c: Config, x: Trace, i: nat)
    requires ValidTrace(c, x) && i <= |x.calls|
    ensures x.states[i].ops == i
  {
    MemoryIsBounded(c, x, i);
  }

  lemma CallKeepsExactly(c: Config, s: Limiter, call: Call, hits: map<string, seq<real>>, t: Limiter, d: Decision)
    requires Cleaned(c, s, call.now, hits) && Checked(c, s, call, hits, t, d)
    ensures KeepsExactly(s.hits, t.hits, s.ops + 1, call.key, call.now, c.window)
  {
    CleanedExactly(c, s, call.now, hits);
    OtherKeysStay(c, s, call, hits, t, d);
    KeysAfterCall(c, s, call.now, hits, call.key, t.hits);
  }

  lemma OtherKeysStay(c: Config, s: Limiter, call: Call, hits: map<string, seq<real>>, t: Limiter, d: Decision)
    requires Checked(c, s, call, hits, t, d)
    ensures t.hits.Keys - {call.key} == hits.Keys - {call.key}
    ensures forall k | k in hits && k in t.hits && k != call.key :: t.hits[k] == hits[k]
  {
  }

  lemma KeysAfterCall(c: Config, s: Limiter, now: real, hits: map<string, seq<real>>, key: string,
                      t: map<string, seq<real>>)
    requires KeptFrom(c, s, now, hits)
    requires t.Keys - {key} == hits.Keys - {key}
    requires forall k | k in hits && k in t && k != key :: t[k] == hits[k]
    ensures KeepsExactly(s.hits, t, s.ops + 1, key, now, c.window)
  {
    forall k | k in t.Keys - {key} ensures k in s.hits && t[k] == s.hits[k] {
      assert k in hits.Keys - {key};
    }
    var recent := set k | k in s.hits && Recent(s.hits, k, c.window, now);
    if (s.ops + 1) % 2048 == 0 && |recent| > 100_000 {
      var cold :| ColdHalf(s.hits, recent, cold) && hits.Keys == recent - cold;
      assert ColdHalf(s.hits, recent, cold) && t.Keys - {key} == recent - cold - {key};
    }
  }

  ghost predicate KeptFrom(c: Config, s: Limiter, now: real, hits: map<string, seq<real>>) {
    var recent := set k | k in s.hits && Recent(s.hits, k, c.window, now);
    && (forall k | k in hits :: k in s.hits && hits[k] == s.hits[k])
    && ((s.ops + 1) % 2048 != 0 ==> hits == s.hits)
    && ((s.ops + 1) % 2048 == 0 && |recent| <= 100_000 ==> hits.Keys == recent)
    && ((s.ops + 1) % 2048 == 0 && |recent| > 100_000 ==>
          exists cold :: ColdHalf(s.hits, recent, cold) && hits.Keys == recent - cold)
  }

  lemma CleanedExactly(c: Config, s: Limiter, now: real, hits: map<string, seq<real>>)
    requires Cleaned(c, s, now, hits)
    ensures KeptFrom(c, s, now, hits)
  {
    var recent := set k | k in s.hits && Recent(s.hits, k, c.window, now);
    var kept := WithoutStale(s.hits, now, c.window);
    assert kept.Keys == recent;
    assert |kept| == |kept.Keys|;
    if (s.ops + 1) % CLEANUP_EVERY == 0 && |kept| > MAX_TRACKED_KEYS {
      var cold :| ColdestHalf(kept, cold) && hits == kept - cold;
      assert ColdHalf(s.hits, recent, cold);
      assert hits.Keys == recent - cold;
    }
  }
}
