/** The sliding-window limiter (core/ratelimit.py): its step, and what any trace of calls can show. */
module RateLimit {
  import opened Common

  const MAX_TRACKED_KEYS := 100_000
  const CLEANUP_EVERY := 2048

  datatype Decision = Decision(allowed: bool, remaining: int, retryAfter: int, limit: nat)

  datatype Config = Config(limit: nat, window: real)

  datatype Limiter = Limiter(hits: map<string, seq<real>>, ops: nat)

  datatype Call = Call(key: string, cost: nat, now: real)

  const FRESH := Limiter(map[], 0)

  /** Truncation toward zero. */
  function Int(x: real): int {
    if x >= 0.0 then x.Floor else -((-x).Floor)
  }

  function DropOld(hits: seq<real>, cutoff: real): seq<real> {
    if hits != [] && hits[0] < cutoff then DropOld(hits[1..], cutoff) else hits
  }

  predicate Stale(hits: seq<real>, now: real, window: real) {
    hits == [] || now - hits[|hits| - 1] > window
  }

  function WithoutStale(hits: map<string, seq<real>>, now: real, window: real): map<string, seq<real>> {
    map k | k in hits && !Stale(hits[k], now, window) :: hits[k]
  }

  function Last(hits: seq<real>): real {
    if hits == [] then 0.0 else hits[|hits| - 1]
  }

  /** `cold` is a coldest half: nothing kept was last hit before anything dropped. */
  ghost predicate ColdestHalf(hits: map<string, seq<real>>, cold: set<string>) {
    && cold <= hits.Keys && |cold| == |hits| / 2
    && forall c, k | c in cold && k in hits && k !in cold :: Last(hits[c]) <= Last(hits[k])
  }

  predicate Evicts(c: Config, s: Limiter, now: real) {
    (s.ops + 1) % CLEANUP_EVERY == 0 && |WithoutStale(s.hits, now, c.window)| > MAX_TRACKED_KEYS
  }

  /** The table a call works on: cleaned on every 2048th call, with the coldest half dropped when still too large. */
  ghost predicate Cleaned(c: Config, s: Limiter, now: real, hits: map<string, seq<real>>) {
    if (s.ops + 1) % CLEANUP_EVERY != 0 then hits == s.hits
    else
      var kept := WithoutStale(s.hits, now, c.window);
      if |kept| <= MAX_TRACKED_KEYS then hits == kept
      else exists cold :: ColdestHalf(kept, cold) && hits == kept - cold
  }

  function HitsOf(hits: map<string, seq<real>>, key: string): seq<real> {
    if key in hits then hits[key] else []
  }

  function Repeat(x: real, n: nat): (r: seq<real>)
    ensures |r| == n && forall i | 0 <= i < n :: r[i] == x
  {
    seq(n, i => x)
  }

  function Decide(c: Config, call: Call, q: seq<real>): Decision {
    if |q| + call.cost > c.limit then
      var oldest := if q == [] then call.now else q[0];
      var wait := Int(c.window - (call.now - oldest)) + 1;
      Decision(false, 0, if wait < 1 then 1 else wait, c.limit)
    else Decision(true, c.limit - |q| - call.cost, 0, c.limit)
  }

  function After(call: Call, q: seq<real>, allowed: bool): seq<real> {
    if allowed then q + Repeat(call.now, call.cost) else q
  }

  /** One call of `check`, from the table it works on. */
  ghost predicate Checked(c: Config, s: Limiter, call: Call, hits: map<string, seq<real>>, t: Limiter, d: Decision) {
    var q := DropOld(HitsOf(hits, call.key), call.now - c.window);
    && d == Decide(c, call, q)
    && t == Limiter(hits[call.key := After(call, q, d.allowed)], s.ops + 1)
  }

  ghost predicate Step(c: Config, s: Limiter, call: Call, t: Limiter, d: Decision) {
    exists hits :: Cleaned(c, s, call.now, hits) && Checked(c, s, call, hits, t, d)
  }

  // ---------------------------------------------------------------- traces

  datatype Trace = Trace(states: seq<Limiter>, calls: seq<Call>, decisions: seq<Decision>)

  ghost predicate ValidTrace(c: Config, x: Trace) {
    && c.limit >= 1 && c.window > 0.0
    && |x.calls| == |x.decisions| && |x.states| == |x.calls| + 1 && x.states[0] == FRESH
    && (forall i {:trigger x.decisions[i]} | 0 <= i < |x.calls| ::
      Step(c, x.states[i], x.calls[i], x.states[i + 1], x.decisions[i]))
    && (forall i, k | 0 <= i < k < |x.calls| :: x.calls[i].now <= x.calls[k].now)
  }

  ghost predicate NoEviction(c: Config, x: Trace) {
    forall i | 0 <= i < |x.calls| && i < |x.states| :: !Evicts(c, x.states[i], x.calls[i].now)
  }

  /** What a trace admitted for a key, in order: read off calls and answers alone. */
  function Admitted(calls: seq<Call>, decisions: seq<Decision>, key: string): seq<real>
    requires |calls| == |decisions|
  {
    if calls == [] then []
    else
      var n := |calls| - 1;
      Admitted(calls[..n], decisions[..n], key)
      + (if calls[n].key == key && decisions[n].allowed then Repeat(calls[n].now, calls[n].cost) else [])
  }

  function CountFrom(ts: seq<real>, from: real): nat {
    if ts == [] then 0 else CountFrom(ts[..|ts| - 1], from) + (if ts[|ts| - 1] >= from then 1 else 0)
  }

  function CountIn(ts: seq<real>, from: real, to: real): nat {
    if ts == [] then 0
    else CountIn(ts[..|ts| - 1], from, to) + (if from <= ts[|ts| - 1] <= to then 1 else 0)
  }

  // ---------------------------------------------------------------- counting

  lemma {:induction false} CountFromAppend(a: seq<real>, b: seq<real>, from: real)
    ensures CountFrom(a + b, from) == CountFrom(a, from) + CountFrom(b, from)
    decreases |b|
  {
    if b == [] {
      assert a + b == a;
    } else {
      assert (a + b)[..|a + b| - 1] == a + b[..|b| - 1];
      CountFromAppend(a, b[..|b| - 1], from);
    }
  }

  lemma {:induction false} CountFromNone(ts: seq<real>, from: real)
    requires forall i | 0 <= i < |ts| :: ts[i] < from
    ensures CountFrom(ts, from) == 0
    decreases |ts|
  {
    if ts != [] {
      CountFromNone(ts[..|ts| - 1], from);
    }
  }

  lemma {:induction false} CountFromAll(ts: seq<real>, from: real)
    requires forall i | 0 <= i < |ts| :: ts[i] >= from
    ensures CountFrom(ts, from) == |ts|
    decreases |ts|
  {
    if ts != [] {
      CountFromAll(ts[..|ts| - 1], from);
    }
  }

  lemma {:induction false} CountInAppend(a: seq<real>, b: seq<real>, from: real, to: real)
    ensures CountIn(a + b, from, to) == CountIn(a, from, to) + CountIn(b, from, to)
    decreases |b|
  {
    if b == [] {
      assert a + b == a;
    } else {
      assert (a + b)[..|a + b| - 1] == a + b[..|b| - 1];
      CountInAppend(a, b[..|b| - 1], from, to);
    }
  }

  lemma {:induction false} CountInBelow(ts: seq<real>, from: real, to: real, since: real)
    requires since <= from
    ensures CountIn(ts, from, to) <= CountFrom(ts, since) && CountIn(ts, from, to) <= |ts|
    decreases |ts|
  {
    if ts != [] {
      CountInBelow(ts[..|ts| - 1], from, to, since);
    }
  }

  lemma {:induction false} CountInNone(ts: seq<real>, from: real, to: real)
    requires forall i | 0 <= i < |ts| :: ts[i] < from || ts[i] > to
    ensures CountIn(ts, from, to) == 0
    decreases |ts|
  {
    if ts != [] {
      CountInNone(ts[..|ts| - 1], from, to);
    }
  }

  // ---------------------------------------------------------------- one deque

  ghost predicate Sorted(q: seq<real>) {
    forall i, k | 0 <= i < k < |q| :: q[i] <= q[k]
  }

  lemma {:induction false} DropOldSplits(q: seq<real>, cutoff: real)
    requires Sorted(q)
    ensures var r := DropOld(q, cutoff);
      && |r| <= |q| && r == q[|q| - |r|..]
      && (forall i | 0 <= i < |q| - |r| :: q[i] < cutoff) && (forall i | 0 <= i < |r| :: r[i] >= cutoff)
    decreases |q|
  {
    if q != [] && q[0] < cutoff {
      DropOldSplits(q[1..], cutoff);
      var r := DropOld(q, cutoff);
      assert q[1..][|q| - 1 - |r|..] == q[|q| - |r|..];
      assert forall i | 1 <= i < |q| - |r| :: q[i] == q[1..][i - 1];
    }
  }

  /** A deque holds a suffix of a key's admissions, and all it has let go of is older than the window. */
  ghost predicate Faithful(q: seq<real>, admitted: seq<real>, horizon: real) {
    && |q| <= |admitted| && q == admitted[|admitted| - |q|..]
    && forall i | 0 <= i < |admitted| - |q| :: admitted[i] < horizon
  }

  ghost predicate Ordered(admitted: seq<real>, now: real) {
    Sorted(admitted) && forall i | 0 <= i < |admitted| :: admitted[i] <= now
  }

  lemma DropOldCounts(q: seq<real>, admitted: seq<real>, horizon: real, cutoff: real)
    requires Faithful(q, admitted, horizon) && Sorted(admitted) && horizon <= cutoff
    ensures |DropOld(q, cutoff)| == CountFrom(admitted, cutoff)
    ensures Faithful(DropOld(q, cutoff), admitted, cutoff)
  {
    assert Sorted(q);
    DropOldSplits(q, cutoff);
    var r := DropOld(q, cutoff);
    var gone := admitted[..|admitted| - |r|];
    assert admitted == gone + r;
    forall i | 0 <= i < |gone| ensures gone[i] < cutoff {
      if i >= |admitted| - |q| {
        assert gone[i] == q[i - (|admitted| - |q|)];
      }
    }
    CountFromAppend(gone, r, cutoff);
    CountFromNone(gone, cutoff);
    CountFromAll(r, cutoff);
  }

  /** Cleaning a table without eviction forgets nothing that a window still sees. */
  lemma CleaningForgetsOnlyOld(c: Config, s: Limiter, now: real, hits: map<string, seq<real>>, key: string,
                               admitted: seq<real>)
    requires Cleaned(c, s, now, hits) && !Evicts(c, s, now)
    requires Sorted(admitted) && Faithful(HitsOf(s.hits, key), admitted, now - c.window)
    ensures Faithful(HitsOf(hits, key), admitted, now - c.window)
  {
    var q := HitsOf(s.hits, key);
    if HitsOf(hits, key) != q {
      assert key in s.hits && Stale(q, now, c.window);
      forall i | 0 <= i < |admitted| ensures admitted[i] < now - c.window {
        if i >= |admitted| - |q| {
          assert admitted[i] <= admitted[|admitted| - 1] == q[|q| - 1];
        }
      }
    }
  }

  lemma WorkedOn(c: Config, x: Trace, i: nat) returns (hits: map<string, seq<real>>)
    requires ValidTrace(c, x) && i < |x.calls|
    ensures Cleaned(c, x.states[i], x.calls[i].now, hits)
    ensures Checked(c, x.states[i], x.calls[i], hits, x.states[i + 1], x.decisions[i])
  {
    assert Step(c, x.states[i], x.calls[i], x.states[i + 1], x.decisions[i]);
    hits :| Cleaned(c, x.states[i], x.calls[i].now, hits)
      && Checked(c, x.states[i], x.calls[i], hits, x.states[i + 1], x.decisions[i]);
  }

  /** What a key was admitted is ordered in time. */
  lemma {:induction false} AdmittedOrdered(calls: seq<Call>, decisions: seq<Decision>, key: string, now: real)
    requires |calls| == |decisions|
    requires forall i, k | 0 <= i < k < |calls| :: calls[i].now <= calls[k].now
    requires |calls| > 0 ==> calls[|calls| - 1].now <= now
    ensures Ordered(Admitted(calls, decisions, key), now)
    decreases |calls|
  {
    if |calls| > 0 {
      var n := |calls| - 1;
      AdmittedOrdered(calls[..n], decisions[..n], key, calls[n].now);
    }
  }

  lemma DequeStep(c: Config, call: Call, d: Decision, q: seq<real>, before: seq<real>)
    requires Faithful(q, before, call.now - c.window) && Sorted(before)
    ensures Faithful(After(call, DropOld(q, call.now - c.window), d.allowed),
                     before + (if d.allowed then Repeat(call.now, call.cost) else []), call.now - c.window)
  {
    DropOldCounts(q, before, call.now - c.window, call.now - c.window);
    var r := DropOld(q, call.now - c.window);
    if d.allowed {
      var more := Repeat(call.now, call.cost);
      assert (before + more)[|before + more| - |r + more|..] == before[|before| - |r|..] + more;
    } else {
      assert before + [] == before;
    }
  }

  lemma CheckStep(c: Config, s: Limiter, call: Call, hits: map<string, seq<real>>, t: Limiter, d: Decision,
                  key: string, before: seq<real>)
    requires Cleaned(c, s, call.now, hits) && Checked(c, s, call, hits, t, d) && !Evicts(c, s, call.now)
    requires Sorted(before) && Faithful(HitsOf(s.hits, key), before, call.now - c.window)
    ensures Faithful(HitsOf(t.hits, key),
                     before + NewlyAdmitted(call, d, key), call.now - c.window)
  {
    CleaningForgetsOnlyOld(c, s, call.now, hits, key, before);
    if call.key == key {
      DequeStep(c, call, d, HitsOf(hits, key), before);
    } else {
      assert before + [] == before;
    }
  }

  /** What the next call admits for a key. */
  function NewlyAdmitted(call: Call, d: Decision, key: string): seq<real> {
    if call.key == key && d.allowed then Repeat(call.now, call.cost) else []
  }

  lemma AdmittedNext(calls: seq<Call>, decisions: seq<Decision>, n: nat, key: string)
    requires n < |calls| == |decisions|
    ensures Admitted(calls[..n + 1], decisions[..n + 1], key)
         == Admitted(calls[..n], decisions[..n], key) + NewlyAdmitted(calls[n], decisions[n], key)
  {
    assert calls[..n + 1][..n] == calls[..n] && decisions[..n + 1][..n] == decisions[..n];
  }

  lemma FaithfulStep(c: Config, x: Trace, n: nat, key: string)
    requires ValidTrace(c, x) && NoEviction(c, x) && n < |x.calls|
    requires Faithful(HitsOf(x.states[n].hits, key), Admitted(x.calls[..n], x.decisions[..n], key),
      x.calls[n].now - c.window)
    ensures Faithful(HitsOf(x.states[n + 1].hits, key), Admitted(x.calls[..n + 1], x.decisions[..n + 1], key),
      x.calls[n].now - c.window)
  {
    AdmittedSorted(c, x, n, key);
    AdmittedNext(x.calls, x.decisions, n, key);
    FaithfulAfter(c, x, n, key, Admitted(x.calls[..n], x.decisions[..n], key));
  }

  lemma FaithfulAfter(c: Config, x: Trace, n: nat, key: string, past: seq<real>)
    requires ValidTrace(c, x) && NoEviction(c, x) && n < |x.calls|
    requires Sorted(past) && Faithful(HitsOf(x.states[n].hits, key), past, x.calls[n].now - c.window)
    ensures Faithful(HitsOf(x.states[n + 1].hits, key), past + NewlyAdmitted(x.calls[n], x.decisions[n], key),
                     x.calls[n].now - c.window)
  {
    assert !Evicts(c, x.states[n], x.calls[n].now);
    var hits := WorkedOn(c, x, n);
    CheckStep(c, x.states[n], x.calls[n], hits, x.states[n + 1], x.decisions[n], key, past);
  }

  lemma AdmittedSorted(c: Config, x: Trace, n: nat, key: string)
    requires ValidTrace(c, x) && n < |x.calls|
    ensures Sorted(Admitted(x.calls[..n], x.decisions[..n], key))
  {
    assert n > 0 ==> x.calls[..n][n - 1] == x.calls[n - 1];
    AdmittedOrdered(x.calls[..n], x.decisions[..n], key, x.calls[n].now);
  }

  lemma LaterIsFaithful(q: seq<real>, admitted: seq<real>, horizon: real, later: real)
    requires Faithful(q, admitted, horizon) && horizon <= later
    ensures Faithful(q, admitted, later)
  {
  }

  /** While no eviction has fired, every deque is faithful to what its key was admitted. */
  lemma {:induction false} DequeIsFaithful(c: Config, x: Trace, n: nat, key: string, now: real)
    requires ValidTrace(c, x) && NoEviction(c, x) && n <= |x.calls| && (n > 0 ==> x.calls[n - 1].now <= now)
    ensures Faithful(HitsOf(x.states[n].hits, key), Admitted(x.calls[..n], x.decisions[..n], key), now - c.window)
    decreases n
  {
    if n > 0 {
      DequeIsFaithful(c, x, n - 1, key, x.calls[n - 1].now);
      FaithfulStep(c, x, n - 1, key);
      LaterIsFaithful(HitsOf(x.states[n].hits, key), Admitted(x.calls[..n], x.decisions[..n], key),
        x.calls[n - 1].now - c.window, now - c.window);
    }
  }

  // ---------------------------------------------------------------- main results

  /** The answer that counting `past` in the closed window [now - window, now] gives. */
  ghost predicate CountsWindow(c: Config, call: Call, past: seq<real>, d: Decision) {
    && (d.allowed <==> CountFrom(past, call.now - c.window) + call.cost <= c.limit)
    && (d.allowed ==> d.remaining == c.limit - CountFrom(past, call.now - c.window) - call.cost >= 0)
  }

  lemma DecisionCounts(c: Config, s: Limiter, call: Call, hits: map<string, seq<real>>, t: Limiter, d: Decision,
                       past: seq<real>)
    requires Cleaned(c, s, call.now, hits) && Checked(c, s, call, hits, t, d) && !Evicts(c, s, call.now)
    requires Sorted(past) && Faithful(HitsOf(s.hits, call.key), past, call.now - c.window)
    ensures CountsWindow(c, call, past, d)
  {
    CleaningForgetsOnlyOld(c, s, call.now, hits, call.key, past);
    DropOldCounts(HitsOf(hits, call.key), past, call.now - c.window, call.now - c.window);
  }

  /** While no eviction has fired, the deque with all its pruning answers as counting all past admissions of the
      key in the window would. */
  lemma ChecksCountTheWindow(c: Config, x: Trace, i: nat)
    requires ValidTrace(c, x) && NoEviction(c, x) && i < |x.calls|
    ensures CountsWindow(c, x.calls[i], Admitted(x.calls[..i], x.decisions[..i], x.calls[i].key), x.decisions[i])
  {
    var call := x.calls[i];
    DequeIsFaithful(c, x, i, call.key, call.now);
    AdmittedSorted(c, x, i, call.key);
    CountsAt(c, x, i, Admitted(x.calls[..i], x.decisions[..i], call.key));
  }

  lemma CountsAt(c: Config, x: Trace, i: nat, past: seq<real>)
    requires ValidTrace(c, x) && NoEviction(c, x) && i < |x.calls| && Sorted(past)
    requires Faithful(HitsOf(x.states[i].hits, x.calls[i].key), past, x.calls[i].now - c.window)
    ensures CountsWindow(c, x.calls[i], past, x.decisions[i])
  {
    var hits := WorkedOn(c, x, i);
    assert !Evicts(c, x.states[i], x.calls[i].now);
    DecisionCounts(c, x.states[i], x.calls[i], hits, x.states[i + 1], x.decisions[i], past);
  }

  lemma AdmissionKeepsBound(past: seq<real>, now: real, cost: nat, from: real, window: real, limit: nat)
    requires CountIn(past, from, from + window) <= limit && CountFrom(past, now - window) + cost <= limit
    ensures CountIn(past + Repeat(now, cost), from, from + window) <= limit
  {
    var more := Repeat(now, cost);
    CountInAppend(past, more, from, from + window);
    if from <= now <= from + window {
      CountInBelow(past, from, from + window, now - window);
      CountInBelow(more, from, from + window, from);
    } else {
      CountInNone(more, from, from + window);
    }
  }

  lemma BoundStep(c: Config, x: Trace, n: nat, key: string, from: real)
    requires ValidTrace(c, x) && NoEviction(c, x) && n < |x.calls|
    requires CountIn(Admitted(x.calls[..n], x.decisions[..n], key), from, from + c.window) <= c.limit
    ensures CountIn(Admitted(x.calls[..n + 1], x.decisions[..n + 1], key), from, from + c.window) <= c.limit
  {
    var call, past := x.calls[n], Admitted(x.calls[..n], x.decisions[..n], key);
    AdmittedNext(x.calls, x.decisions, n, key);
    if call.key == key && x.decisions[n].allowed {
      ChecksCountTheWindow(c, x, n);
      CountedAdmissionKeepsBound(c, call, past, x.decisions[n], from);
    } else {
      assert past + [] == past;
    }
  }

  lemma CountedAdmissionKeepsBound(c: Config, call: Call, past: seq<real>, d: Decision, from: real)
    requires CountIn(past, from, from + c.window) <= c.limit && CountsWindow(c, call, past, d) && d.allowed
    ensures CountIn(past + Repeat(call.now, call.cost), from, from + c.window) <= c.limit
  {
    AdmissionKeepsBound(past, call.now, call.cost, from, c.window, c.limit);
  }

  lemma {:induction false} BoundedUpTo(c: Config, x: Trace, n: nat, key: string, from: real)
    requires ValidTrace(c, x) && NoEviction(c, x) && n <= |x.calls|
    ensures CountIn(Admitted(x.calls[..n], x.decisions[..n], key), from, from + c.window) <= c.limit
    decreases n
  {
    if n > 0 {
      BoundedUpTo(c, x, n - 1, key, from);
      BoundStep(c, x, n - 1, key, from);
    }
  }

  /** Hence every closed interval of window length, wherever it starts, admits at most `limit` per key. */
  lemma EveryWindowIsBounded(c: Config, x: Trace, key: string, from: real)
    requires ValidTrace(c, x) && NoEviction(c, x)
    ensures CountIn(Admitted(x.calls, x.decisions, key), from, from + c.window) <= c.limit
  {
    BoundedUpTo(c, x, |x.calls|, key, from);
    assert x.calls[..|x.calls|] == x.calls && x.decisions[..|x.calls|] == x.decisions;
  }

  // ---------------------------------------------------------------- memory

  lemma {:induction false} DropOldShort(q: seq<real>, cutoff: real)
    ensures |DropOld(q, cutoff)| <= |q|
    decreases |q|
  {
    if q != [] && q[0] < cutoff {
      DropOldShort(q[1..], cutoff);
    }
  }

  lemma CleanedIsPart(c: Config, s: Limiter, now: real, hits: map<string, seq<real>>)
    requires Cleaned(c, s, now, hits)
    ensures forall k | k in hits :: k in s.hits && hits[k] == s.hits[k]
  {
  }

  lemma CleanedIsSmall(c: Config, s: Limiter, now: real, hits: map<string, seq<real>>)
    requires Cleaned(c, s, now, hits)
    ensures forall k | k in hits :: k in s.hits && hits[k] == s.hits[k]
    ensures |hits| <= |s.hits|
    ensures (s.ops + 1) % CLEANUP_EVERY == 0 && |s.hits| <= MAX_TRACKED_KEYS + CLEANUP_EVERY ==>
      |hits| <= MAX_TRACKED_KEYS
  {
    CleanedIsPart(c, s, now, hits);
    SubmapSmaller(hits, s.hits);
    if (s.ops + 1) % CLEANUP_EVERY == 0 {
      var kept := WithoutStale(s.hits, now, c.window);
      SubmapSmaller(kept, s.hits);
      SweptIsSmall(kept, hits);
    }
  }

  lemma SweptIsSmall(kept: map<string, seq<real>>, hits: map<string, seq<real>>)
    requires |kept| <= MAX_TRACKED_KEYS ==> hits == kept
    requires |kept| > MAX_TRACKED_KEYS ==> exists cold :: ColdestHalf(kept, cold) && hits == kept - cold
    ensures |hits| <= MAX_TRACKED_KEYS || |hits| == |kept| - |kept| / 2
  {
    if |kept| > MAX_TRACKED_KEYS {
      var cold :| ColdestHalf(kept, cold) && hits == kept - cold;
      HalfGone(kept, cold);
    }
  }

  lemma HalfGone(kept: map<string, seq<real>>, cold: set<string>)
    requires cold <= kept.Keys && |cold| == |kept| / 2
    ensures |kept - cold| == |kept| - |kept| / 2
  {
    assert (kept - cold).Keys == kept.Keys - cold;
    assert |kept.Keys - cold| == |kept.Keys| - |cold|;
  }

  lemma SubmapSmaller(a: map<string, seq<real>>, b: map<string, seq<real>>)
    requires a.Keys <= b.Keys
    ensures |a| <= |b|
  {
    KeySetSmaller(a.Keys, b.Keys);
  }

  lemma {:induction false} KeySetSmaller(a: set<string>, b: set<string>)
    requires a <= b
    ensures |a| <= |b|
    decreases a
  {
    if a != {} {
      var k :| k in a;
      KeySetSmaller(a - {k}, b - {k});
    }
  }

  /** The table never tracks more than MAX_TRACKED_KEYS + CLEANUP_EVERY keys, and no deque exceeds the limit. */
  ghost predicate Small(c: Config, s: Limiter, calls: nat) {
    && s.ops == calls
    && |s.hits| <= MAX_TRACKED_KEYS + 1 + s.ops % CLEANUP_EVERY <= MAX_TRACKED_KEYS + CLEANUP_EVERY
    && forall k | k in s.hits :: |s.hits[k]| <= c.limit
  }

  lemma StaysSmall(c: Config, s: Limiter, call: Call, hits: map<string, seq<real>>, t: Limiter, d: Decision, calls: nat)
    requires Small(c, s, calls) && Cleaned(c, s, call.now, hits) && Checked(c, s, call, hits, t, d)
    ensures Small(c, t, calls + 1)
  {
    CleanedIsSmall(c, s, call.now, hits);
    DropOldShort(HitsOf(hits, call.key), call.now - c.window);
    AddKey(hits, call.key, t.hits[call.key]);
    OpsWrap(s.ops);
  }

  lemma {:induction false} MemoryIsBounded(c: Config, x: Trace, n: nat)
    requires ValidTrace(c, x) && n <= |x.calls|
    ensures Small(c, x.states[n], n)
    decreases n
  {
    if n > 0 {
      MemoryIsBounded(c, x, n - 1);
      var hits := WorkedOn(c, x, n - 1);
      StaysSmall(c, x.states[n - 1], x.calls[n - 1], hits, x.states[n], x.decisions[n - 1], n - 1);
    }
  }

  lemma AddKey(m: map<string, seq<real>>, k: string, v: seq<real>)
    ensures |m[k := v]| <= |m| + 1
  {
    assert m[k := v].Keys == m.Keys + {k};
  }

  lemma OpsWrap(n: nat)
    ensures (n + 1) % CLEANUP_EVERY == (if n % CLEANUP_EVERY == CLEANUP_EVERY - 1 then 0 else n % CLEANUP_EVERY + 1)
  {
  }

  // ---------------------------------------------------------------- honest retry

  /** The deque a denied call leaves behind, and how its answer compares with it. */
  lemma DequeAfter(c: Config, s: Limiter, call: Call, hits: map<string, seq<real>>, t: Limiter, d: Decision)
    requires Checked(c, s, call, hits, t, d) && !d.allowed && call.cost == 1 && c.limit >= 1
    ensures var q := HitsOf(t.hits, call.key);
      q != [] && q[0] >= call.now - c.window && q[0] + c.window < call.now + d.retryAfter as real
  {
    DropOldHead(HitsOf(hits, call.key), call.now - c.window);
    var q := DropOld(HitsOf(hits, call.key), call.now - c.window);
    var left := c.window - (call.now - q[0]);
    assert left < (Int(left) + 1) as real;
  }

  lemma {:induction false} DropOldHead(q: seq<real>, cutoff: real)
    ensures DropOld(q, cutoff) != [] ==> DropOld(q, cutoff)[0] >= cutoff
    decreases |q|
  {
    if q != [] && q[0] < cutoff {
      DropOldHead(q[1..], cutoff);
    }
  }

  /** Other keys' traffic leaves a deque as it was or clears it. */
  lemma {:induction false} OthersOnlyClear(c: Config, x: Trace, i: nat, k: nat, key: string)
    requires ValidTrace(c, x) && i <= k <= |x.calls|
    requires forall m | i <= m < k :: x.calls[m].key != key
    ensures HitsOf(x.states[k].hits, key) == HitsOf(x.states[i].hits, key) || HitsOf(x.states[k].hits, key) == []
    decreases k
  {
    if i < k {
      OthersOnlyClear(c, x, i, k - 1, key);
      var hits := WorkedOn(c, x, k - 1);
      CleanedIsSmall(c, x.states[k - 1], x.calls[k - 1].now, hits);
    }
  }

  /** A cost-1 caller that is denied, waits `retry_after`, and has the key to itself meanwhile is admitted,
      whatever other keys do and even if evictions fire. */
  lemma WaitingIsHonoured(c: Config, x: Trace, i: nat, k: nat)
    requires ValidTrace(c, x) && i < k < |x.calls|
    requires x.calls[i].key == x.calls[k].key && x.calls[i].cost == x.calls[k].cost == 1 && !x.decisions[i].allowed
    requires forall m | i < m < k :: x.calls[m].key != x.calls[i].key
    requires x.calls[k].now >= x.calls[i].now + x.decisions[i].retryAfter as real
    ensures x.decisions[k].allowed
  {
    var call := x.calls[k];
    var first := WorkedOn(c, x, i);
    DequeAfter(c, x.states[i], x.calls[i], first, x.states[i + 1], x.decisions[i]);
    MemoryIsBounded(c, x, i + 1);
    OthersOnlyClear(c, x, i + 1, k, call.key);
    var hits := WorkedOn(c, x, k);
    CleanedIsSmall(c, x.states[k], call.now, hits);
    var q := HitsOf(hits, call.key);
    if q != [] {
      assert q == HitsOf(x.states[i + 1].hits, call.key);
      DropOldShort(q[1..], call.now - c.window);
    }
  }
}
