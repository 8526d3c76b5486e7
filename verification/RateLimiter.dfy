/** The sliding-window limiter over its mutable table, and the strictest of several verdicts. */
module RateLimiter {
  import opened Common
  import opened RateLimit

  class SlidingWindowLimiter {
    const limit: nat
    const window: real
    var hits: map<string, seq<real>>
    var ops: nat

    ghost function State(): Limiter reads this { Limiter(hits, ops) }

    function Settings(): Config { Config(limit, window) }

    constructor (limit: int, window: real)
      ensures this.limit == (if limit < 1 then 1 else limit) && this.window == window
      ensures State() == FRESH
    {
      this.limit := if limit < 1 then 1 else limit;
      this.window := window;
      hits, ops := map[], 0;
    }

    /** Drop stale keys; if too many remain, drop the coldest half. */
    method Prune(now: real)
      modifies this`hits
      ensures var kept := WithoutStale(old(hits), now, window);
        if |kept| <= MAX_TRACKED_KEYS then hits == kept
        else exists cold :: ColdestHalf(kept, cold) && hits == kept - cold
    {
      var kept := WithoutStale(hits, now, window);
      hits := kept;
      if |kept| > MAX_TRACKED_KEYS {
        var cold := Coldest(kept, |kept| / 2);
        hits := kept - cold;
      }
    }

    method Check(key: string, cost: nat, now: real) returns (d: Decision)
      requires window > 0.0
      modifies this
      ensures Step(Settings(), old(State()), Call(key, cost, now), State(), d)
    {
      ghost var before := State();
      Tidy(now);
      ghost var table := hits;
      var mine := if key in hits then hits[key] else [];
      mine, d := Admit(mine, key, cost, now);
      hits := hits[key := mine];
      assert Checked(Settings(), before, Call(key, cost, now), table, State(), d);
    }

    /** Counts the call, and cleans the table on every 2048th. */
    method Tidy(now: real)
      modifies this
      ensures ops == old(ops) + 1 && Cleaned(Settings(), old(State()), now, hits)
    {
      ops := ops + 1;
      if ops % CLEANUP_EVERY == 0 {
        Prune(now);
      }
    }

    /** The key's deque after the call, and the answer. */
    method Admit(hitsOfKey: seq<real>, key: string, cost: nat, now: real) returns (mine: seq<real>, d: Decision)
      ensures var q := DropOld(hitsOfKey, now - window);
        d == Decide(Settings(), Call(key, cost, now), q) && mine == After(Call(key, cost, now), q, d.allowed)
    {
      var cutoff := now - window;
      mine := hitsOfKey;
      ghost var kept := DropOld(hitsOfKey, cutoff);
      while mine != [] && mine[0] < cutoff
        invariant DropOld(mine, cutoff) == kept
      {
        mine := mine[1..];
      }
      d := Verdict(mine, key, cost, now);
      var i := 0;
      while d.allowed && i < cost
        invariant 0 <= i <= cost && mine == kept + Repeat(now, i)
        invariant !d.allowed ==> i == 0
      {
        assert kept + Repeat(now, i) + [now] == kept + Repeat(now, i + 1);
        mine := mine + [now];
        i := i + 1;
      }
    }

    /** The answer for a deque already rid of old hits. */
    method Verdict(mine: seq<real>, key: string, cost: nat, now: real) returns (d: Decision)
      ensures d == Decide(Settings(), Call(key, cost, now), mine)
    {
      if |mine| + cost > limit {
        var oldest := if mine != [] then mine[0] else now;
        var wait := Int(window - (now - oldest)) + 1;
        d := Decision(false, 0, if wait < 1 then 1 else wait, limit);
      } else {
        d := Decision(true, limit - (|mine| + cost), 0, limit);
      }
    }

    method Reset()
      modifies this
      ensures State() == FRESH
    {
      hits, ops := map[], 0;
    }
  }

  lemma {:induction false} ColdestExists(table: map<string, seq<real>>, keys: set<string>)
    requires keys != {} && keys <= table.Keys
    ensures exists k :: k in keys && forall j | j in keys :: Last(table[k]) <= Last(table[j])
    decreases keys
  {
    var k :| k in keys;
    if keys != {k} {
      ColdestExists(table, keys - {k});
      var m :| m in keys - {k} && forall j | j in keys - {k} :: Last(table[m]) <= Last(table[j]);
      var best := if Last(table[k]) <= Last(table[m]) then k else m;
      assert best in keys && forall j | j in keys :: Last(table[best]) <= Last(table[j]);
    }
  }

  /** The `n` keys that were last hit longest ago. */
  method Coldest(table: map<string, seq<real>>, n: nat) returns (cold: set<string>)
    requires n <= |table|
    ensures cold <= table.Keys && |cold| == n
    ensures forall c, k | c in cold && k in table && k !in cold :: Last(table[c]) <= Last(table[k])
  {
    cold := {};
    var rest := table.Keys;
    var i := 0;
    while i < n
      invariant 0 <= i <= n && |cold| == i
      invariant cold !! rest && cold + rest == table.Keys
      invariant forall c, k | c in cold && k in rest :: Last(table[c]) <= Last(table[k])
    {
      assert |table.Keys| == |cold| + |rest| by { assert |cold + rest| == |cold| + |rest|; }
      ColdestExists(table, rest);
      var k :| k in rest && forall j | j in rest :: Last(table[k]) <= Last(table[j]);
      cold := cold + {k};
      rest := rest - {k};
      i := i + 1;
    }
  }

  // ---------------------------------------------------------------- the composite

  predicate AllAllowed(ds: seq<Decision>) {
    forall i | 0 <= i < |ds| :: ds[i].allowed
  }

  /** The strictest of several verdicts: any denial wins, the longest wait among denials, else the least remaining. */
  method Strictest(ds: seq<Decision>) returns (d: Decision)
    ensures ds == [] ==> d == Decision(true, 0, 0, 0)
    ensures ds != [] ==> d in ds && (d.allowed <==> AllAllowed(ds))
    ensures !d.allowed ==> forall i | 0 <= i < |ds| && !ds[i].allowed :: ds[i].retryAfter <= d.retryAfter
    ensures d.allowed ==> forall i | 0 <= i < |ds| :: d.remaining <= ds[i].remaining
  {
    if ds == [] {
      return Decision(true, 0, 0, 0);
    }
    d := ds[0];
    var k := 1;
    while k < |ds|
      invariant 1 <= k <= |ds| && d in ds[..k]
      invariant d.allowed <==> AllAllowed(ds[..k])
      invariant !d.allowed ==> forall i | 0 <= i < k && !ds[i].allowed :: ds[i].retryAfter <= d.retryAfter
      invariant d.allowed ==> forall i | 0 <= i < k :: d.remaining <= ds[i].remaining
    {
      var e := ds[k];
      assert ds[..k + 1] == ds[..k] + [e];
      if d.allowed && !e.allowed {
        d := e;
      } else if d.allowed == e.allowed
        && (if d.allowed then e.remaining < d.remaining else e.retryAfter > d.retryAfter) {
        d := e;
      }
      k := k + 1;
    }
    assert ds[..k] == ds;
  }
}
