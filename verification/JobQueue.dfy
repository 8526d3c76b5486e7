/** The job queue service and the worker that drives it, in place over one table. */
module JobQueue {
  import opened Common
  import opened Jobs
  import JobRuns

  class JobTable {
    var jobs: seq<Job>
    var nextToken: nat

    ghost function State(): Queue reads this { Queue(jobs, nextToken) }

    constructor ()
      ensures State() == JobRuns.START.queue
    {
      jobs := [];
      nextToken := 0;
    }

    /** Returns the new row's id, or None exactly when a live row already has the dedupe key. */
    method EnqueueJob(r: Request, runAfter: int, now: int) returns (id: Option<nat>)
      requires Inv(State()) && r.maxAttempts >= 1
      modifies this
      ensures Inv(State()) && State() == Enqueue(old(State()), r, runAfter, now).0
      ensures id.None? <==> Conflicts(old(jobs), r.dedupe)
      ensures id.None? ==> jobs == old(jobs)
      ensures id.Some? ==> id.value == |old(jobs)| && jobs[..id.value] == old(jobs) && jobs[id.value].status == Pending
    {
      if Conflicts(jobs, r.dedupe) {
        return None;
      }
      var row := Job(r.task, Pending, r.priority, r.dedupe, 0, r.maxAttempts, runAfter, now, None, None, None);
      jobs := jobs + [row];
      EnqueueKeepsInv(old(State()), r, runAfter, now);
      return Some(|jobs| - 1);
    }

    /** Claim up to `limit` runnable rows, skipping those locked by other sessions. */
    method ClaimJobs(worker: nat, limit: nat, now: int, lockedElsewhere: set<nat>) returns (claimed: seq<Claim>)
      requires Inv(State())
      modifies this
      ensures Inv(State())
      ensures var ids := Select(old(jobs), limit, now, lockedElsewhere);
        ClaimedAs(old(State()), ids, worker, now, State(), claimed)
    {
      var ids := Select(jobs, limit, now, lockedElsewhere);
      SelectSound(jobs, limit, now, lockedElsewhere);
      RunnableIsPending(State(), ids, now, lockedElsewhere);
      ClaimRowsEffect(State(), ids, worker, now);
      ClaimRowsKeepsInv(State(), ids, worker, now);
      claimed := ClaimSelected(ids, worker, now);
    }

    /** The claim loop over selected ids. */
    method ClaimSelected(ids: seq<nat>, worker: nat, now: int) returns (claimed: seq<Claim>)
      requires RowsExist(State(), ids)
      modifies this
      ensures (State(), claimed) == ClaimRows(old(State()), ids, worker, now)
    {
      ghost var q := State();
      claimed := [];
      var k := 0;
      while k < |ids|
        invariant 0 <= k <= |ids| && |jobs| == |q.jobs|
        invariant RowsExist(q, ids[..k])
        invariant (State(), claimed) == ClaimRows(q, ids[..k], worker, now)
      {
        assert ids[..k + 1][..k] == ids[..k];
        assert ids[k] < |q.jobs|;
        assert claimed + [] == claimed;
        var more := ClaimOne(ids[k], worker, now);
        claimed := claimed + more;
        k := k + 1;
      }
      assert ids[..k] == ids;
    }

    /** One guarded update: nothing when the row is no longer pending. */
    method ClaimOne(j: nat, worker: nat, now: int) returns (more: seq<Claim>)
      requires j < |jobs|
      modifies this
      ensures old(jobs)[j].status != Pending ==> State() == old(State()) && more == []
      ensures old(jobs)[j].status == Pending ==>
        && State() == ClaimRow(old(State()), j, worker, now)
        && more == [Claim(j, old(nextToken), old(jobs)[j].attempts + 1)]
    {
      more := [];
      if jobs[j].status == Pending {
        var row := jobs[j];
        more := [Claim(j, nextToken, row.attempts + 1)];
        row := row.(status := Running, lockedAt := Some(now), lockedBy := Some(worker));
        row := row.(lockToken := Some(nextToken), attempts := row.attempts + 1);
        jobs := jobs[j := row];
        nextToken := nextToken + 1;
      }
    }

    /** Mark succeeded; refused, with no change at all, when the caller no longer holds the lock. */
    method CompleteJob(job: nat, token: nat) returns (ok: bool)
      requires Inv(State())
      modifies this
      ensures Inv(State()) && State() == Complete(old(State()), job, token)
      ensures ok <==> Holds(old(State()), job, token)
      ensures ok ==> Finished(jobs[job])
      ensures !ok ==> jobs == old(jobs)
    {
      CompleteKeepsInv(State(), job, token);
      ok := job < |jobs| && jobs[job].lockToken == Some(token);
      if ok {
        jobs := jobs[job := jobs[job].(status := Succeeded, lockedAt := None, lockedBy := None, lockToken := None)];
      }
    }

    /** Reschedule with jittered backoff, or bury the job once its attempts are used up. */
    method FailJob(job: nat, token: nat, retryable: bool, now: int) returns (ok: bool, delay: int)
      requires Inv(State())
      modifies this
      ensures Inv(State()) && State() == Fail(old(State()), job, token, retryable, delay, now)
      ensures ok <==> Holds(old(State()), job, token)
      ensures !ok ==> jobs == old(jobs)
      ensures ok ==> BASE_BACKOFF_SECONDS <= delay <= BackoffCeiling(old(jobs)[job].attempts) <= MAX_BACKOFF_SECONDS
    {
      delay := 0;
      ok := job < |jobs| && jobs[job].lockToken == Some(token);
      if ok {
        var row := jobs[job];
        BackoffCeilingShape(row.attempts, row.attempts);
        delay :| BASE_BACKOFF_SECONDS <= delay <= BackoffCeiling(row.attempts);
        FailKeepsInv(State(), job, token, retryable, delay, now);
        if retryable && row.attempts < row.maxAttempts {
          row := row.(status := Pending, runAfter := now + delay);
        } else {
          row := row.(status := if !retryable then Dead else Failed);
        }
        row := row.(lockedAt := None, lockedBy := None, lockToken := None);
        jobs := jobs[job := row];
      }
    }

    /** Return every stale row to the pending queue in one statement; count them. */
    method RecoverStaleJobs(cutoff: int, now: int) returns (count: nat)
      requires Inv(State())
      modifies this
      ensures Inv(State()) && State() == Recover(old(State()), cutoff, now)
      ensures count == |set i | 0 <= i < |old(jobs)| && old(jobs)[i].status == Running
                               && (old(jobs)[i].lockedAt.None? || old(jobs)[i].lockedAt.value < cutoff)|
      ensures count == 0 ==> jobs == old(jobs)
    {
      RecoverKeepsInv(State(), cutoff, now);
      NothingStale(State(), cutoff, now);
      count := |set i | 0 <= i < |jobs| && Stale(jobs[i], cutoff)|;
      assert forall i | 0 <= i < |jobs| ::
        Stale(jobs[i], cutoff) <==>
          jobs[i].status == Running && (jobs[i].lockedAt.None? || jobs[i].lockedAt.value < cutoff);
      assert (set i | 0 <= i < |jobs| && Stale(jobs[i], cutoff))
        == set i | 0 <= i < |jobs| && jobs[i].status == Running
                   && (jobs[i].lockedAt.None? || jobs[i].lockedAt.value < cutoff);
      var before := jobs;
      jobs := seq(|before|, i requires 0 <= i < |before| => RecoveredRow(before[i], cutoff, now));
      assert State() == Recover(old(State()), cutoff, now);
    }
  }

  lemma RunnableIsPending(q: Queue, ids: seq<nat>, now: int, locked: set<nat>)
    requires AllRunnable(q.jobs, ids, now, locked)
    ensures AllPending(q, ids)
  {
    assert forall i | 0 <= i < |ids| :: Runnable(q.jobs, ids[i], now, locked);
  }

  lemma NothingStale(q: Queue, cutoff: int, now: int)
    ensures |set i | 0 <= i < |q.jobs| && Stale(q.jobs[i], cutoff)| == 0 ==> Recover(q, cutoff, now).jobs == q.jobs
  {
    var stale := set i | 0 <= i < |q.jobs| && Stale(q.jobs[i], cutoff);
    if |stale| == 0 {
      assert stale == {};
      forall i | 0 <= i < |q.jobs| ensures !Stale(q.jobs[i], cutoff) {
        assert i !in stale;
      }
    }
  }

  // ---------------------------------------------------------------- the worker

  /** How a handler ends: it returns, raises NonRetryableError, or raises anything else. */
  datatype HandlerEnd = Returned | NonRetryable | Raised

  /** The log row of one execution: the attempt's number is the job's counter when it was claimed. */
  datatype Attempt = Attempt(job: nat, number: nat, succeeded: bool)

  /** The row after settlement: done, rescheduled within the backoff range, or buried. */
  ghost predicate SettledAs(a: Job, end: HandlerEnd, now: int, b: Job) {
    match end
    case Returned => FreedAs(a, Succeeded, a.runAfter, b)
    case NonRetryable => FreedAs(a, Dead, a.runAfter, b)
    case Raised =>
      if a.attempts < a.maxAttempts then
        FreedAs(a, Pending, b.runAfter, b) && now + 5 <= b.runAfter <= now + BackoffCeiling(a.attempts)
      else FreedAs(a, Failed, a.runAfter, b)
  }

  ghost predicate DistinctJobs(claimed: seq<Claim>) {
    forall i, k | 0 <= i < k < |claimed| :: claimed[i].job != claimed[k].job
  }

  ghost predicate AllHeld(q: Queue, claimed: seq<Claim>) {
    forall i | 0 <= i < |claimed| :: Holds(q, claimed[i].job, claimed[i].token)
  }

  lemma ClaimedAreHeld(q: Queue, ids: seq<nat>, worker: nat, now: int, r: Queue, claimed: seq<Claim>)
    requires ClaimedAs(q, ids, worker, now, r, claimed) && Distinct(ids)
    ensures AllHeld(r, claimed) && DistinctJobs(claimed)
    ensures forall i | 0 <= i < |ids| :: claimed[i].job == ids[i]
  {
  }

  /** The log rows of executing `claimed` with these outcomes. */
  function Attempts(claimed: seq<Claim>, ends: seq<HandlerEnd>): (log: seq<Attempt>)
    requires |claimed| <= |ends|
    ensures |log| == |claimed|
    ensures forall i | 0 <= i < |log| :: log[i] == Attempt(claimed[i].job, claimed[i].attempt, ends[i].Returned?)
  {
    seq(|claimed|, i requires 0 <= i < |claimed| => Attempt(claimed[i].job, claimed[i].attempt, ends[i].Returned?))
  }

  /** Every claimed row is settled by its own handler's outcome; no other row changes. */
  ghost predicate AllSettled(before: seq<Job>, claimed: seq<Claim>, ends: seq<HandlerEnd>, now: int, after: seq<Job>)
    requires |claimed| <= |ends|
  {
    && |after| == |before|
    && (forall i | 0 <= i < |claimed| :: claimed[i].job < |before|
          && SettledAs(before[claimed[i].job], ends[i], now, after[claimed[i].job]))
    && forall j | 0 <= j < |before| && (forall i | 0 <= i < |claimed| :: claimed[i].job != j) :: after[j] == before[j]
  }

  /** One whole cycle: the rows `ids` were claimed, and settled by their handlers' outcomes; no other row changed. */
  ghost predicate CycleDone(q: Queue, ids: seq<nat>, worker: nat, ends: seq<HandlerEnd>, now: int, after: seq<Job>)
    requires |ids| <= |ends|
  {
    && |after| == |q.jobs|
    && (forall i | 0 <= i < |ids| :: ids[i] < |q.jobs|
          && ClaimedAndSettled(q.jobs[ids[i]], worker, q.nextToken + i, ends[i], now, after[ids[i]]))
    && forall j: nat | j < |q.jobs| && j !in ids :: after[j] == q.jobs[j]
  }

  ghost predicate ClaimedAndSettled(a: Job, worker: nat, token: nat, end: HandlerEnd, now: int, b: Job) {
    exists claimed :: ClaimedTo(a, worker, token, now, claimed) && SettledAs(claimed, end, now, b)
  }

  lemma ClaimedThenSettled(q: Queue, ids: seq<nat>, worker: nat, now: int, r: Queue, claimed: seq<Claim>,
                           ends: seq<HandlerEnd>, after: seq<Job>)
    requires ClaimedAs(q, ids, worker, now, r, claimed) && |ids| <= |ends|
    requires AllSettled(r.jobs, claimed, ends, now, after)
    ensures CycleDone(q, ids, worker, ends, now, after)
  {
    forall i | 0 <= i < |ids|
      ensures ids[i] < |q.jobs|
      ensures ClaimedAndSettled(q.jobs[ids[i]], worker, q.nextToken + i, ends[i], now, after[ids[i]])
    {
      assert claimed[i].job == ids[i];
      assert ClaimedTo(q.jobs[ids[i]], worker, q.nextToken + i, now, r.jobs[ids[i]]);
    }
    forall j: nat | j < |q.jobs| && j !in ids ensures after[j] == q.jobs[j] {
      assert r.jobs[j] == q.jobs[j];
    }
  }

  /** The log rows of a cycle: each job under the number its claim gave it. */
  ghost predicate CycleLogged(q: Queue, ids: seq<nat>, ends: seq<HandlerEnd>, log: seq<Attempt>)
    requires |ids| <= |ends|
  {
    && |log| == |ids|
    && forall i | 0 <= i < |ids| :: ids[i] < |q.jobs|
         && log[i] == Attempt(ids[i], q.jobs[ids[i]].attempts + 1, ends[i].Returned?)
  }

  lemma ClaimedThenLogged(q: Queue, ids: seq<nat>, worker: nat, now: int, r: Queue, claimed: seq<Claim>,
                          ends: seq<HandlerEnd>)
    requires ClaimedAs(q, ids, worker, now, r, claimed) && |ids| <= |ends|
    ensures CycleLogged(q, ids, ends, Attempts(claimed, ends))
  {
  }

  class Worker {
    const id: nat
    const concurrency: nat
    var processed: nat
    var failed: nat
    var attempts: seq<Attempt>

    constructor (id: nat, concurrency: nat)
      ensures this.id == id && this.concurrency == (if concurrency < 1 then 1 else concurrency)
      ensures processed == failed == 0 && attempts == []
    {
      this.id := id;
      this.concurrency := if concurrency < 1 then 1 else concurrency;
      processed, failed, attempts := 0, 0, [];
    }

    /** Settle one claim by its handler's outcome. When the lock is lost the outcome has no effect on the
        table, but the counters still move: the worker does not look at the answer. */
    method Execute(table: JobTable, c: Claim, end: HandlerEnd, now: int)
      requires Inv(table.State())
      modifies this, table
      ensures Inv(table.State()) && |table.jobs| == |old(table.jobs)| && table.nextToken == old(table.nextToken)
      ensures Holds(old(table.State()), c.job, c.token) ==>
        SettledAs(old(table.jobs)[c.job], end, now, table.jobs[c.job])
      ensures !Holds(old(table.State()), c.job, c.token) ==> table.jobs == old(table.jobs)
      ensures forall j | 0 <= j < |table.jobs| && j != c.job :: table.jobs[j] == old(table.jobs)[j]
      ensures processed == old(processed) + (if end.Returned? then 1 else 0)
      ensures failed == old(failed) + (if end.Returned? then 0 else 1)
      ensures attempts == old(attempts) + [Attempt(c.job, c.attempt, end.Returned?)]
    {
      attempts := attempts + [Attempt(c.job, c.attempt, end.Returned?)];
      match end {
        case Returned =>
          var _ := table.CompleteJob(c.job, c.token);
          processed := processed + 1;
        case NonRetryable =>
          var _, _ := table.FailJob(c.job, c.token, false, now);
          failed := failed + 1;
        case Raised =>
          var _, _ := table.FailJob(c.job, c.token, true, now);
          failed := failed + 1;
      }
    }

    /** Execute every claim in turn; `ends` are the handlers' outcomes. */
    method ExecuteAll(table: JobTable, claimed: seq<Claim>, ends: seq<HandlerEnd>, now: int)
      requires Inv(table.State()) && |ends| >= |claimed|
      requires AllHeld(table.State(), claimed)
      requires DistinctJobs(claimed)
      modifies this, table
      ensures Inv(table.State()) && AllSettled(old(table.jobs), claimed, ends, now, table.jobs)
      ensures processed + failed == old(processed) + old(failed) + |claimed|
      ensures attempts == old(attempts) + Attempts(claimed, ends)
    {
      var k := 0;
      while k < |claimed|
        invariant 0 <= k <= |claimed|
        invariant Inv(table.State()) && |table.jobs| == |old(table.jobs)|
        invariant processed + failed == old(processed) + old(failed) + k
        invariant attempts == old(attempts) + Attempts(claimed, ends)[..k]
        invariant AllHeld(old(table.State()), claimed)
        invariant forall i | 0 <= i < k ::
          SettledAs(old(table.jobs)[claimed[i].job], ends[i], now, table.jobs[claimed[i].job])
        invariant forall j | 0 <= j < |table.jobs| && (forall i | 0 <= i < k :: claimed[i].job != j) ::
          table.jobs[j] == old(table.jobs)[j]
      {
        Execute(table, claimed[k], ends[k], now);
        k := k + 1;
      }
    }

    /** One cycle with no other session in between: the rows selected are claimed, committed, and each
        settled by its own handler's outcome; no other row changes. */
    method RunOnce(table: JobTable, ends: seq<HandlerEnd>, now: int) returns (count: nat)
      requires Inv(table.State()) && |ends| >= concurrency
      modifies this, table
      ensures Inv(table.State()) && count == |Select(old(table.jobs), concurrency, now, {})| <= |ends|
      ensures processed + failed == old(processed) + old(failed) + count
      ensures CycleDone(old(table.State()), Select(old(table.jobs), concurrency, now, {}), id, ends, now, table.jobs)
      ensures |old(attempts)| <= |attempts| && attempts[..|old(attempts)|] == old(attempts)
      ensures CycleLogged(old(table.State()), Select(old(table.jobs), concurrency, now, {}), ends,
                          attempts[|old(attempts)|..])
    {
      ghost var q, ids := table.State(), Select(table.jobs, concurrency, now, {});
      SelectSound(table.jobs, concurrency, now, {});
      var claimed := table.ClaimJobs(id, concurrency, now, {});
      ghost var r := table.State();
      ClaimedAreHeld(q, ids, id, now, r, claimed);
      count := |claimed|;
      ExecuteAll(table, claimed, ends, now);
      ClaimedThenSettled(q, ids, id, now, r, claimed, ends, table.jobs);
      ClaimedThenLogged(q, ids, id, now, r, claimed, ends);
      assert attempts[|old(attempts)|..] == Attempts(claimed, ends);
    }
  }
}
