/** Every interleaving of the sessions that use the job table. */
module JobRuns {
  import opened Common
  import opened Jobs

  datatype OpenClaim = OpenClaim(ids: seq<nat>, now: int)

  datatype System = System(queue: Queue, open: map<nat, OpenClaim>)

  /** A claiming transaction is two steps: `BeginClaim` selects and row-locks, `CommitClaim` writes and releases.
      Between them other sessions run, and their selections skip the locked rows. `Finish` and `GiveUp` carry any job
      and token at all, so late, repeated and mistaken completions are among the runs. */
  datatype Step =
    | Insert(request: Request, runAfter: int, at: int)
    | BeginClaim(worker: nat, limit: nat, at: int)
    | CommitClaim(worker: nat)
    | AbortClaim(worker: nat)
    | Finish(job: nat, token: nat)
    | GiveUp(job: nat, token: nat, retryable: bool, delay: int, at: int)
    | RecoverStale(cutoff: int, at: int)

  const START := System(Queue([], 0), map[])

  function LockedRows(open: map<nat, OpenClaim>): set<nat> {
    set w, i | w in open && 0 <= i < |open[w].ids| :: open[w].ids[i]
  }

  predicate Claims(s: System, step: Step, j: nat) {
    step.CommitClaim? && step.worker in s.open && j in s.open[step.worker].ids
  }

  predicate Recovers(s: System, step: Step, j: nat) {
    step.RecoverStale? && j < |s.queue.jobs| && Stale(s.queue.jobs[j], step.cutoff)
  }

  /** The claims a step hands to its worker. */
  function Issued(s: System, step: Step): seq<Claim> {
    if step.CommitClaim? && step.worker in s.open && RowsExist(s.queue, s.open[step.worker].ids)
    then ClaimRows(s.queue, s.open[step.worker].ids, step.worker, s.open[step.worker].now).1
    else []
  }

  function Apply(s: System, step: Step): System {
    match step
    case Insert(r, runAfter, at) =>
      // max_attempts >= 1 is a CHECK constraint: the insert fails and nothing is stored.
      if r.maxAttempts == 0 then s else s.(queue := Enqueue(s.queue, r, runAfter, at).0)
    case BeginClaim(w, limit, at) =>
      if w in s.open then s
      else s.(open := s.open[w := OpenClaim(Select(s.queue.jobs, limit, at, LockedRows(s.open)), at)])
    case CommitClaim(w) =>
      if w in s.open && RowsExist(s.queue, s.open[w].ids)
      then System(ClaimRows(s.queue, s.open[w].ids, w, s.open[w].now).0, s.open - {w})
      else s
    case AbortClaim(w) => s.(open := s.open - {w})
    case Finish(j, t) => s.(queue := Complete(s.queue, j, t))
    case GiveUp(j, t, retryable, delay, at) => s.(queue := Fail(s.queue, j, t, retryable, delay, at))
    case RecoverStale(cutoff, at) => s.(queue := Recover(s.queue, cutoff, at))
  }

  function Run(s: System, steps: seq<Step>): System {
    if steps == [] then s else Apply(Run(s, steps[..|steps| - 1]), steps[|steps| - 1])
  }

  // ---------------------------------------------------------------- invariant of every reachable state

  ghost predicate ClaimsDisjoint(s: System) {
    forall w, v | w in s.open && v in s.open && w != v ::
      forall i, k | 0 <= i < |s.open[w].ids| && 0 <= k < |s.open[v].ids| :: s.open[w].ids[i] != s.open[v].ids[k]
  }

  ghost predicate ClaimsPending(s: System) {
    forall w | w in s.open :: AllPending(s.queue, s.open[w].ids) && Distinct(s.open[w].ids)
  }

  ghost predicate SystemInv(s: System) {
    Inv(s.queue) && ClaimsPending(s) && ClaimsDisjoint(s)
  }

  lemma BeginClaimKeepsInv(s: System, w: nat, limit: nat, at: int)
    requires SystemInv(s) && w !in s.open
    ensures SystemInv(Apply(s, BeginClaim(w, limit, at)))
  {
    var locked := LockedRows(s.open);
    SelectSound(s.queue.jobs, limit, at, locked);
    var ids := Select(s.queue.jobs, limit, at, locked);
    assert AllPending(s.queue, ids) by {
      assert forall i | 0 <= i < |ids| :: Runnable(s.queue.jobs, ids[i], at, locked);
    }
    forall v, i, k | v in s.open && 0 <= i < |ids| && 0 <= k < |s.open[v].ids|
      ensures ids[i] != s.open[v].ids[k]
    {
      assert s.open[v].ids[k] in locked && Runnable(s.queue.jobs, ids[i], at, locked);
    }
  }

  lemma CommitClaimKeepsInv(s: System, w: nat)
    requires SystemInv(s) && w in s.open
    ensures SystemInv(Apply(s, CommitClaim(w)))
  {
    var ids, now := s.open[w].ids, s.open[w].now;
    ClaimRowsEffect(s.queue, ids, w, now);
    ClaimRowsKeepsInv(s.queue, ids, w, now);
    var r := Apply(s, CommitClaim(w));
    forall v | v in r.open ensures AllPending(r.queue, r.open[v].ids) {
      var other := s.open[v].ids;
      assert AllPending(s.queue, other);
      forall i | 0 <= i < |other| ensures r.queue.jobs[other[i]] == s.queue.jobs[other[i]] {
        assert other[i] !in ids;
      }
    }
  }

  lemma QueueChangeKeepsInv(s: System, q: Queue)
    requires SystemInv(s) && Inv(q) && |s.queue.jobs| <= |q.jobs|
    requires forall j | 0 <= j < |s.queue.jobs| && s.queue.jobs[j].status == Pending :: q.jobs[j].status == Pending
    ensures SystemInv(s.(queue := q))
  {
    forall w | w in s.open ensures AllPending(q, s.open[w].ids) && Distinct(s.open[w].ids) {
      assert AllPending(s.queue, s.open[w].ids);
    }
  }

  /** What every step keeps: locks match status, tokens are unshared, one live row per dedupe key,
      and the rows held by open claims are pending and belong to one claim each. */
  lemma StepKeepsInv(s: System, step: Step)
    requires SystemInv(s)
    ensures SystemInv(Apply(s, step))
  {
    match step
    case BeginClaim(w, limit, at) =>
      if w !in s.open { BeginClaimKeepsInv(s, w, limit, at); }
    case CommitClaim(w) =>
      if w in s.open { CommitClaimKeepsInv(s, w); }
    case AbortClaim(w) =>
    case Insert(r, runAfter, at) => InsertKeepsInv(s, r, runAfter, at);
    case Finish(j, t) => FinishKeepsInv(s, j, t);
    case GiveUp(j, t, retryable, delay, at) => GiveUpKeepsInv(s, j, t, retryable, delay, at);
    case RecoverStale(cutoff, at) => RecoverStaleKeepsInv(s, cutoff, at);
  }

  lemma InsertKeepsInv(s: System, r: Request, runAfter: int, at: int)
    requires SystemInv(s)
    ensures SystemInv(Apply(s, Insert(r, runAfter, at)))
  {
    if r.maxAttempts > 0 {
      EnqueueKeepsInv(s.queue, r, runAfter, at);
      QueueChangeKeepsInv(s, Enqueue(s.queue, r, runAfter, at).0);
    }
  }

  lemma FinishKeepsInv(s: System, j: nat, token: nat)
    requires SystemInv(s)
    ensures SystemInv(Apply(s, Finish(j, token)))
  {
    CompleteKeepsInv(s.queue, j, token);
    QueueChangeKeepsInv(s, Complete(s.queue, j, token));
  }

  lemma GiveUpKeepsInv(s: System, j: nat, token: nat, retryable: bool, delay: int, at: int)
    requires SystemInv(s)
    ensures SystemInv(Apply(s, GiveUp(j, token, retryable, delay, at)))
  {
    FailKeepsInv(s.queue, j, token, retryable, delay, at);
    QueueChangeKeepsInv(s, Fail(s.queue, j, token, retryable, delay, at));
  }

  lemma RecoverStaleKeepsInv(s: System, cutoff: int, at: int)
    requires SystemInv(s)
    ensures SystemInv(Apply(s, RecoverStale(cutoff, at)))
  {
    RecoverKeepsInv(s.queue, cutoff, at);
    QueueChangeKeepsInv(s, Recover(s.queue, cutoff, at));
  }

  lemma {:induction false} RunKeepsInv(s: System, steps: seq<Step>)
    requires SystemInv(s)
    ensures SystemInv(Run(s, steps))
    decreases |steps|
  {
    if steps != [] {
      RunKeepsInv(s, steps[..|steps| - 1]);
      StepKeepsInv(Run(s, steps[..|steps| - 1]), steps[|steps| - 1]);
    }
  }

  // ---------------------------------------------------------------- what one step does to one row

  ghost predicate RowStep(a: Job, b: Job, claimed: bool, recovered: bool, next: nat) {
    && b.maxAttempts == a.maxAttempts && b.task == a.task && b.dedupe == a.dedupe
    && (claimed ==> a.status == Pending && b.status == Running && b.attempts == a.attempts + 1
                    && b.lockToken.Some? && b.lockToken.value >= next)
    && (recovered ==> a.status == Running && b == Released(a, Pending).(runAfter := b.runAfter))
    && (!claimed ==> b.attempts == a.attempts && (b.lockToken == a.lockToken || b.lockToken == None))
    && (!claimed && !recovered ==>
         || b == a
         || (a.status == Running && b.lockToken == None &&
              (Finished(b) || (b.status == Pending && a.attempts < a.maxAttempts))))
  }

  lemma StepOnRow(s: System, step: Step, j: nat)
    requires SystemInv(s) && j < |s.queue.jobs|
    ensures |Apply(s, step).queue.jobs| >= |s.queue.jobs| && Apply(s, step).queue.nextToken >= s.queue.nextToken
    ensures RowStep(s.queue.jobs[j], Apply(s, step).queue.jobs[j], Claims(s, step, j), Recovers(s, step, j),
      s.queue.nextToken)
  {
    match step
    case CommitClaim(w) =>
      if w in s.open {
        ClaimRowsEffect(s.queue, s.open[w].ids, w, s.open[w].now);
      }
    case _ =>
  }

  lemma StepOnNewRow(s: System, step: Step, j: nat)
    requires SystemInv(s) && |s.queue.jobs| <= j < |Apply(s, step).queue.jobs|
    ensures step.Insert?
    ensures Apply(s, step).queue.jobs[j].attempts == 0 < Apply(s, step).queue.jobs[j].maxAttempts
    ensures Apply(s, step).queue.jobs[j].status == Pending && Apply(s, step).queue.jobs[j].lockToken == None
    ensures !Claims(s, step, j) && !Recovers(s, step, j)
  {
  }

  /** Succeeded, failed and dead are absorbing along every run. */
  lemma {:induction false} FinishedForever(s: System, steps: seq<Step>, j: nat)
    requires SystemInv(s) && j < |s.queue.jobs| && Finished(s.queue.jobs[j])
    ensures j < |Run(s, steps).queue.jobs| && Run(s, steps).queue.jobs[j] == s.queue.jobs[j]
    decreases |steps|
  {
    if steps != [] {
      var before := steps[..|steps| - 1];
      FinishedForever(s, before, j);
      RunKeepsInv(s, before);
      StepOnRow(Run(s, before), steps[|steps| - 1], j);
    }
  }

  // ---------------------------------------------------------------- attempt accounting

  function Times(b: bool): nat {
    if b then 1 else 0
  }

  /** How often job `j` was claimed, and recovered, along a run. */
  function ClaimCount(s: System, steps: seq<Step>, j: nat): nat {
    if steps == [] then 0
    else
      var before := steps[..|steps| - 1];
      ClaimCount(s, before, j) + Times(Claims(Run(s, before), steps[|steps| - 1], j))
  }

  function RecoveryCount(s: System, steps: seq<Step>, j: nat): nat {
    if steps == [] then 0
    else
      var before := steps[..|steps| - 1];
      RecoveryCount(s, before, j) + Times(Recovers(Run(s, before), steps[|steps| - 1], j))
  }

  lemma {:induction false} NoCountsBeforeInsertion(steps: seq<Step>, j: nat)
    requires j >= |Run(START, steps).queue.jobs|
    ensures ClaimCount(START, steps, j) == 0 && RecoveryCount(START, steps, j) == 0
    decreases |steps|
  {
    if steps != [] {
      var before := steps[..|steps| - 1];
      var s := Run(START, before);
      RunKeepsInv(START, before);
      if j < |s.queue.jobs| {
        StepOnRow(s, steps[|steps| - 1], j);
        assert false;
      }
      NoCountsBeforeInsertion(before, j);
    }
  }

  /** `attempts` counts claims exactly, and exceeds `max_attempts` only by stale recoveries;
      while the job waits to be claimed it is strictly below that bound. */
  lemma {:induction false} AttemptAccounting(steps: seq<Step>, j: nat)
    requires j < |Run(START, steps).queue.jobs|
    ensures var job := Run(START, steps).queue.jobs[j];
      && job.attempts == ClaimCount(START, steps, j)
      && job.attempts <= job.maxAttempts + RecoveryCount(START, steps, j)
      && (job.status == Pending ==> job.attempts < job.maxAttempts + RecoveryCount(START, steps, j))
    decreases |steps|
  {
    if steps != [] {
      var before, step := steps[..|steps| - 1], steps[|steps| - 1];
      var s := Run(START, before);
      RunKeepsInv(START, before);
      if j < |s.queue.jobs| {
        AttemptAccounting(before, j);
        StepOnRow(s, step, j);
      } else {
        NoCountsBeforeInsertion(before, j);
        StepOnNewRow(s, step, j);
      }
    }
  }

  /** Without stale recovery a job is claimed at most `max_attempts` times, and once it has been
      claimed that often and the last claim has been settled, it is finished for good. */
  lemma FinishedAfterMaxAttempts(steps: seq<Step>, later: seq<Step>, j: nat)
    requires j < |Run(START, steps).queue.jobs| && RecoveryCount(START, steps, j) == 0
    ensures ClaimCount(START, steps, j) <= Run(START, steps).queue.jobs[j].maxAttempts
    ensures
      var s := Run(START, steps);
      ClaimCount(START, steps, j) == s.queue.jobs[j].maxAttempts && s.queue.jobs[j].status != Running ==>
        && Finished(s.queue.jobs[j])
        && j < |Run(s, later).queue.jobs| && Run(s, later).queue.jobs[j] == s.queue.jobs[j]
  {
    AttemptAccounting(steps, j);
    RunKeepsInv(START, steps);
    if Finished(Run(START, steps).queue.jobs[j]) {
      FinishedForever(Run(START, steps), later, j);
    }
  }

  /** A job fails, rather than waits again, only with its attempts used up. */
  ghost predicate FailedAreSpent(q: Queue) {
    forall j | 0 <= j < |q.jobs| && q.jobs[j].status == Failed :: q.jobs[j].attempts >= q.jobs[j].maxAttempts
  }

  lemma StepKeepsFailedSpent(s: System, step: Step)
    requires SystemInv(s) && FailedAreSpent(s.queue)
    ensures FailedAreSpent(Apply(s, step).queue)
  {
    match step
    case CommitClaim(w) =>
      if w in s.open {
        ClaimRowsEffect(s.queue, s.open[w].ids, w, s.open[w].now);
        ClaimKeepsFailedSpent(s.queue, s.open[w].ids, w, s.open[w].now, Apply(s, step).queue, Issued(s, step));
      }
    case _ =>
  }

  lemma ClaimKeepsFailedSpent(q: Queue, ids: seq<nat>, w: nat, now: int, r: Queue, claims: seq<Claim>)
    requires ClaimedAs(q, ids, w, now, r, claims) && FailedAreSpent(q)
    ensures FailedAreSpent(r)
  {
    forall j | 0 <= j < |r.jobs| && r.jobs[j].status == Failed ensures r.jobs[j].attempts >= r.jobs[j].maxAttempts {
      assert j !in ids ==> r.jobs[j] == q.jobs[j];
    }
  }

  lemma {:induction false} RunKeepsFailedSpent(steps: seq<Step>)
    ensures FailedAreSpent(Run(START, steps).queue)
    decreases |steps|
  {
    if steps != [] {
      var before := steps[..|steps| - 1];
      RunKeepsFailedSpent(before);
      RunKeepsInv(START, before);
      StepKeepsFailedSpent(Run(START, before), steps[|steps| - 1]);
    }
  }

  /** The state after the first `n` steps. */
  function After(steps: seq<Step>, n: nat): System
    requires n <= |steps|
  {
    Run(START, steps[..n])
  }

  lemma AfterNext(steps: seq<Step>, n: nat)
    requires n < |steps|
    ensures After(steps, n + 1) == Apply(After(steps, n), steps[n]) && SystemInv(After(steps, n))
  {
    assert steps[..n + 1][..n] == steps[..n];
    RunKeepsInv(START, steps[..n]);
  }

  /** Step `k` recovers job `j` from a stale lock when its attempts are already used up. */
  predicate RecoveredSpent(steps: seq<Step>, k: nat, j: nat) {
    && k < |steps| && j < |After(steps, k).queue.jobs|
    && After(steps, k).queue.jobs[j].attempts >= After(steps, k).queue.jobs[j].maxAttempts
    && Recovers(After(steps, k), steps[k], j)
  }

  predicate ClaimedAt(steps: seq<Step>, m: nat, j: nat) {
    m < |steps| && Claims(After(steps, m), steps[m], j)
  }

  /** Attempts used up, and yet pending or beyond the limit. */
  predicate Overdrawn(s: System, j: nat) {
    && j < |s.queue.jobs|
    && (|| s.queue.jobs[j].attempts > s.queue.jobs[j].maxAttempts
        || (s.queue.jobs[j].status == Pending && s.queue.jobs[j].attempts == s.queue.jobs[j].maxAttempts))
  }

  predicate Exceeds(s: System, j: nat) {
    j < |s.queue.jobs| && s.queue.jobs[j].attempts > s.queue.jobs[j].maxAttempts
  }

  lemma OverdrawnStep(steps: seq<Step>, n: nat, j: nat)
    requires n < |steps|
    ensures Overdrawn(After(steps, n + 1), j) <==> Overdrawn(After(steps, n), j) || RecoveredSpent(steps, n, j)
  {
    AfterNext(steps, n);
    var s := After(steps, n);
    if j < |s.queue.jobs| {
      StepOnRow(s, steps[n], j);
    } else if j < |After(steps, n + 1).queue.jobs| {
      StepOnNewRow(s, steps[n], j);
    } else if |s.queue.jobs| > 0 {
      StepOnRow(s, steps[n], 0);
    }
  }

  lemma ExceedsStep(steps: seq<Step>, n: nat, j: nat)
    requires n < |steps|
    ensures Exceeds(After(steps, n + 1), j) <==>
      Exceeds(After(steps, n), j) || (Overdrawn(After(steps, n), j) && ClaimedAt(steps, n, j))
  {
    AfterNext(steps, n);
    var s := After(steps, n);
    if j < |s.queue.jobs| {
      StepOnRow(s, steps[n], j);
    } else if j < |After(steps, n + 1).queue.jobs| {
      StepOnNewRow(s, steps[n], j);
    } else if |s.queue.jobs| > 0 {
      StepOnRow(s, steps[n], 0);
    }
  }

  /** A job is overdrawn exactly when it has been recovered with its attempts used up. */
  lemma {:induction false} OverdrawnExactly(steps: seq<Step>, n: nat, j: nat)
    requires n <= |steps|
    ensures Overdrawn(After(steps, n), j) <==> exists k :: 0 <= k < n && RecoveredSpent(steps, k, j)
    decreases n
  {
    if n > 0 {
      OverdrawnExactly(steps, n - 1, j);
      OverdrawnStep(steps, n - 1, j);
    }
  }

  ghost predicate RecoveredThenClaimed(steps: seq<Step>, n: nat, j: nat) {
    exists k, m :: 0 <= k < m < n && RecoveredSpent(steps, k, j) && ClaimedAt(steps, m, j)
  }

  lemma RecoveredThenClaimedStep(steps: seq<Step>, n: nat, j: nat)
    requires n < |steps|
    ensures RecoveredThenClaimed(steps, n + 1, j) <==>
      RecoveredThenClaimed(steps, n, j) || (Overdrawn(After(steps, n), j) && ClaimedAt(steps, n, j))
  {
    OverdrawnExactly(steps, n, j);
  }

  lemma {:induction false} ExceedsUpTo(steps: seq<Step>, n: nat, j: nat)
    requires n <= |steps|
    ensures Exceeds(After(steps, n), j) <==> RecoveredThenClaimed(steps, n, j)
    decreases n
  {
    if n > 0 {
      ExceedsUpTo(steps, n - 1, j);
      ExceedsStep(steps, n - 1, j);
      RecoveredThenClaimedStep(steps, n - 1, j);
    }
  }

  /** In every run a job's attempts exceed `max_attempts` exactly when it was recovered from a stale lock with its
      attempts already used up, and later claimed again. */
  lemma {:induction false} AttemptsExceedExactly(steps: seq<Step>, j: nat)
    requires j < |Run(START, steps).queue.jobs|
    ensures Run(START, steps).queue.jobs[j].attempts > Run(START, steps).queue.jobs[j].maxAttempts <==>
      exists k, m :: 0 <= k < m < |steps| && RecoveredSpent(steps, k, j) && ClaimedAt(steps, m, j)
  {
    assert steps[..|steps|] == steps;
    ExceedsUpTo(steps, |steps|, j);
  }

  /** The bound with recoveries is attained: a one-attempt job, claimed at time 0 and recovered five minutes later, runs
      twice. */
  lemma RecoveryExceedsMaxAttempts()
    ensures var steps := [Insert(Request(OtherTask("t"), None, 0, 1), 0, 0), BeginClaim(0, 1, 0), CommitClaim(0),
                          RecoverStale(1, 301), BeginClaim(0, 1, 301), CommitClaim(0)];
      var s := Run(START, steps);
      |s.queue.jobs| == 1 && s.queue.jobs[0].attempts == 2 && s.queue.jobs[0].maxAttempts == 1
  {
    var s0 := Apply(START, Insert(Request(OtherTask("t"), None, 0, 1), 0, 0));
    OnlyRowIsClaimed(s0, 0);
    var s2 := Apply(Apply(s0, BeginClaim(0, 1, 0)), CommitClaim(0));
    var s3 := Apply(s2, RecoverStale(1, 301));
    OnlyRowIsClaimed(s3, 301);
    var all := [Insert(Request(OtherTask("t"), None, 0, 1), 0, 0), BeginClaim(0, 1, 0), CommitClaim(0),
                RecoverStale(1, 301), BeginClaim(0, 1, 301), CommitClaim(0)];
    RunSix(all);
  }

  lemma OnlyRowIsClaimed(s: System, at: int)
    requires |s.queue.jobs| == 1 && s.queue.jobs[0].status == Pending && s.queue.jobs[0].runAfter <= at
    requires s.open == map[]
    ensures Apply(Apply(s, BeginClaim(0, 1, at)), CommitClaim(0))
         == System(Queue([ClaimedRow(s.queue.jobs[0], 0, s.queue.nextToken, at)], s.queue.nextToken + 1), map[])
  {
    var q := s.queue;
    SelectIsFirstRunnable(q.jobs, 1, at, {});
    assert LockedRows(s.open) == {};
    assert Runnable(q.jobs, 0, at, {});
    var t := Apply(s, BeginClaim(0, 1, at));
    assert t.open[0].ids == [0];
    ClaimRowsEffect(q, [0], 0, at);
    assert [0][0] == 0;
    assert t.open - {0} == map[];
  }

  lemma RunSix(steps: seq<Step>)
    requires |steps| == 6
    ensures Run(START, steps) ==
      Apply(Apply(Apply(Apply(Apply(Apply(START, steps[0]), steps[1]), steps[2]), steps[3]), steps[4]), steps[5])
  {
    assert steps[..5][..4] == steps[..4] && steps[..4][..3] == steps[..3] && steps[..3][..2] == steps[..2];
    assert steps[..2][..1] == steps[..1] && steps[..1][..0] == [];
    assert Run(START, steps[..1]) == Apply(START, steps[0]);
    assert Run(START, steps[..2]) == Apply(Run(START, steps[..1]), steps[1]);
    assert Run(START, steps[..3]) == Apply(Run(START, steps[..2]), steps[2]);
    assert Run(START, steps[..4]) == Apply(Run(START, steps[..3]), steps[3]);
    assert Run(START, steps[..5]) == Apply(Run(START, steps[..4]), steps[4]);
  }

  // ---------------------------------------------------------------- claims handed out

  function IssuedAlong(s: System, steps: seq<Step>): seq<Claim> {
    if steps == [] then []
    else
      var before := steps[..|steps| - 1];
      IssuedAlong(s, before) + Issued(Run(s, before), steps[|steps| - 1])
  }

  ghost predicate FreshClaims(cs: seq<Claim>) {
    forall i, k | 0 <= i < k < |cs| ::
      cs[i].token != cs[k].token && (cs[i].job == cs[k].job ==> cs[i].attempt != cs[k].attempt)
  }

  ghost predicate ClaimsPast(cs: seq<Claim>, q: Queue) {
    forall i | 0 <= i < |cs| ::
      cs[i].job < |q.jobs| && cs[i].token < q.nextToken && 1 <= cs[i].attempt <= q.jobs[cs[i].job].attempts
  }

  /** The claims of one step carry new tokens, for rows whose counter they have just advanced. */
  lemma IssuedByStep(s: System, step: Step)
    requires SystemInv(s)
    ensures var cs := Issued(s, step);
      && FreshClaims(cs) && ClaimsPast(cs, Apply(s, step).queue)
      && forall i | 0 <= i < |cs| ::
           cs[i].job < |s.queue.jobs| && cs[i].token >= s.queue.nextToken
             && cs[i].attempt > s.queue.jobs[cs[i].job].attempts
  {
    if step.CommitClaim? && step.worker in s.open {
      var ids := s.open[step.worker].ids;
      assert AllPending(s.queue, ids) && Distinct(ids);
      ClaimRowsEffect(s.queue, ids, step.worker, s.open[step.worker].now);
    }
  }

  lemma PastClaimsStayPast(s: System, step: Step, cs: seq<Claim>)
    requires SystemInv(s) && ClaimsPast(cs, s.queue)
    ensures ClaimsPast(cs, Apply(s, step).queue)
  {
    forall i | 0 <= i < |cs|
      ensures cs[i].job < |Apply(s, step).queue.jobs| && cs[i].token < Apply(s, step).queue.nextToken
      ensures cs[i].attempt <= Apply(s, step).queue.jobs[cs[i].job].attempts
    {
      StepOnRow(s, step, cs[i].job);
    }
  }

  /** New claims are fresh beside those the queue has already counted. */
  lemma FreshTogether(past: seq<Claim>, more: seq<Claim>, q: Queue, r: Queue)
    requires FreshClaims(past) && FreshClaims(more) && ClaimsPast(past, q) && ClaimsPast(past, r) && ClaimsPast(more, r)
    requires forall i | 0 <= i < |more| ::
      more[i].job < |q.jobs| && more[i].token >= q.nextToken && more[i].attempt > q.jobs[more[i].job].attempts
    ensures FreshClaims(past + more) && ClaimsPast(past + more, r)
  {
  }

  /** No two claims of a run share a token, and no two claims of one job share an attempt number,
      so the unique constraint on (job_id, attempt_number) is never violated. */
  lemma {:induction false} IssuedClaimsAreFresh(steps: seq<Step>)
    ensures FreshClaims(IssuedAlong(START, steps))
    ensures ClaimsPast(IssuedAlong(START, steps), Run(START, steps).queue)
    decreases |steps|
  {
    if steps != [] {
      var before, step := steps[..|steps| - 1], steps[|steps| - 1];
      var s := Run(START, before);
      IssuedClaimsAreFresh(before);
      RunKeepsInv(START, before);
      IssuedByStep(s, step);
      PastClaimsStayPast(s, step, IssuedAlong(START, before));
      FreshTogether(IssuedAlong(START, before), Issued(s, step), s.queue, Apply(s, step).queue);
    }
  }

  // ---------------------------------------------------------------- a token is consumed at most once

  ghost predicate Held(q: Queue, token: nat) {
    exists j: nat | j < |q.jobs| :: q.jobs[j].lockToken == Some(token)
  }

  lemma ReleasedTokenStaysReleased(s: System, step: Step, token: nat)
    requires SystemInv(s) && token < s.queue.nextToken && !Held(s.queue, token)
    ensures !Held(Apply(s, step).queue, token) && token < Apply(s, step).queue.nextToken
  {
    var r := Apply(s, step);
    forall j: nat | j < |r.queue.jobs| ensures r.queue.jobs[j].lockToken != Some(token) {
      if j < |s.queue.jobs| {
        StepOnRow(s, step, j);
      } else {
        StepOnNewRow(s, step, j);
      }
    }
    if |s.queue.jobs| > 0 {
      StepOnRow(s, step, 0);
    } else if step.CommitClaim? && step.worker in s.open {
      ClaimRowsEffect(s.queue, s.open[step.worker].ids, step.worker, s.open[step.worker].now);
    }
  }

  /** Once completion, failure or recovery has consumed a token it is gone for the rest of the run,
      and whatever its old holder does with it changes nothing. */
  lemma {:induction false} LateSettlementsChangeNothing(s: System, steps: seq<Step>, token: nat, j: nat,
                                                        retryable: bool, delay: int, at: int)
    requires SystemInv(s) && token < s.queue.nextToken && !Held(s.queue, token)
    ensures token < Run(s, steps).queue.nextToken && !Held(Run(s, steps).queue, token)
    ensures Apply(Run(s, steps), Finish(j, token)) == Run(s, steps)
    ensures Apply(Run(s, steps), GiveUp(j, token, retryable, delay, at)) == Run(s, steps)
    decreases |steps|
  {
    if steps != [] {
      var before := steps[..|steps| - 1];
      LateSettlementsChangeNothing(s, before, token, j, retryable, delay, at);
      RunKeepsInv(s, before);
      ReleasedTokenStaysReleased(Run(s, before), steps[|steps| - 1], token);
    }
  }

  ghost function ConsumptionCount(s: System, steps: seq<Step>, token: nat): nat {
    if steps == [] then 0
    else
      var before := Run(s, steps[..|steps| - 1]);
      ConsumptionCount(s, steps[..|steps| - 1], token)
      + Times(Held(before.queue, token) && !Held(Apply(before, steps[|steps| - 1]).queue, token))
  }

  lemma {:induction false} TokenConsumedAtMostOnce(steps: seq<Step>, token: nat)
    ensures ConsumptionCount(START, steps, token) <= 1
    ensures ConsumptionCount(START, steps, token) == 1 ==>
      token < Run(START, steps).queue.nextToken && !Held(Run(START, steps).queue, token)
    decreases |steps|
  {
    if steps != [] {
      var before, step := steps[..|steps| - 1], steps[|steps| - 1];
      var s := Run(START, before);
      TokenConsumedAtMostOnce(before, token);
      RunKeepsInv(START, before);
      if ConsumptionCount(START, before, token) == 1 {
        ReleasedTokenStaysReleased(s, step, token);
      } else if Held(s.queue, token) {
        StepOnRow(s, step, 0);
      }
    }
  }

  // ---------------------------------------------------------------- how long a claim lasts

  /** The step takes job `j` from the holder of `token`, who has held it since `since`: a settlement with that token, or
      a recovery of what was locked before a later time. */
  predicate EndsClaim(step: Step, j: nat, token: nat, since: int) {
    match step
    case Finish(i, u) => i == j && u == token
    case GiveUp(i, u, _, _, _) => i == j && u == token
    case RecoverStale(cutoff, _) => since < cutoff
    case _ => false
  }

  ghost predicate LockedSince(q: Queue, j: nat, token: nat, since: int) {
    && j < |q.jobs| && q.jobs[j].status == Running
    && q.jobs[j].lockToken == Some(token) && q.jobs[j].lockedAt == Some(since)
  }

  lemma LockAfterStep(s: System, step: Step, j: nat, token: nat, since: int)
    requires SystemInv(s) && LockedSince(s.queue, j, token, since)
    ensures var q := Apply(s, step).queue;
      && j < |q.jobs|
      && (EndsClaim(step, j, token, since) ==> q.jobs[j].lockToken.None?)
      && (!EndsClaim(step, j, token, since) ==> q.jobs[j] == s.queue.jobs[j])
  {
    match step
    case CommitClaim(w) =>
      if w in s.open {
        ClaimRowsEffect(s.queue, s.open[w].ids, w, s.open[w].now);
      }
    case Finish(i, u) => CompletionExactly(s.queue, i, u);
    case GiveUp(i, u, retryable, delay, at) => FailureExactly(s.queue, i, u, retryable, delay, at);
    case RecoverStale(cutoff, at) => RecoveryExactly(s.queue, cutoff, at);
    case _ =>
  }

  lemma FreedStaysFreed(s: System, step: Step, j: nat, token: nat)
    requires SystemInv(s) && token < s.queue.nextToken && j < |s.queue.jobs| && s.queue.jobs[j].lockToken != Some(token)
    ensures var q := Apply(s, step).queue; token < q.nextToken && j < |q.jobs| && q.jobs[j].lockToken != Some(token)
  {
    StepOnRow(s, step, j);
  }

  /** Whatever else happens, a claimed job keeps its row and lock exactly until a step settles it with its token or
      recovers what was locked before some time after the claim. */
  lemma {:induction false} LockHeldExactly(s: System, steps: seq<Step>, j: nat, token: nat, since: int)
    requires SystemInv(s) && LockedSince(s.queue, j, token, since)
    ensures var q := Run(s, steps).queue;
      && j < |q.jobs| && token < q.nextToken
      && (q.jobs[j].lockToken == Some(token) <==> forall k | 0 <= k < |steps| :: !EndsClaim(steps[k], j, token, since))
      && (q.jobs[j].lockToken == Some(token) ==> q.jobs[j] == s.queue.jobs[j])
    decreases |steps|
  {
    if steps != [] {
      var n := |steps| - 1;
      var before := Run(s, steps[..n]);
      LockHeldExactly(s, steps[..n], j, token, since);
      RunKeepsInv(s, steps[..n]);
      FrontAndLast(steps, j, token, since);
      if before.queue.jobs[j].lockToken == Some(token) {
        LockAfterStep(before, steps[n], j, token, since);
        StepOnRow(before, steps[n], j);
      } else {
        FreedStaysFreed(before, steps[n], j, token);
      }
    }
  }

  lemma FrontAndLast(steps: seq<Step>, j: nat, token: nat, since: int)
    requires steps != []
    ensures var n := |steps| - 1;
      (forall k | 0 <= k < |steps| :: !EndsClaim(steps[k], j, token, since)) <==>
        (forall k | 0 <= k < n :: !EndsClaim(steps[..n][k], j, token, since)) && !EndsClaim(steps[n], j, token, since)
  {
    var n := |steps| - 1;
    assert forall k | 0 <= k < n :: steps[..n][k] == steps[k];
  }

  ghost predicate LockedElsewhere(s: System, j: nat) {
    exists v | v in s.open :: j in s.open[v].ids
  }

  ghost predicate MayClaim(s: System, j: nat, at: int) {
    j < |s.queue.jobs| && s.queue.jobs[j].status == Pending && s.queue.jobs[j].runAfter <= at && !LockedElsewhere(s, j)
  }

  /** Beginning a claim changes no row: it locks, as of its own time, the first `limit` rows that are pending, due and
      locked by no other session. */
  lemma BeginningLocksDue(s: System, w: nat, limit: nat, at: int)
    requires w !in s.open
    ensures var t := Apply(s, BeginClaim(w, limit, at));
      && w in t.open && t == s.(open := s.open[w := t.open[w]]) && t.open[w].now == at
      && var ids := t.open[w].ids;
         && |ids| <= limit
         && (forall i | 0 <= i < |ids| :: MayClaim(s, ids[i], at))
         && (forall i, k | 0 <= i < k < |ids| ::
               ids[i] != ids[k] && Outranks(s.queue.jobs[ids[i]], s.queue.jobs[ids[k]]))
         && (forall j: nat | MayClaim(s, j, at) && j !in ids ::
               |ids| == limit && forall i | 0 <= i < |ids| :: Outranks(s.queue.jobs[ids[i]], s.queue.jobs[j]))
  {
    SelectionIsDueFirst(s.queue.jobs, limit, at, LockedRows(s.open));
    LockedRowsAreElsewhere(s);
    var ids := Apply(s, BeginClaim(w, limit, at)).open[w].ids;
    forall j: nat ensures MayClaim(s, j, at) <==> Claimable(s.queue.jobs, j, at, LockedRows(s.open)) {
    }
    assert forall i | 0 <= i < |ids| :: Claimable(s.queue.jobs, ids[i], at, LockedRows(s.open));
  }

  /** Inserting adds the requested row, pending and due as asked, unless a live row has the key; a job without
      attempts is refused by the table. */
  lemma InsertionAdds(s: System, r: Request, runAfter: int, at: int)
    ensures var t := Apply(s, Insert(r, runAfter, at));
      && t.open == s.open && t.queue.nextToken == s.queue.nextToken
      && t.queue.jobs ==
        if r.maxAttempts == 0
           || (r.dedupe.Some? && exists i | 0 <= i < |s.queue.jobs| ::
                 s.queue.jobs[i].dedupe == r.dedupe && s.queue.jobs[i].status in {Pending, Running})
        then s.queue.jobs
        else s.queue.jobs
             + [Job(r.task, Pending, r.priority, r.dedupe, 0, r.maxAttempts, runAfter, at, None, None, None)]
  {
    EnqueueExactly(s.queue, r, runAfter, at);
  }

  /** A claim given up before its commit leaves nothing behind: no row has changed and no lock is left. */
  lemma AbortUndoesClaim(s: System, w: nat, limit: nat, at: int)
    requires w !in s.open
    ensures Apply(Apply(s, BeginClaim(w, limit, at)), AbortClaim(w)) == s
  {
    assert s.open[w := OpenClaim(Select(s.queue.jobs, limit, at, LockedRows(s.open)), at)] - {w} == s.open;
  }

  lemma LockedRowsAreElsewhere(s: System)
    ensures forall j: nat :: j in LockedRows(s.open) <==> LockedElsewhere(s, j)
  {
    forall j: nat ensures j in LockedRows(s.open) <==> LockedElsewhere(s, j) {
      if LockedElsewhere(s, j) {
        var v :| v in s.open && j in s.open[v].ids;
        var i :| 0 <= i < |s.open[v].ids| && s.open[v].ids[i] == j;
      }
    }
  }

  /** From its claim on: a job claimed by a transaction begun at `t` has its token as long as nobody settles it with
      that token and every recovery's cutoff is `t` or earlier. */
  lemma ClaimLastsExactly(s: System, w: nat, i: nat, steps: seq<Step>)
    requires SystemInv(s) && w in s.open && i < |s.open[w].ids|
    ensures var j, token, t := s.open[w].ids[i], s.queue.nextToken + i, s.open[w].now;
      var q := Run(Apply(s, CommitClaim(w)), steps).queue;
      j < |q.jobs|
      && (q.jobs[j].lockToken == Some(token) <==> forall k | 0 <= k < |steps| :: !EndsClaim(steps[k], j, token, t))
  {
    StepKeepsInv(s, CommitClaim(w));
    ClaimRowsEffect(s.queue, s.open[w].ids, w, s.open[w].now);
    LockHeldExactly(Apply(s, CommitClaim(w)), steps, s.open[w].ids[i], s.queue.nextToken + i, s.open[w].now);
  }
}
