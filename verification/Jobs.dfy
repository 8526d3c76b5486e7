/** The job table and its statements (services/jobs.py), as functions from table to table. */
module Jobs {
  import opened Common

  datatype Status = Pending | Running | Succeeded | Failed | Dead

  /** What a job is for: its kind and the part of its payload that handlers read. */
  datatype Task =
    | ArchiveRawEvent(event: nat)
    | BuildSnapshot(conversation: nat)
    | ReconcilePartial(message: nat)
    | FinalizeAttachment(attachment: nat)
    | OtherTask(name: string)

  datatype DedupeKey =
    | ArchiveKey(event: nat)
    | SnapshotKey(conversation: nat)
    | ReconcileKey(message: nat)
    | FinalizeKey(attachment: nat)
    | NamedKey(name: string)

  datatype Job = Job(
    task: Task,
    status: Status,
    priority: nat,
    dedupe: Option<DedupeKey>,
    attempts: nat,
    maxAttempts: nat,
    runAfter: int,
    createdAt: int,
    lockedAt: Option<int>,
    lockedBy: Option<nat>,
    lockToken: Option<nat>)

  /** A row's id is its position. Lock tokens are drawn from a counter, so a token is never drawn twice. */
  datatype Queue = Queue(jobs: seq<Job>, nextToken: nat)

  /** A claimed job as the worker holds it: `attempt` is the row's counter at claim time. */
  datatype Claim = Claim(job: nat, token: nat, attempt: nat)

  predicate Live(j: Job) {
    j.status == Pending || j.status == Running
  }

  predicate Finished(j: Job) {
    j.status == Succeeded || j.status == Failed || j.status == Dead
  }

  /** Still to be tried, or failed for good with its attempts used up. */
  predicate WaitingOrSpent(j: Job) {
    Live(j) || (j.status == Failed && j.attempts >= j.maxAttempts)
  }

  // ---------------------------------------------------------------- enqueue

  datatype Request = Request(task: Task, dedupe: Option<DedupeKey>, priority: nat, maxAttempts: nat)

  predicate Conflicts(jobs: seq<Job>, dedupe: Option<DedupeKey>) {
    dedupe.Some? && exists i | 0 <= i < |jobs| :: Live(jobs[i]) && jobs[i].dedupe == dedupe
  }

  /** Insert a pending row, or do nothing when the partial unique index has a live row. */
  function Enqueue(q: Queue, r: Request, runAfter: int, now: int): (Queue, Option<nat>) {
    if Conflicts(q.jobs, r.dedupe) then (q, None)
    else
      var row := Job(r.task, Pending, r.priority, r.dedupe, 0, r.maxAttempts, runAfter, now, None, None, None);
      (q.(jobs := q.jobs + [row]), Some(|q.jobs|))
  }

  // ---------------------------------------------------------------- claim

  predicate Runnable(jobs: seq<Job>, j: nat, now: int, locked: set<nat>) {
    j < |jobs| && jobs[j].status == Pending && jobs[j].runAfter <= now && j !in locked
  }

  /** Claim order: priority, then due time, then creation time; ties in table order. */
  predicate Before(jobs: seq<Job>, i: nat, k: nat)
    requires i < |jobs| && k < |jobs|
  {
    var a, b := jobs[i], jobs[k];
    if a.priority != b.priority then a.priority < b.priority
    else if a.runAfter != b.runAfter then a.runAfter < b.runAfter
    else if a.createdAt != b.createdAt then a.createdAt < b.createdAt
    else i < k
  }

  /** The runnable row among the first `n` that comes first in claim order. */
  function Earliest(jobs: seq<Job>, now: int, locked: set<nat>, n: nat): (r: Option<nat>)
    requires n <= |jobs|
    ensures r.Some? ==> r.value < n && Runnable(jobs, r.value, now, locked)
    ensures r.Some? ==>
      forall k: nat | k < n && k != r.value && Runnable(jobs, k, now, locked) :: Before(jobs, r.value, k)
    ensures r.None? ==> forall k: nat | k < n :: !Runnable(jobs, k, now, locked)
  {
    if n == 0 then None
    else
      var best := Earliest(jobs, now, locked, n - 1);
      if !Runnable(jobs, n - 1, now, locked) then best
      else if best.None? || Before(jobs, n - 1, best.value) then Some(n - 1)
      else best
  }

  /** SELECT id .. ORDER BY .. LIMIT .. FOR UPDATE SKIP LOCKED: `locked` are other sessions' rows. */
  function Select(jobs: seq<Job>, limit: nat, now: int, locked: set<nat>): seq<nat> {
    if limit == 0 then []
    else
      match Earliest(jobs, now, locked, |jobs|)
      case None => []
      case Some(j) => [j] + Select(jobs, limit - 1, now, locked + {j})
  }

  /** The selection is exactly the first `limit` runnable, unlocked rows in claim order. */
  lemma {:induction false} SelectIsFirstRunnable(jobs: seq<Job>, limit: nat, now: int, locked: set<nat>)
    ensures var ids := Select(jobs, limit, now, locked);
      && |ids| <= limit
      && (forall i | 0 <= i < |ids| :: Runnable(jobs, ids[i], now, locked))
      && (forall i, k | 0 <= i < k < |ids| :: Before(jobs, ids[i], ids[k]))
      && (forall j: nat | Runnable(jobs, j, now, locked) && j !in ids ::
           |ids| == limit && forall i | 0 <= i < |ids| :: Before(jobs, ids[i], j))
  {
    if limit > 0 {
      match Earliest(jobs, now, locked, |jobs|)
      case None =>
      case Some(j) =>
        var rest := Select(jobs, limit - 1, now, locked + {j});
        SelectIsFirstRunnable(jobs, limit - 1, now, locked + {j});
        assert forall i | 0 <= i < |rest| :: Runnable(jobs, rest[i], now, locked) && rest[i] != j;
        var ids := [j] + rest;
        assert Select(jobs, limit, now, locked) == ids;
        forall k: nat | Runnable(jobs, k, now, locked) && k !in ids
          ensures |ids| == limit && forall i | 0 <= i < |ids| :: Before(jobs, ids[i], k)
        {
          assert k != ids[0] && k !in rest;
          assert Runnable(jobs, k, now, locked + {j});
        }
    }
  }

  /** The row may be claimed at `now`: pending, due, and not row-locked by another session. */
  ghost predicate Claimable(jobs: seq<Job>, j: nat, now: int, locked: set<nat>) {
    j < |jobs| && jobs[j].status == Pending && jobs[j].runAfter <= now && j !in locked
  }

  /** By priority, then due time, then creation time. */
  ghost predicate Outranks(a: Job, b: Job) {
    || a.priority < b.priority
    || (a.priority == b.priority && a.runAfter < b.runAfter)
    || (a.priority == b.priority && a.runAfter == b.runAfter && a.createdAt <= b.createdAt)
  }

  /** In the columns: what is selected is claimable and in order, and a claimable row is left out only because the limit
      was reached by rows that do not come after it. */
  lemma SelectionIsDueFirst(jobs: seq<Job>, limit: nat, now: int, locked: set<nat>)
    ensures var ids := Select(jobs, limit, now, locked);
      && |ids| <= limit
      && (forall i | 0 <= i < |ids| :: Claimable(jobs, ids[i], now, locked))
      && (forall i, k | 0 <= i < k < |ids| :: ids[i] != ids[k] && Outranks(jobs[ids[i]], jobs[ids[k]]))
      && (forall j: nat | Claimable(jobs, j, now, locked) && j !in ids ::
           |ids| == limit && forall i | 0 <= i < |ids| :: Outranks(jobs[ids[i]], jobs[j]))
  {
    SelectIsFirstRunnable(jobs, limit, now, locked);
    SelectSound(jobs, limit, now, locked);
    var ids := Select(jobs, limit, now, locked);
    assert forall i | 0 <= i < |ids| :: Runnable(jobs, ids[i], now, locked);
    forall j: nat | Claimable(jobs, j, now, locked) && j !in ids
      ensures |ids| == limit && forall i | 0 <= i < |ids| :: Outranks(jobs[ids[i]], jobs[j])
    {
      assert Runnable(jobs, j, now, locked);
    }
  }

  ghost predicate Distinct(ids: seq<nat>) {
    forall i, k | 0 <= i < k < |ids| :: ids[i] != ids[k]
  }

  ghost predicate AllRunnable(jobs: seq<Job>, ids: seq<nat>, now: int, locked: set<nat>) {
    forall i | 0 <= i < |ids| :: Runnable(jobs, ids[i], now, locked)
  }

  lemma SelectSound(jobs: seq<Job>, limit: nat, now: int, locked: set<nat>)
    ensures var ids := Select(jobs, limit, now, locked);
      |ids| <= limit && AllRunnable(jobs, ids, now, locked) && Distinct(ids)
  {
    SelectIsFirstRunnable(jobs, limit, now, locked);
    var ids := Select(jobs, limit, now, locked);
    forall i, k | 0 <= i < k < |ids| ensures ids[i] != ids[k] {
      assert Before(jobs, ids[i], ids[k]);
    }
  }

  function ClaimedRow(row: Job, worker: nat, token: nat, now: int): Job {
    row.(status := Running, lockedAt := Some(now), lockedBy := Some(worker),
         lockToken := Some(token), attempts := row.attempts + 1)
  }

  /** UPDATE .. SET status='running', fresh token .. WHERE id AND status='pending'. */
  function ClaimRow(q: Queue, j: nat, worker: nat, now: int): Queue
    requires j < |q.jobs|
  {
    Queue(q.jobs[j := ClaimedRow(q.jobs[j], worker, q.nextToken, now)], q.nextToken + 1)
  }

  predicate RowsExist(q: Queue, ids: seq<nat>) {
    forall i | 0 <= i < |ids| :: ids[i] < |q.jobs|
  }

  /** The claim loop over the selected ids; a row that is no longer pending is skipped. */
  function ClaimRows(q: Queue, ids: seq<nat>, worker: nat, now: int): (r: (Queue, seq<Claim>))
    requires RowsExist(q, ids)
    ensures |r.0.jobs| == |q.jobs|
    decreases |ids|
  {
    if ids == [] then (q, [])
    else
      var last := |ids| - 1;
      var (q1, claims) := ClaimRows(q, ids[..last], worker, now);
      var j := ids[last];
      if q1.jobs[j].status != Pending then (q1, claims)
      else (ClaimRow(q1, j, worker, now), claims + [Claim(j, q1.nextToken, q1.jobs[j].attempts + 1)])
  }

  // ---------------------------------------------------------------- settle and recover

  predicate Holds(q: Queue, j: nat, token: nat) {
    j < |q.jobs| && q.jobs[j].lockToken == Some(token)
  }

  function Released(j: Job, status: Status): Job {
    j.(status := status, lockedAt := None, lockedBy := None, lockToken := None)
  }

  function Complete(q: Queue, j: nat, token: nat): Queue {
    if Holds(q, j, token) then q.(jobs := q.jobs[j := Released(q.jobs[j], Succeeded)]) else q
  }

  function FailedRow(j: Job, retryable: bool, delay: int, now: int): Job {
    if retryable && j.attempts < j.maxAttempts then Released(j, Pending).(runAfter := now + delay)
    else Released(j, if retryable then Failed else Dead)
  }

  function Fail(q: Queue, j: nat, token: nat, retryable: bool, delay: int, now: int): Queue {
    if Holds(q, j, token) then q.(jobs := q.jobs[j := FailedRow(q.jobs[j], retryable, delay, now)]) else q
  }

  predicate Stale(j: Job, cutoff: int) {
    j.status == Running && (j.lockedAt.None? || j.lockedAt.value < cutoff)
  }

  function RecoveredRow(j: Job, cutoff: int, now: int): Job {
    if Stale(j, cutoff) then Released(j, Pending).(runAfter := now) else j
  }

  function Recover(q: Queue, cutoff: int, now: int): (r: Queue)
    ensures |r.jobs| == |q.jobs|
  {
    q.(jobs := seq(|q.jobs|, i requires 0 <= i < |q.jobs| => RecoveredRow(q.jobs[i], cutoff, now)))
  }

  /** `b` is `a` without its lock, in `status`, due at `due`, and nothing else changed. */
  ghost predicate FreedAs(a: Job, status: Status, due: int, b: Job) {
    b == Job(a.task, status, a.priority, a.dedupe, a.attempts, a.maxAttempts, due, a.createdAt, None, None, None)
  }

  /** `r` is `q` but for row `j`. */
  ghost predicate OnlyRowMoves(q: Queue, j: nat, r: Queue) {
    && r.nextToken == q.nextToken && |r.jobs| == |q.jobs|
    && forall i | 0 <= i < |q.jobs| && i != j :: r.jobs[i] == q.jobs[i]
  }

  /** A completion takes effect exactly for the token the row holds, and then frees the row as succeeded. */
  lemma CompletionExactly(q: Queue, j: nat, token: nat)
    ensures var r := Complete(q, j, token);
      if j < |q.jobs| && q.jobs[j].lockToken == Some(token)
      then OnlyRowMoves(q, j, r) && FreedAs(q.jobs[j], Succeeded, q.jobs[j].runAfter, r.jobs[j])
      else r == q
  {
  }

  /** A failure takes effect exactly for the token the row holds: the row waits out the delay while it has attempts
      left, else it has failed; one that cannot be retried is dead. */
  lemma FailureExactly(q: Queue, j: nat, token: nat, retryable: bool, delay: int, now: int)
    ensures var r := Fail(q, j, token, retryable, delay, now);
      if j < |q.jobs| && q.jobs[j].lockToken == Some(token)
      then
        var a := q.jobs[j];
        && OnlyRowMoves(q, j, r)
        && (!retryable ==> FreedAs(a, Dead, a.runAfter, r.jobs[j]))
        && (retryable && a.attempts < a.maxAttempts ==> FreedAs(a, Pending, now + delay, r.jobs[j]))
        && (retryable && a.attempts >= a.maxAttempts ==> FreedAs(a, Failed, a.runAfter, r.jobs[j]))
      else r == q
  {
  }

  /** Recovery takes exactly the running rows without a lock time or locked before the cutoff: they are pending again,
      due at once. A row locked at the cutoff or later, and every row not running, is unchanged. */
  lemma RecoveryExactly(q: Queue, cutoff: int, now: int)
    ensures var r := Recover(q, cutoff, now);
      && r.nextToken == q.nextToken && |r.jobs| == |q.jobs|
      && forall j | 0 <= j < |q.jobs| ::
        && (q.jobs[j].status != Running ==> r.jobs[j] == q.jobs[j])
        && (q.jobs[j].lockedAt.Some? && q.jobs[j].lockedAt.value >= cutoff ==> r.jobs[j] == q.jobs[j])
        && (q.jobs[j].status == Running && (q.jobs[j].lockedAt.Some? ==> q.jobs[j].lockedAt.value < cutoff) ==>
              FreedAs(q.jobs[j], Pending, now, r.jobs[j]))
  {
  }

  /** Enqueueing adds a row exactly unless a pending or running row has the dedupe key; the row is pending, unlocked and
      not yet attempted. */
  lemma EnqueueExactly(q: Queue, r: Request, runAfter: int, now: int)
    ensures var (t, id) := Enqueue(q, r, runAfter, now);
      && (id.None? <==> r.dedupe.Some? && exists i | 0 <= i < |q.jobs| ::
            q.jobs[i].dedupe == r.dedupe && (q.jobs[i].status == Pending || q.jobs[i].status == Running))
      && (id.None? ==> t == q)
      && (id.Some? ==>
            id.value == |q.jobs| && t.nextToken == q.nextToken && t.jobs == q.jobs + [
              Job(r.task, Pending, r.priority, r.dedupe, 0, r.maxAttempts, runAfter, now, None, None, None)])
  {
    assert forall i | 0 <= i < |q.jobs| ::
      Live(q.jobs[i]) <==> q.jobs[i].status == Pending || q.jobs[i].status == Running;
  }

  // ---------------------------------------------------------------- backoff

  const BASE_BACKOFF_SECONDS := 5
  const MAX_BACKOFF_SECONDS := 3600

  function Pow2(n: nat): nat {
    if n == 0 then 1 else 2 * Pow2(n - 1)
  }

  function Min(a: nat, b: nat): nat {
    if a < b then a else b
  }

  function BackoffCeiling(attempts: nat): nat {
    Min(BASE_BACKOFF_SECONDS * Pow2(Min(attempts, 12)), MAX_BACKOFF_SECONDS)
  }

  lemma {:induction false} Pow2Monotone(a: nat, b: nat)
    requires a <= b
    ensures Pow2(a) <= Pow2(b)
    decreases b
  {
    if a < b {
      Pow2Monotone(a, b - 1);
    }
  }

  /** The ceiling starts at the base, doubles with every attempt until it is one hour, which is from attempt 10 on, and
      never shrinks. */
  lemma BackoffCeilingShape(a: nat, b: nat)
    requires a <= b
    ensures BackoffCeiling(0) == BASE_BACKOFF_SECONDS == 5
    ensures BackoffCeiling(a + 1) == (if 2 * BackoffCeiling(a) < 3600 then 2 * BackoffCeiling(a) else 3600)
    ensures 5 <= BackoffCeiling(a) <= BackoffCeiling(b) <= MAX_BACKOFF_SECONDS == 3600
    ensures BackoffCeiling(a) == 3600 <==> a >= 10
  {
    Pow2Monotone(0, Min(a, 12));
    Pow2Monotone(Min(a, 12), Min(b, 12));
    assert Pow2(9) == 512 by { assert Pow2(5) == 32; }
    assert Pow2(10) == 1024;
    if a >= 10 {
      Pow2Monotone(10, Min(a, 12));
    } else {
      Pow2Monotone(a, 9);
    }
  }

  // ---------------------------------------------------------------- the table invariant

  ghost predicate LocksMatchStatus(q: Queue) {
    forall i | 0 <= i < |q.jobs| ::
      && (q.jobs[i].status == Running <==> q.jobs[i].lockToken.Some?)
      && (q.jobs[i].lockToken.Some? ==> q.jobs[i].lockToken.value < q.nextToken)
      && (q.jobs[i].lockToken.Some? <==> q.jobs[i].lockedAt.Some?)
      && q.jobs[i].maxAttempts >= 1
  }

  ghost predicate TokensDistinct(q: Queue) {
    forall i, k | 0 <= i < k < |q.jobs| && q.jobs[i].lockToken.Some? ::
      q.jobs[i].lockToken != q.jobs[k].lockToken
  }

  ghost predicate DedupeUnique(q: Queue) {
    forall i, k | 0 <= i < k < |q.jobs| && Live(q.jobs[i]) && Live(q.jobs[k]) && q.jobs[i].dedupe.Some? ::
      q.jobs[i].dedupe != q.jobs[k].dedupe
  }

  ghost predicate Inv(q: Queue) {
    LocksMatchStatus(q) && TokensDistinct(q) && DedupeUnique(q)
  }

  lemma EnqueueKeepsInv(q: Queue, r: Request, runAfter: int, now: int)
    requires Inv(q) && r.maxAttempts >= 1
    ensures Inv(Enqueue(q, r, runAfter, now).0)
  {
  }

  lemma ClaimRowKeepsInv(q: Queue, j: nat, worker: nat, now: int)
    requires Inv(q) && j < |q.jobs| && q.jobs[j].status == Pending
    ensures Inv(ClaimRow(q, j, worker, now))
  {
  }

  lemma CompleteKeepsInv(q: Queue, j: nat, token: nat)
    requires Inv(q)
    ensures Inv(Complete(q, j, token))
  {
  }

  lemma FailKeepsInv(q: Queue, j: nat, token: nat, retryable: bool, delay: int, now: int)
    requires Inv(q)
    ensures Inv(Fail(q, j, token, retryable, delay, now))
  {
  }

  lemma RecoverKeepsInv(q: Queue, cutoff: int, now: int)
    requires Inv(q)
    ensures Inv(Recover(q, cutoff, now))
  {
  }

  /** `r` is `q` with exactly the rows `ids` claimed, the i-th under token `nextToken + i`. */
  ghost predicate ClaimedAs(q: Queue, ids: seq<nat>, worker: nat, now: int, r: Queue, claims: seq<Claim>) {
    && |r.jobs| == |q.jobs| && r.nextToken == q.nextToken + |ids| && |claims| == |ids|
    && (forall i | 0 <= i < |ids| :: ids[i] < |q.jobs|
         && claims[i] == Claim(ids[i], q.nextToken + i, q.jobs[ids[i]].attempts + 1)
         && ClaimedTo(q.jobs[ids[i]], worker, q.nextToken + i, now, r.jobs[ids[i]]))
    && (forall j: nat | j < |q.jobs| && j !in ids :: r.jobs[j] == q.jobs[j])
  }

  /** `b` is `a` running for `worker` since `now` under `token`, with one attempt more and nothing else changed. */
  ghost predicate ClaimedTo(a: Job, worker: nat, token: nat, now: int, b: Job) {
    b == Job(a.task, Running, a.priority, a.dedupe, a.attempts + 1, a.maxAttempts, a.runAfter, a.createdAt, Some(now),
             Some(worker), Some(token))
  }

  ghost predicate AllPending(q: Queue, ids: seq<nat>) {
    forall i | 0 <= i < |ids| :: ids[i] < |q.jobs| && q.jobs[ids[i]].status == Pending
  }

  lemma ClaimOneMore(q: Queue, front: seq<nat>, j: nat, worker: nat, now: int, q1: Queue, claims: seq<Claim>)
    requires ClaimedAs(q, front, worker, now, q1, claims)
    requires j < |q.jobs| && j !in front
    ensures ClaimedAs(q, front + [j], worker, now, ClaimRow(q1, j, worker, now),
                      claims + [Claim(j, q1.nextToken, q1.jobs[j].attempts + 1)])
  {
    var ids, r := front + [j], ClaimRow(q1, j, worker, now);
    assert q1.jobs[j] == q.jobs[j];
    forall i | 0 <= i < |ids|
      ensures ids[i] < |q.jobs|
      ensures ClaimedTo(q.jobs[ids[i]], worker, q.nextToken + i, now, r.jobs[ids[i]])
    {
      if i < |front| {
        assert ids[i] == front[i] && front[i] != j;
      }
    }
    forall k: nat | k < |q.jobs| && k !in ids
      ensures r.jobs[k] == q.jobs[k]
    {
      assert ids[|front|] == j;
      assert k !in front && k != j;
    }
  }

  /** One claiming transaction: every selected row is claimed, each with its own fresh token, its
      attempt counter goes up by one, and no other row changes. */
  lemma {:induction false} ClaimRowsEffect(q: Queue, ids: seq<nat>, worker: nat, now: int)
    requires AllPending(q, ids) && Distinct(ids)
    ensures ClaimedAs(q, ids, worker, now, ClaimRows(q, ids, worker, now).0, ClaimRows(q, ids, worker, now).1)
    decreases |ids|
  {
    if ids != [] {
      var front, j := ids[..|ids| - 1], ids[|ids| - 1];
      LastIsApart(q, ids);
      ClaimRowsEffect(q, front, worker, now);
      var (q1, claims) := ClaimRows(q, front, worker, now);
      UntouchedRow(q, front, j, worker, now, q1, claims);
      LastRowClaimed(q, ids, worker, now, q1, claims);
      ClaimOneMore(q, front, j, worker, now, q1, claims);
    }
  }

  lemma LastRowClaimed(q: Queue, ids: seq<nat>, worker: nat, now: int, q1: Queue, claims: seq<Claim>)
    requires ids != [] && RowsExist(q, ids) && (q1, claims) == ClaimRows(q, ids[..|ids| - 1], worker, now)
    requires q1.jobs[ids[|ids| - 1]].status == Pending
    ensures var j := ids[|ids| - 1];
      ClaimRows(q, ids, worker, now)
      == (ClaimRow(q1, j, worker, now), claims + [Claim(j, q1.nextToken, q1.jobs[j].attempts + 1)])
  {
  }

  lemma LastIsApart(q: Queue, ids: seq<nat>)
    requires ids != [] && AllPending(q, ids) && Distinct(ids)
    ensures var front, j := ids[..|ids| - 1], ids[|ids| - 1];
      && AllPending(q, front) && Distinct(front) && front + [j] == ids
      && j < |q.jobs| && j !in front && q.jobs[j].status == Pending
  {
  }

  lemma UntouchedRow(q: Queue, ids: seq<nat>, j: nat, worker: nat, now: int, r: Queue, claims: seq<Claim>)
    requires ClaimedAs(q, ids, worker, now, r, claims) && j < |q.jobs| && j !in ids
    ensures |r.jobs| == |q.jobs| && r.jobs[j] == q.jobs[j]
  {
  }

  lemma {:induction false} ClaimRowsKeepsInv(q: Queue, ids: seq<nat>, worker: nat, now: int)
    requires Inv(q) && AllPending(q, ids) && Distinct(ids)
    ensures Inv(ClaimRows(q, ids, worker, now).0)
    decreases |ids|
  {
    if ids != [] {
      var last := |ids| - 1;
      var front := ids[..last];
      ClaimRowsKeepsInv(q, front, worker, now);
      ClaimRowsEffect(q, front, worker, now);
      assert ids[last] !in front;
      ClaimRowKeepsInv(ClaimRows(q, front, worker, now).0, ids[last], worker, now);
    }
  }
}
