/** No event forgotten: what holds in every reachable state of the outbox.

    Each kind of step is taken in turn: an ingestion transaction, a statement on the job table, the put, the mark with
    the job's completion, a failure, a crash. For each, one lemma per table says what becomes of it. */
module OutboxRuns {
  import opened Common
  import opened Identity
  import opened Ingestion
  import opened ArchiveInvariant
  import ArchiveSteps
  import ArchiveRuns
  import opened Outbox
  import Jobs
  import JobRuns

  // ---------------------------------------------------------------- transactions

  lemma OwedAfterTransact(s: Archive, t: Archive)
    requires Owed(s.queue.jobs, s.events) && Grown(s, t)
    ensures Owed(t.queue.jobs, t.events)
  {
    forall e | 0 <= e < |s.events| ensures HasArchiveJob(t.queue.jobs, e) {
      ArchiveJobKept(s.queue, t.queue, |s.events|, |t.events|, e);
    }
    forall j | 0 <= j < |s.queue.jobs| ensures t.queue.jobs[j] == s.queue.jobs[j] {
      assert t.queue.jobs[j] == t.queue.jobs[..|s.queue.jobs|][j];
    }
    forall e | 0 <= e < |s.events| ensures t.events[e] == s.events[e] {
      assert t.events[e] == t.events[..|s.events|][e];
    }
  }

  lemma StoreAfterTransact(s: Archive, t: Archive, store: map<ObjectKey, Document>)
    requires StoreFaithful(s, store) && Grown(s, t) && OneEventEach(s.versions, s.events)
    ensures StoreFaithful(t, store)
  {
    forall e | 0 <= e < |s.events| ensures t.events[e] == s.events[e] {
      assert t.events[e] == t.events[..|s.events|][e];
    }
  }

  lemma ClaimsAfterTransact(q: Jobs.Queue, r: Jobs.Queue, open: map<nat, JobRuns.OpenClaim>, lo: nat, hi: nat)
    requires JobRuns.SystemInv(JobRuns.System(q, open)) && JobsAdded(q, r, lo, hi) && Jobs.Inv(r)
    ensures JobRuns.SystemInv(JobRuns.System(r, open))
  {
    forall j | 0 <= j < |q.jobs| ensures r.jobs[j] == q.jobs[j] {
      assert r.jobs[j] == r.jobs[..|q.jobs|][j];
    }
    forall w | w in open ensures Jobs.AllPending(r, open[w].ids) && Jobs.Distinct(open[w].ids) {
      assert Jobs.AllPending(q, open[w].ids);
    }
  }

  lemma RunningAfterTransact(s: World, t: World)
    requires RunningOk(s) && Grown(s.archive, t.archive) && t == s.(archive := t.archive)
    ensures RunningOk(t)
  {
    forall j | 0 <= j < |s.archive.queue.jobs| ensures t.archive.queue.jobs[j] == s.archive.queue.jobs[j] {
      assert t.archive.queue.jobs[j] == t.archive.queue.jobs[..|s.archive.queue.jobs|][j];
    }
  }

  lemma TransactKeepsInv(env: Env, s: World, a: ArchiveRuns.Action)
    requires WorldInv(s)
    ensures WorldInv(Apply(env, s, Transact(a)))
  {
    var t := Apply(env, s, Transact(a));
    ArchiveRuns.ActKeepsInv(env, s.archive, a);
    if a.ReconcileJob? {
      ArchiveSteps.ReconcileChangesNothing(s.archive, a.message);
    }
    ActGrows(env, s.archive, a);
    OwedAfterTransact(s.archive, t.archive);
    StoreAfterTransact(s.archive, t.archive, s.store);
    ClaimsAfterTransact(s.archive.queue, t.archive.queue, s.open, |s.archive.events|, |t.archive.events|);
    RunningAfterTransact(s, t);
  }

  // ---------------------------------------------------------------- statements on the job table

  /** Rows keep their task and key, none newly succeeds or dies, and new rows are other work. */
  ghost predicate RowsKept(jobs: seq<Jobs.Job>, jobs': seq<Jobs.Job>) {
    && |jobs| <= |jobs'|
    && (forall j | 0 <= j < |jobs| ::
         && jobs'[j].task == jobs[j].task && jobs'[j].dedupe == jobs[j].dedupe
         && (jobs'[j].status == Jobs.Succeeded || jobs'[j].status == Jobs.Dead ==> jobs'[j].status == jobs[j].status))
    && (forall j | |jobs| <= j < |jobs'| ::
         !jobs'[j].task.ArchiveRawEvent? && !(jobs'[j].dedupe.Some? && jobs'[j].dedupe.value.ArchiveKey?))
  }

  lemma OwedAfterRows(jobs: seq<Jobs.Job>, jobs': seq<Jobs.Job>, events: seq<Event>)
    requires Owed(jobs, events) && RowsKept(jobs, jobs')
    ensures Owed(jobs', events)
  {
    forall e | 0 <= e < |events| ensures HasArchiveJob(jobs', e) {
      assert HasArchiveJob(jobs, e);
      var j :| 0 <= j < |jobs| && jobs[j].task == Jobs.ArchiveRawEvent(e);
      assert jobs'[j].task == Jobs.ArchiveRawEvent(e);
    }
  }

  ghost predicate JobStep(step: Step) {
    step.Insert? || step.BeginClaim? || step.CommitClaim? || step.AbortClaim? || step.RecoverStale?
  }

  function AsJobStep(step: Step): JobRuns.Step
    requires JobStep(step)
  {
    match step
    case Insert(r, at) => JobRuns.Insert(r, at, at)
    case BeginClaim(w, limit, at) => JobRuns.BeginClaim(w, limit, at)
    case CommitClaim(w) => JobRuns.CommitClaim(w)
    case AbortClaim(w) => JobRuns.AbortClaim(w)
    case RecoverStale(cutoff, at) => JobRuns.RecoverStale(cutoff, at)
  }

  lemma JobStepKeepsRows(s: JobRuns.System, step: Step)
    requires JobRuns.SystemInv(s) && JobStep(step) && (step.Insert? ==> OtherWork(step.request))
    ensures var t := JobRuns.Apply(s, AsJobStep(step));
      RowsKept(s.queue.jobs, t.queue.jobs) && s.queue.nextToken <= t.queue.nextToken
  {
    var t := JobRuns.Apply(s, AsJobStep(step));
    forall j | 0 <= j < |s.queue.jobs|
      ensures |s.queue.jobs| <= |t.queue.jobs| && t.queue.jobs[j].task == s.queue.jobs[j].task
      ensures t.queue.jobs[j].dedupe == s.queue.jobs[j].dedupe
      ensures t.queue.jobs[j].status == Jobs.Succeeded || t.queue.jobs[j].status == Jobs.Dead ==>
        t.queue.jobs[j].status == s.queue.jobs[j].status
    {
      JobRuns.StepOnRow(s, AsJobStep(step), j);
      if step.CommitClaim? && step.worker in s.open {
        Jobs.ClaimRowsEffect(s.queue, s.open[step.worker].ids, step.worker, s.open[step.worker].now);
      }
    }
    if step.CommitClaim? && step.worker in s.open {
      Jobs.ClaimRowsEffect(s.queue, s.open[step.worker].ids, step.worker, s.open[step.worker].now);
    }
  }

  ghost predicate ComesFrom(claims: seq<Jobs.Claim>, t: nat, x: Execution) {
    exists i :: 0 <= i < |claims| && claims[i].token == t && x == Execution(claims[i].job, claims[i].attempt, false)
  }

  lemma {:induction false} StartedClaims(running: map<nat, Execution>, claims: seq<Jobs.Claim>, t: nat)
    requires t in Started(running, claims)
    ensures (t in running && Started(running, claims)[t] == running[t])
      || ComesFrom(claims, t, Started(running, claims)[t])
    decreases |claims|
  {
    if claims != [] {
      var last := claims[|claims| - 1];
      if last.token == t {
        assert claims[|claims| - 1].token == t;
      } else {
        var front := claims[..|claims| - 1];
        StartedClaims(running, front, t);
        if ComesFrom(front, t, Started(running, front)[t]) {
          var i :| 0 <= i < |front| && front[i].token == t
            && Started(running, front)[t] == Execution(front[i].job, front[i].attempt, false);
          assert claims[i] == front[i];
        }
      }
    }
  }

  lemma RunningAfterJobStep(env: Env, s: World, step: Step)
    requires RunningOk(s) && JobRuns.SystemInv(JobView(s)) && JobStep(step)
    requires step.Insert? ==> OtherWork(step.request)
    ensures RunningOk(Apply(env, s, step))
  {
    JobStepKeepsRows(JobView(s), step);
    var t := Apply(env, s, step);
    if step.CommitClaim? {
      var claims := JobRuns.Issued(JobView(s), AsJobStep(step));
      JobRuns.IssuedByStep(JobView(s), AsJobStep(step));
      forall k | k in t.running
        ensures k < t.archive.queue.nextToken && t.running[k].job < |t.archive.queue.jobs|
        ensures t.running[k].uploaded ==> k in s.running && t.running[k] == s.running[k]
      {
        StartedClaims(s.running, claims, k);
      }
    }
  }

  lemma QueueSwapKeepsInv(s: Archive, q: Jobs.Queue)
    requires Inv(s) && Jobs.Inv(q)
    ensures Inv(s.(queue := q))
  {
  }

  lemma JobStepKeepsInv(env: Env, s: World, step: Step)
    requires WorldInv(s) && JobStep(step) && (step.Insert? ==> OtherWork(step.request))
    ensures WorldInv(Apply(env, s, step))
  {
    var t := Apply(env, s, step);
    JobRuns.StepKeepsInv(JobView(s), AsJobStep(step));
    JobStepKeepsRows(JobView(s), step);
    OwedAfterRows(s.archive.queue.jobs, t.archive.queue.jobs, s.archive.events);
    RunningAfterJobStep(env, s, step);
    QueueSwapKeepsInv(s.archive, t.archive.queue);
    assert JobView(t) == JobRuns.Apply(JobView(s), AsJobStep(step));
    assert StoreFaithful(t.archive, t.store);
  }

  // ---------------------------------------------------------------- handlers

  lemma PutKeepsStore(env: Env, s: World, token: nat)
    requires StoreFaithful(s.archive, s.store) && RunningOk(s)
    ensures var t := Apply(env, s, Put(token));
      StoreFaithful(t.archive, t.store) && RunningOk(t) && t.archive == s.archive && t.open == s.open
  {
    var t := Apply(env, s, Put(token));
    forall k | k in t.running
      ensures k < t.archive.queue.nextToken && t.running[k].job < |t.archive.queue.jobs|
      ensures t.running[k].uploaded ==>
        EventOf(t, t.running[k]).Some? && RawEventKey(EventOf(t, t.running[k]).value) in t.store
    {
      assert k in s.running && t.running[k].job == s.running[k].job;
    }
  }

  lemma MarkKeepsInv(s: Archive, e: nat, at: int)
    requires Inv(s) && e < |s.events|
    ensures Inv(MarkArchived(s, e, at))
  {
    var t := MarkArchived(s, e, at);
    ArchivingKeepsBase(s, t.versions, t.events);
  }

  lemma MarkKeepsStore(s: Archive, e: nat, at: int, store: map<ObjectKey, Document>)
    requires StoreFaithful(s, store) && OneEventEach(s.versions, s.events) && e < |s.events| && RawEventKey(e) in store
    ensures StoreFaithful(MarkArchived(s, e, at), store)
  {
    var t := MarkArchived(s, e, at);
    forall k | k in store ensures k.event < |t.events| && store[k] == DocumentOf(t, k.event) {
    }
    forall v | 0 <= v < |s.versions| && s.versions[v].captureEvent < |s.events|
      ensures t.versions[v].rawKey == t.events[t.versions[v].captureEvent].rawKey
    {
      assert s.events[s.versions[v].captureEvent].message == Some(s.versions[v].message);
    }
  }

  lemma MarkKeepsOwed(jobs: seq<Jobs.Job>, s: Archive, e: nat, at: int)
    requires Owed(jobs, s.events) && e < |s.events|
    ensures Owed(jobs, MarkArchived(s, e, at).events) && Archived(MarkArchived(s, e, at).events[e])
  {
  }

  /** A completion succeeds at most the row it names. */
  lemma OwedAfterComplete(q: Jobs.Queue, j: nat, token: nat, events: seq<Event>)
    requires Owed(q.jobs, events)
    requires j < |q.jobs| && q.jobs[j].task.ArchiveRawEvent? ==>
      q.jobs[j].task.event < |events| && Archived(events[q.jobs[j].task.event])
    ensures Owed(Jobs.Complete(q, j, token).jobs, events)
  {
    var r := Jobs.Complete(q, j, token);
    forall e | 0 <= e < |events| ensures HasArchiveJob(r.jobs, e) {
      assert HasArchiveJob(q.jobs, e);
      var k :| 0 <= k < |q.jobs| && q.jobs[k].task == Jobs.ArchiveRawEvent(e);
      assert r.jobs[k].task == Jobs.ArchiveRawEvent(e);
    }
  }

  lemma OwedAfterFail(q: Jobs.Queue, j: nat, token: nat, retryable: bool, delay: int, at: int, events: seq<Event>)
    requires Owed(q.jobs, events) && (j < |q.jobs| && q.jobs[j].task.ArchiveRawEvent? ==> retryable)
    ensures Owed(Jobs.Fail(q, j, token, retryable, delay, at).jobs, events)
  {
    var r := Jobs.Fail(q, j, token, retryable, delay, at);
    forall e | 0 <= e < |events| ensures HasArchiveJob(r.jobs, e) {
      assert HasArchiveJob(q.jobs, e);
      var k :| 0 <= k < |q.jobs| && q.jobs[k].task == Jobs.ArchiveRawEvent(e);
      assert r.jobs[k].task == Jobs.ArchiveRawEvent(e);
    }
  }

  lemma RunningAfterSettle(s: World, t: World, token: nat)
    requires RunningOk(s) && t.store == s.store && |t.archive.events| == |s.archive.events|
    requires forall k | k in t.running :: k in s.running && t.running[k] == s.running[k]
    requires t.archive.queue.nextToken == s.archive.queue.nextToken && |t.archive.queue.jobs| == |s.archive.queue.jobs|
    requires forall j | 0 <= j < |s.archive.queue.jobs| :: t.archive.queue.jobs[j].task == s.archive.queue.jobs[j].task
    ensures RunningOk(t)
  {
  }

  lemma DoneKeepsTables(s: World, token: nat, at: int)
    requires token in s.running && Owed(s.archive.queue.jobs, s.archive.events)
    requires StoreFaithful(s.archive, s.store) && RunningOk(s) && OneEventEach(s.archive.versions, s.archive.events)
    ensures var t := Done(s, token, at);
      Owed(t.archive.queue.jobs, t.archive.events) && StoreFaithful(t.archive, t.store) && RunningOk(t)
  {
    RunningAfterSettle(s, Done(s, token, at), token);
    DoneKeepsStore(s, token, at);
    DoneKeepsOwed(s, token, at);
  }

  lemma DoneKeepsStore(s: World, token: nat, at: int)
    requires token in s.running && StoreFaithful(s.archive, s.store) && RunningOk(s)
    requires OneEventEach(s.archive.versions, s.archive.events)
    ensures var t := Done(s, token, at); StoreFaithful(t.archive, t.store)
  {
    var t, x := Done(s, token, at), s.running[token];
    var e := EventOf(s, x);
    if e.Some? && x.uploaded {
      MarkKeepsStore(s.archive.(queue := t.archive.queue), e.value, at, s.store);
    }
  }

  lemma DoneKeepsOwed(s: World, token: nat, at: int)
    requires token in s.running && Owed(s.archive.queue.jobs, s.archive.events)
    ensures var t := Done(s, token, at); Owed(t.archive.queue.jobs, t.archive.events)
  {
    var t, x := Done(s, token, at), s.running[token];
    var e := EventOf(s, x);
    if e.Some? && x.uploaded {
      MarkKeepsOwed(s.archive.queue.jobs, s.archive, e.value, at);
    }
    if t != s {
      OwedAfterComplete(s.archive.queue, x.job, token, t.archive.events);
    }
  }

  lemma DoneKeepsArchive(s: World, token: nat, at: int)
    requires token in s.running && Inv(s.archive)
    requires Jobs.Inv(Jobs.Complete(s.archive.queue, s.running[token].job, token))
    ensures Inv(Done(s, token, at).archive)
  {
    var x := s.running[token];
    var q := Jobs.Complete(s.archive.queue, x.job, token);
    QueueSwapKeepsInv(s.archive, q);
    if EventOf(s, x).Some? {
      MarkKeepsInv(s.archive.(queue := q), EventOf(s, x).value, at);
    }
  }

  lemma CommitDoneIsDone(env: Env, s: World, token: nat, at: int)
    ensures Apply(env, s, CommitDone(token, at)) == if token in s.running then Done(s, token, at) else s
  {
  }

  lemma DoneKeepsInv(s: World, token: nat, at: int)
    requires token in s.running && WorldInv(s)
    ensures WorldInv(Done(s, token, at))
  {
    DoneKeepsQueue(s, token);
    DoneKeepsArchive(s, token, at);
    DoneKeepsTables(s, token, at);
  }

  lemma DoneKeepsQueue(s: World, token: nat)
    requires token in s.running && JobRuns.SystemInv(JobView(s))
    ensures var q := Jobs.Complete(s.archive.queue, s.running[token].job, token);
      JobRuns.SystemInv(JobRuns.System(q, s.open)) && Jobs.Inv(q)
  {
    JobRuns.StepKeepsInv(JobView(s), JobRuns.Finish(s.running[token].job, token));
  }

  lemma FailedKeepsTables(s: World, token: nat, retryable: bool, delay: int, at: int)
    requires token in s.running && Owed(s.archive.queue.jobs, s.archive.events)
    requires StoreFaithful(s.archive, s.store) && RunningOk(s) && (retryable || EventOf(s, s.running[token]).None?)
    ensures var t := Closed(s, token, Jobs.Fail(s.archive.queue, s.running[token].job, token, retryable, delay, at));
      Owed(t.archive.queue.jobs, t.archive.events) && StoreFaithful(t.archive, t.store) && RunningOk(t)
  {
    var x := s.running[token];
    RunningAfterSettle(s, Closed(s, token, Jobs.Fail(s.archive.queue, x.job, token, retryable, delay, at)), token);
    OwedAfterFail(s.archive.queue, x.job, token, retryable, delay, at, s.archive.events);
  }

  lemma FailedKeepsInv(env: Env, s: World, token: nat, retryable: bool, delay: int, at: int)
    requires WorldInv(s)
    ensures WorldInv(Apply(env, s, CommitFailed(token, retryable, delay, at)))
  {
    if token in s.running && (retryable || EventOf(s, s.running[token]).None?) {
      FailedKeepsQueue(s, token, retryable, delay, at);
      QueueSwapKeepsInv(s.archive, Jobs.Fail(s.archive.queue, s.running[token].job, token, retryable, delay, at));
      FailedKeepsTables(s, token, retryable, delay, at);
    }
  }

  lemma FailedKeepsQueue(s: World, token: nat, retryable: bool, delay: int, at: int)
    requires token in s.running && JobRuns.SystemInv(JobView(s))
    ensures var q := Jobs.Fail(s.archive.queue, s.running[token].job, token, retryable, delay, at);
      JobRuns.SystemInv(JobRuns.System(q, s.open)) && Jobs.Inv(q)
  {
    JobRuns.StepKeepsInv(JobView(s), JobRuns.GiveUp(s.running[token].job, token, retryable, delay, at));
  }

  lemma CrashKeepsInv(env: Env, s: World, token: nat)
    requires WorldInv(s)
    ensures WorldInv(Apply(env, s, Crash(token)))
  {
    var t := Apply(env, s, Crash(token));
    assert t.archive == s.archive && JobView(t) == JobView(s);
    FewerRunning(s, s.running - {token});
  }

  lemma FewerRunning(s: World, running: map<nat, Execution>)
    requires RunningOk(s) && forall t | t in running :: t in s.running && running[t] == s.running[t]
    ensures RunningOk(s.(running := running))
  {
  }

  lemma StepKeepsInv(env: Env, s: World, step: Step)
    requires WorldInv(s)
    ensures WorldInv(Apply(env, s, step))
  {
    match step
    case Transact(a) => TransactKeepsInv(env, s, a);
    case Put(t) => PutKeepsStore(env, s, t);
    case CommitDone(t, at) =>
      CommitDoneIsDone(env, s, t, at);
      if t in s.running { DoneKeepsInv(s, t, at); }
    case CommitFailed(t, retryable, delay, at) => FailedKeepsInv(env, s, t, retryable, delay, at);
    case Crash(t) => CrashKeepsInv(env, s, t);
    case Insert(r, at) =>
      if OtherWork(r) { JobStepKeepsInv(env, s, step); }
    case _ => JobStepKeepsInv(env, s, step);
  }

  lemma StartInv()
    ensures WorldInv(START)
  {
    ArchiveRuns.EmptyInv();
  }

  lemma {:induction false} RunKeepsInv(env: Env, steps: seq<Step>)
    ensures WorldInv(Run(env, START, steps))
    decreases |steps|
  {
    if steps == [] {
      StartInv();
    } else {
      RunKeepsInv(env, steps[..|steps| - 1]);
      StepKeepsInv(env, Run(env, START, steps[..|steps| - 1]), steps[|steps| - 1]);
    }
  }

  // ---------------------------------------------------------------- the promise

  /** An event marked archived is in S3, with its own content. */
  ghost predicate ArchivedIsStored(s: World) {
    forall e | 0 <= e < |s.archive.events| && Archived(s.archive.events[e]) ::
      RawEventKey(e) in s.store && s.store[RawEventKey(e)] == DocumentOf(s.archive, e)
  }

  /** A version that names a raw object names its own event's, and the object is there. */
  ghost predicate MarkedVersionsStored(s: World) {
    forall v | 0 <= v < |s.archive.versions| && s.archive.versions[v].rawKey.Some? ::
      && s.archive.versions[v].rawKey == Some(RawEventKey(s.archive.versions[v].captureEvent))
      && s.archive.versions[v].rawKey.value in s.store
  }

  ghost predicate StillOwed(jobs: seq<Jobs.Job>, e: nat) {
    exists j :: 0 <= j < |jobs| && jobs[j].task == Jobs.ArchiveRawEvent(e)
                && jobs[j].status != Jobs.Succeeded && jobs[j].status != Jobs.Dead
  }

  /** An event not yet archived has an archive job that has not succeeded and is not dead. */
  ghost predicate UnarchivedIsOwed(s: World) {
    forall e | 0 <= e < |s.archive.events| && !Archived(s.archive.events[e]) :: StillOwed(s.archive.queue.jobs, e)
  }

  lemma PromiseFromInv(s: World)
    requires OneEventEach(s.archive.versions, s.archive.events)
    requires Owed(s.archive.queue.jobs, s.archive.events) && StoreFaithful(s.archive, s.store)
    ensures ArchivedIsStored(s) && MarkedVersionsStored(s) && UnarchivedIsOwed(s)
  {
    forall e | 0 <= e < |s.archive.events| && !Archived(s.archive.events[e])
      ensures StillOwed(s.archive.queue.jobs, e)
    {
      assert HasArchiveJob(s.archive.queue.jobs, e);
      var j :| 0 <= j < |s.archive.queue.jobs| && s.archive.queue.jobs[j].task == Jobs.ArchiveRawEvent(e);
      assert s.archive.queue.jobs[j].status != Jobs.Succeeded;
    }
  }

  /** No event is forgotten, in any interleaving of ingestion, claims, puts, commits, crashes, lock loss and stale
      recovery; and every version has exactly one capture event throughout. */
  lemma {:induction false} NoEventForgotten(env: Env, steps: seq<Step>)
    ensures OneEventEach(Run(env, START, steps).archive.versions, Run(env, START, steps).archive.events)
    ensures ArchivedIsStored(Run(env, START, steps))
    ensures MarkedVersionsStored(Run(env, START, steps))
    ensures UnarchivedIsOwed(Run(env, START, steps))
  {
    RunKeepsInv(env, steps);
    PromiseFromInv(Run(env, START, steps));
  }
}
