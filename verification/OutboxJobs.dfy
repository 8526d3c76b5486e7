/** The outbox as a user of the job table: what holds of job runs holds here. */
module OutboxJobs {
  import opened Common
  import opened Identity
  import opened Ingestion
  import ArchiveRuns
  import opened Outbox
  import OutboxRuns
  import Jobs
  import JobRuns

  // ---------------------------------------------------------------- projection

  lemma RunSnoc(s: JobRuns.System, js: seq<JobRuns.Step>, step: JobRuns.Step)
    ensures JobRuns.Run(s, js + [step]) == JobRuns.Apply(JobRuns.Run(s, js), step)
  {
    assert (js + [step])[..|js|] == js;
  }

  lemma {:induction false} RunAppend(s: JobRuns.System, a: seq<JobRuns.Step>, b: seq<JobRuns.Step>)
    ensures JobRuns.Run(s, a + b) == JobRuns.Run(JobRuns.Run(s, a), b)
    decreases |b|
  {
    if b == [] {
      assert a + b == a;
    } else {
      var n := |b| - 1;
      assert a + b == (a + b[..n]) + [b[n]];
      RunSnoc(s, a + b[..n], b[n]);
      RunAppend(s, a, b[..n]);
    }
  }

  /** Jobs a transaction enqueues, in order, all at its own time. */
  function Inserts(rs: seq<Jobs.Request>, at: int): (js: seq<JobRuns.Step>)
    ensures |js| == |rs| && forall i | 0 <= i < |js| :: js[i] == JobRuns.Insert(rs[i], at, at)
  {
    seq(|rs|, i requires 0 <= i < |rs| => JobRuns.Insert(rs[i], at, at))
  }

  function EnqueueAll(q: Jobs.Queue, rs: seq<Jobs.Request>, at: int): Jobs.Queue {
    if rs == [] then q else Jobs.Enqueue(EnqueueAll(q, rs[..|rs| - 1], at), rs[|rs| - 1], at, at).0
  }

  lemma {:induction false} InsertsEnqueue(s: JobRuns.System, rs: seq<Jobs.Request>, at: int)
    requires forall i | 0 <= i < |rs| :: rs[i].maxAttempts > 0
    ensures JobRuns.Run(s, Inserts(rs, at)) == s.(queue := EnqueueAll(s.queue, rs, at))
    decreases |rs|
  {
    if rs != [] {
      var n := |rs| - 1;
      InsertsEnqueue(s, rs[..n], at);
      assert Inserts(rs, at) == Inserts(rs[..n], at) + [JobRuns.Insert(rs[n], at, at)];
      RunSnoc(s, Inserts(rs[..n], at), JobRuns.Insert(rs[n], at, at));
    }
  }

  lemma EnqueueAllSnoc(q: Jobs.Queue, rs: seq<Jobs.Request>, r: Jobs.Request, at: int)
    ensures EnqueueAll(q, rs + [r], at) == Jobs.Enqueue(EnqueueAll(q, rs, at), r, at, at).0
  {
    assert (rs + [r])[..|rs|] == rs;
  }

  function Req(task: Jobs.Task, key: Jobs.DedupeKey, priority: nat): Jobs.Request {
    Jobs.Request(task, Some(key), priority, 8)
  }

  function SnapshotReq(c: nat): Jobs.Request { Req(Jobs.BuildSnapshot(c), Jobs.SnapshotKey(c), 200) }

  function ArchiveReq(e: nat): Jobs.Request { Req(Jobs.ArchiveRawEvent(e), Jobs.ArchiveKey(e), 50) }

  function ReconcileReq(m: nat): Jobs.Request { Req(Jobs.ReconcilePartial(m), Jobs.ReconcileKey(m), 400) }

  ghost predicate Enqueues(q: Jobs.Queue, rs: seq<Jobs.Request>, at: int, r: Jobs.Queue) {
    && r == EnqueueAll(q, rs, at)
    && forall i | 0 <= i < |rs| :: rs[i].maxAttempts > 0 && NamesWork(rs[i].task, rs[i].dedupe)
  }

  /** A dedupe key that names a row names the row its job works on. */
  ghost predicate NamesWork(task: Jobs.Task, dedupe: Option<Jobs.DedupeKey>) {
    match dedupe
    case None => true
    case Some(ArchiveKey(e)) => task == Jobs.ArchiveRawEvent(e)
    case Some(SnapshotKey(c)) => task == Jobs.BuildSnapshot(c)
    case Some(ReconcileKey(m)) => task == Jobs.ReconcilePartial(m)
    case Some(FinalizeKey(a)) => task == Jobs.FinalizeAttachment(a)
    case Some(NamedKey(_)) => task.OtherTask?
  }

  lemma OneMore(q: Jobs.Queue, rs: seq<Jobs.Request>, at: int, r: Jobs.Queue, more: Jobs.Request)
    requires Enqueues(q, rs, at, r) && more.maxAttempts > 0 && NamesWork(more.task, more.dedupe)
    ensures Enqueues(q, rs + [more], at, Jobs.Enqueue(r, more, at, at).0)
  {
    EnqueueAllSnoc(q, rs, more, at);
  }

  lemma AppendVersionEnqueues(env: Env, s: Archive, c: nat, m: nat, p: Payload, now: int)
    returns (rs: seq<Jobs.Request>)
    requires c < |s.conversations| && m < |s.messages|
    ensures Enqueues(s.queue, rs, now, AppendVersion(env, s, c, m, p, now).queue)
  {
    var e := |s.events|;
    var q1 := Jobs.Enqueue(s.queue, ArchiveReq(e), now, now).0;
    var q2 := Jobs.Enqueue(q1, SnapshotReq(c), now, now).0;
    OneMore(s.queue, [], now, s.queue, ArchiveReq(e));
    OneMore(s.queue, [] + [ArchiveReq(e)], now, q1, SnapshotReq(c));
    rs := [] + [ArchiveReq(e)] + [SnapshotReq(c)];
    if p.completion == Partial {
      OneMore(s.queue, rs, now, q2, ReconcileReq(m));
      rs := rs + [ReconcileReq(m)];
    }
  }

  lemma SeenAgainEnqueues(s: Archive, c: nat, m: nat, v: nat, p: Payload, now: int) returns (rs: seq<Jobs.Request>)
    requires c < |s.conversations| && m < |s.messages| && v < |s.versions|
    ensures Enqueues(s.queue, rs, now, SeenAgain(s, c, m, v, p, now).queue)
  {
    rs := [];
    if Promotes(s, v, p) {
      OneMore(s.queue, [], now, s.queue, SnapshotReq(c));
      rs := [] + [SnapshotReq(c)];
    }
  }

  lemma IngestEnqueues(env: Env, s: Archive, p: Payload, now: int) returns (rs: seq<Jobs.Request>)
    ensures Enqueues(s.queue, rs, now, Ingest(env, s, p, now).0.queue)
  {
    rs := [];
    if p.declared == Sha256(p.text) {
      var (s1, c) := GetOrCreateConversation(env, s, p.conversation, NO_DETAILS, LiveOnly, now);
      if p.key !in s1.keys {
        var (s2, m) := Prepare(env, s1, c, p, now);
        assert s2.queue == s.queue;
        match FindVersion(s2, m, ContentHash(env, p.text)) {
          case Some(v) => rs := SeenAgainEnqueues(s2, c, m, v, p, now);
          case None =>
            if DistinctPartIndexes(KeptParts(p)) {
              rs := AppendVersionEnqueues(env, s2, c, m, p, now);
            }
        }
      }
    }
  }

  lemma UpsertEnqueues(env: Env, s: Archive, u: Upsert, now: int) returns (rs: seq<Jobs.Request>)
    ensures Enqueues(s.queue, rs, now, UpsertConversation(env, s, u, now).queue)
  {
    rs := [];
    if u.key !in s.keys {
      var c := GetOrCreateConversation(env, s, u.conversation, u.details, u.coverage, now).1;
      var e := |s.events|;
      OneMore(s.queue, [], now, s.queue, ArchiveReq(e));
      OneMore(s.queue, [] + [ArchiveReq(e)], now, Jobs.Enqueue(s.queue, ArchiveReq(e), now, now).0, SnapshotReq(c));
      rs := [] + [ArchiveReq(e)] + [SnapshotReq(c)];
    }
  }

  lemma ActEnqueues(env: Env, s: Archive, a: ArchiveRuns.Action) returns (rs: seq<Jobs.Request>, at: int)
    ensures Enqueues(s.queue, rs, at, ArchiveRuns.Act(env, s, a).queue)
  {
    rs, at := [], 0;
    match a {
      case Deliver(p, now) =>
        at := now;
        rs := IngestEnqueues(env, s, p, now);
      case DeliverUpsert(u, now) =>
        at := now;
        rs := UpsertEnqueues(env, s, u, now);
      case _ =>
    }
  }

  // ---------------------------------------------------------------- jobs and what they are for

  ghost predicate AllNameWork(jobs: seq<Jobs.Job>) {
    forall j | 0 <= j < |jobs| :: NamesWork(jobs[j].task, jobs[j].dedupe)
  }

  lemma {:induction false} EnqueuedNameWork(q: Jobs.Queue, rs: seq<Jobs.Request>, at: int)
    requires AllNameWork(q.jobs) && forall i | 0 <= i < |rs| :: NamesWork(rs[i].task, rs[i].dedupe)
    ensures AllNameWork(EnqueueAll(q, rs, at).jobs)
    decreases |rs|
  {
    if rs != [] {
      EnqueuedNameWork(q, rs[..|rs| - 1], at);
    }
  }

  lemma NamesAfterStep(env: Env, s: World, step: Step)
    requires WorldInv(s) && AllNameWork(s.archive.queue.jobs)
    ensures AllNameWork(Apply(env, s, step).archive.queue.jobs)
  {
    match step
    case Transact(a) =>
      var rs, at := ActEnqueues(env, s.archive, a);
      EnqueuedNameWork(s.archive.queue, rs, at);
    case CommitDone(t, at) => SettlingKeepsNames(env, s, step);
    case CommitFailed(t, retryable, delay, at) => SettlingKeepsNames(env, s, step);
    case Put(t) =>
    case Crash(t) =>
    case _ => JobStepKeepsNames(env, s, step);
  }

  lemma SettlingKeepsNames(env: Env, s: World, step: Step)
    requires (step.CommitDone? || step.CommitFailed?) && AllNameWork(s.archive.queue.jobs)
    ensures AllNameWork(Apply(env, s, step).archive.queue.jobs)
  {
  }

  lemma JobStepKeepsNames(env: Env, s: World, step: Step)
    requires OutboxRuns.JobStep(step) && JobRuns.SystemInv(JobView(s)) && AllNameWork(s.archive.queue.jobs)
    ensures AllNameWork(Apply(env, s, step).archive.queue.jobs)
  {
    var jobs, after := s.archive.queue.jobs, Apply(env, s, step).archive.queue.jobs;
    if step.Insert? {
      assert step.request.maxAttempts > 0 && OtherWork(step.request) ==>
        after == Jobs.Enqueue(s.archive.queue, step.request, step.at, step.at).0.jobs;
    } else {
      forall j | 0 <= j < |jobs| ensures j < |after| && NamesWork(after[j].task, after[j].dedupe) {
        JobRuns.StepOnRow(JobView(s), OutboxRuns.AsJobStep(step), j);
      }
      if |after| > |jobs| {
        JobRuns.StepOnNewRow(JobView(s), OutboxRuns.AsJobStep(step), |jobs|);
      }
    }
  }

  /** In every run a job does what its dedupe key says: a live job found under a key is the one the caller wants. */
  lemma {:induction false} JobsNameWork(env: Env, steps: seq<Step>)
    ensures AllNameWork(Run(env, START, steps).archive.queue.jobs)
    decreases |steps|
  {
    if steps != [] {
      var n := |steps| - 1;
      JobsNameWork(env, steps[..n]);
      OutboxRuns.RunKeepsInv(env, steps[..n]);
      NamesAfterStep(env, Run(env, START, steps[..n]), steps[n]);
    }
  }

  /** The step recovers job `j` from a stale lock. */
  predicate RecoversJob(s: World, step: Step, j: nat) {
    step.RecoverStale? && JobRuns.Recovers(JobView(s), JobRuns.RecoverStale(step.cutoff, step.at), j)
  }

  function JobRecoveries(env: Env, steps: seq<Step>, j: nat): nat {
    if steps == [] then 0
    else
      var n := |steps| - 1;
      JobRecoveries(env, steps[..n], j) + JobRuns.Times(RecoversJob(Run(env, START, steps[..n]), steps[n], j))
  }

  lemma {:induction false} RecoveryCountAppend(s: JobRuns.System, a: seq<JobRuns.Step>, b: seq<JobRuns.Step>, j: nat)
    ensures JobRuns.RecoveryCount(s, a + b, j)
         == JobRuns.RecoveryCount(s, a, j) + JobRuns.RecoveryCount(JobRuns.Run(s, a), b, j)
    decreases |b|
  {
    if b == [] {
      assert a + b == a;
    } else {
      var n := |b| - 1;
      assert (a + b)[..|a + b| - 1] == a + b[..n];
      RecoveryCountAppend(s, a, b[..n], j);
      RunAppend(s, a, b[..n]);
    }
  }

  lemma {:induction false} NoRecoveries(s: JobRuns.System, js: seq<JobRuns.Step>, j: nat)
    requires forall i | 0 <= i < |js| :: !js[i].RecoverStale?
    ensures JobRuns.RecoveryCount(s, js, j) == 0
    decreases |js|
  {
    if js != [] {
      NoRecoveries(s, js[..|js| - 1], j);
    }
  }

  lemma One(s: JobRuns.System, step: JobRuns.Step)
    ensures JobRuns.Run(s, [step]) == JobRuns.Apply(s, step)
    ensures forall j :: JobRuns.RecoveryCount(s, [step], j) == JobRuns.Times(JobRuns.Recovers(s, step, j))
  {
    assert [step][..0] == [];
    RunSnoc(s, [], step);
  }

  /** Each step is some steps of the job table. */
  lemma StepProjects(env: Env, s: World, step: Step) returns (js: seq<JobRuns.Step>)
    ensures JobRuns.Run(JobView(s), js) == JobView(Apply(env, s, step))
    ensures forall j :: JobRuns.RecoveryCount(JobView(s), js, j) == JobRuns.Times(RecoversJob(s, step, j))
  {
    js := [];
    match step {
      case Transact(a) =>
        var rs, at := ActEnqueues(env, s.archive, a);
        js := Inserts(rs, at);
        InsertsEnqueue(JobView(s), rs, at);
        forall j ensures JobRuns.RecoveryCount(JobView(s), js, j) == 0 {
          NoRecoveries(JobView(s), js, j);
        }
      case Put(t) =>
      case Crash(t) =>
      case CommitDone(t, at) =>
        if t in s.running && Done(s, t, at) != s {
          js := [JobRuns.Finish(s.running[t].job, t)];
          One(JobView(s), js[0]);
        }
      case CommitFailed(t, retryable, delay, at) =>
        if t in s.running && (retryable || EventOf(s, s.running[t]).None?) {
          js := [JobRuns.GiveUp(s.running[t].job, t, retryable, delay, at)];
          One(JobView(s), js[0]);
        }
      case Insert(r, at) =>
        if OtherWork(r) {
          js := [JobRuns.Insert(r, at, at)];
          One(JobView(s), js[0]);
        }
      case BeginClaim(w, limit, at) =>
        js := [JobRuns.BeginClaim(w, limit, at)];
        One(JobView(s), js[0]);
      case CommitClaim(w) =>
        js := [JobRuns.CommitClaim(w)];
        One(JobView(s), js[0]);
      case AbortClaim(w) =>
        js := [JobRuns.AbortClaim(w)];
        One(JobView(s), js[0]);
      case RecoverStale(cutoff, at) =>
        js := [JobRuns.RecoverStale(cutoff, at)];
        One(JobView(s), js[0]);
    }
  }

  /** Every run of the outbox is, on the job table, a run of the job system, with the same recoveries of every job: all
      that is proved of those runs holds here. */
  lemma {:induction false} RunProjects(env: Env, steps: seq<Step>) returns (js: seq<JobRuns.Step>)
    ensures JobRuns.Run(JobRuns.START, js) == JobView(Run(env, START, steps))
    ensures forall j :: JobRuns.RecoveryCount(JobRuns.START, js, j) == JobRecoveries(env, steps, j)
    decreases |steps|
  {
    js := [];
    if steps != [] {
      var n := |steps| - 1;
      var front := RunProjects(env, steps[..n]);
      var last := StepProjects(env, Run(env, START, steps[..n]), steps[n]);
      js := front + last;
      RunAppend(JobRuns.START, front, last);
      forall j ensures JobRuns.RecoveryCount(JobRuns.START, js, j) == JobRecoveries(env, steps, j) {
        RecoveryCountAppend(JobRuns.START, front, last, j);
      }
    }
  }

  /** So in every run of the outbox, a job's attempts stay within `max_attempts` plus its recoveries, strictly while
      pending. */
  lemma OutboxAttemptsBounded(env: Env, steps: seq<Step>, j: nat)
    requires j < |Run(env, START, steps).archive.queue.jobs|
    ensures var job := Run(env, START, steps).archive.queue.jobs[j];
      && job.attempts <= job.maxAttempts + JobRecoveries(env, steps, j)
      && (job.status == Jobs.Pending ==> job.attempts < job.maxAttempts + JobRecoveries(env, steps, j))
  {
    var js := RunProjects(env, steps);
    JobRuns.AttemptAccounting(js, j);
  }

  /** The archive job of event `e`: waiting, at work, or failed for good with its attempts used up. */
  ghost predicate StillTried(jobs: seq<Jobs.Job>, e: nat) {
    exists j :: 0 <= j < |jobs| && jobs[j].task == Jobs.ArchiveRawEvent(e) && Jobs.WaitingOrSpent(jobs[j])
  }

  /** In every run, an event not yet archived has an archive job that is pending or running, or that failed only after
      all its attempts. */
  lemma {:induction false} UnarchivedIsTriedToTheEnd(env: Env, steps: seq<Step>, e: nat)
    requires e < |Run(env, START, steps).archive.events| && !Archived(Run(env, START, steps).archive.events[e])
    ensures StillTried(Run(env, START, steps).archive.queue.jobs, e)
  {
    OutboxRuns.NoEventForgotten(env, steps);
    var js := RunProjects(env, steps);
    JobRuns.RunKeepsFailedSpent(js);
    OwedIsTried(Run(env, START, steps).archive.queue, e);
  }

  lemma OwedIsTried(q: Jobs.Queue, e: nat)
    requires OutboxRuns.StillOwed(q.jobs, e) && JobRuns.FailedAreSpent(q)
    ensures StillTried(q.jobs, e)
  {
    var j :| 0 <= j < |q.jobs| && q.jobs[j].task == Jobs.ArchiveRawEvent(e)
             && q.jobs[j].status != Jobs.Succeeded && q.jobs[j].status != Jobs.Dead;
    assert Jobs.WaitingOrSpent(q.jobs[j]);
  }

  // ---------------------------------------------------------------- recorded attempts

  /** A handler's attempt number was drawn for a row that has counted it. */
  ghost predicate CountedPair(jobs: seq<Jobs.Job>, x: (nat, nat)) {
    x.0 < |jobs| && x.1 <= jobs[x.0].attempts
  }

  function PairOf(x: Execution): (nat, nat) {
    (x.job, x.attempt)
  }

  ghost predicate AttemptsDistinct(jobs: seq<Jobs.Job>, running: map<nat, Execution>, entries: seq<(nat, nat)>) {
    && (forall t | t in running :: CountedPair(jobs, PairOf(running[t])) && PairOf(running[t]) !in entries)
    && (forall t, u | t in running && u in running && t != u :: PairOf(running[t]) != PairOf(running[u]))
    && (forall i | 0 <= i < |entries| :: CountedPair(jobs, entries[i]))
    && (forall i, k | 0 <= i < k < |entries| :: entries[i] != entries[k])
  }

  /** Rows stay and their counters never fall. */
  ghost predicate CountersGrow(jobs: seq<Jobs.Job>, jobs': seq<Jobs.Job>) {
    |jobs| <= |jobs'| && forall j | 0 <= j < |jobs| :: jobs[j].attempts <= jobs'[j].attempts
  }

  lemma CountersGrowInStep(s: JobRuns.System, step: JobRuns.Step)
    requires JobRuns.SystemInv(s)
    ensures CountersGrow(s.queue.jobs, JobRuns.Apply(s, step).queue.jobs)
  {
    forall j | 0 <= j < |s.queue.jobs|
      ensures |JobRuns.Apply(s, step).queue.jobs| >= |s.queue.jobs|
      ensures s.queue.jobs[j].attempts <= JobRuns.Apply(s, step).queue.jobs[j].attempts
    {
      JobRuns.StepOnRow(s, step, j);
    }
    if |s.queue.jobs| == 0 {
      assert |JobRuns.Apply(s, step).queue.jobs| >= 0;
    }
  }

  lemma {:induction false} CountersGrowInRun(s: JobRuns.System, js: seq<JobRuns.Step>)
    requires JobRuns.SystemInv(s)
    ensures CountersGrow(s.queue.jobs, JobRuns.Run(s, js).queue.jobs)
    decreases |js|
  {
    if js != [] {
      var front := js[..|js| - 1];
      CountersGrowInRun(s, front);
      JobRuns.RunKeepsInv(s, front);
      CountersGrowInStep(JobRuns.Run(s, front), js[|js| - 1]);
    }
  }

  lemma {:induction false} StartedStaysDistinct(s: World, claims: seq<Jobs.Claim>, jobs: seq<Jobs.Job>)
    requires AttemptsDistinct(s.archive.queue.jobs, s.running, s.attemptLog) && CountersGrow(s.archive.queue.jobs, jobs)
    requires JobRuns.FreshClaims(claims)
    requires forall i | 0 <= i < |claims| ::
      && claims[i].job < |s.archive.queue.jobs| && claims[i].attempt > s.archive.queue.jobs[claims[i].job].attempts
      && claims[i].attempt <= jobs[claims[i].job].attempts
    ensures AttemptsDistinct(jobs, Started(s.running, claims), s.attemptLog)
  {
    var after := Started(s.running, claims);
    forall t | t in after
      ensures (t in s.running && after[t] == s.running[t]) || OutboxRuns.ComesFrom(claims, t, after[t])
    {
      OutboxRuns.StartedClaims(s.running, claims, t);
    }
    forall t | t in after ensures CountedPair(jobs, PairOf(after[t])) && PairOf(after[t]) !in s.attemptLog {
      if OutboxRuns.ComesFrom(claims, t, after[t]) {
        var i :| 0 <= i < |claims| && claims[i].token == t
          && after[t] == Execution(claims[i].job, claims[i].attempt, false);
      }
    }
    forall t, u | t in after && u in after && t != u ensures PairOf(after[t]) != PairOf(after[u]) {
      PairsDiffer(s, claims, after, t, u);
    }
  }

  lemma PairsDiffer(s: World, claims: seq<Jobs.Claim>, after: map<nat, Execution>, t: nat, u: nat)
    requires AttemptsDistinct(s.archive.queue.jobs, s.running, s.attemptLog) && JobRuns.FreshClaims(claims)
    requires forall i | 0 <= i < |claims| ::
      claims[i].job < |s.archive.queue.jobs| && claims[i].attempt > s.archive.queue.jobs[claims[i].job].attempts
    requires t in after && u in after && t != u
    requires (t in s.running && after[t] == s.running[t]) || OutboxRuns.ComesFrom(claims, t, after[t])
    requires (u in s.running && after[u] == s.running[u]) || OutboxRuns.ComesFrom(claims, u, after[u])
    ensures PairOf(after[t]) != PairOf(after[u])
  {
    if OutboxRuns.ComesFrom(claims, t, after[t]) && OutboxRuns.ComesFrom(claims, u, after[u]) {
      var i :| 0 <= i < |claims| && claims[i].token == t
        && after[t] == Execution(claims[i].job, claims[i].attempt, false);
      var k :| 0 <= k < |claims| && claims[k].token == u
        && after[u] == Execution(claims[k].job, claims[k].attempt, false);
      assert i != k;
    }
  }

  lemma ClosingStaysDistinct(jobs: seq<Jobs.Job>, running: map<nat, Execution>, entries: seq<(nat, nat)>, token: nat)
    requires AttemptsDistinct(jobs, running, entries) && token in running
    ensures AttemptsDistinct(jobs, running - {token}, entries + [PairOf(running[token])])
  {
  }

  lemma GrowingStaysDistinct(jobs: seq<Jobs.Job>, jobs': seq<Jobs.Job>, running: map<nat, Execution>,
                             entries: seq<(nat, nat)>)
    requires AttemptsDistinct(jobs, running, entries) && CountersGrow(jobs, jobs')
    ensures AttemptsDistinct(jobs', running, entries)
  {
    assert forall t | t in running :: CountedPair(jobs, PairOf(running[t])) ==> CountedPair(jobs', PairOf(running[t]));
    assert forall i | 0 <= i < |entries| :: CountedPair(jobs, entries[i]) ==> CountedPair(jobs', entries[i]);
  }

  ghost predicate LogOk(s: World) {
    AttemptsDistinct(s.archive.queue.jobs, s.running, s.attemptLog)
  }

  lemma ClaimKeepsLog(env: Env, s: World, w: nat)
    requires JobRuns.SystemInv(JobView(s)) && LogOk(s)
    ensures LogOk(Apply(env, s, CommitClaim(w)))
  {
    var step := JobRuns.CommitClaim(w);
    JobRuns.IssuedByStep(JobView(s), step);
    CountersGrowInStep(JobView(s), step);
    StartedStaysDistinct(s, JobRuns.Issued(JobView(s), step), JobRuns.Apply(JobView(s), step).queue.jobs);
  }

  lemma PutKeepsLog(env: Env, s: World, t: nat)
    requires LogOk(s)
    ensures LogOk(Apply(env, s, Put(t)))
  {
    var u := Apply(env, s, Put(t));
    assert forall k | k in u.running :: k in s.running && PairOf(u.running[k]) == PairOf(s.running[k]);
  }

  lemma CountersGrowInOutbox(env: Env, s: World, step: Step)
    requires JobRuns.SystemInv(JobView(s))
    ensures CountersGrow(s.archive.queue.jobs, Apply(env, s, step).archive.queue.jobs)
  {
    var js := StepProjects(env, s, step);
    CountersGrowInRun(JobView(s), js);
  }

  lemma SettleKeepsLog(env: Env, s: World, step: Step)
    requires JobRuns.SystemInv(JobView(s)) && LogOk(s) && (step.CommitDone? || step.CommitFailed? || step.Crash?)
    ensures LogOk(Apply(env, s, step))
  {
    CountersGrowInOutbox(env, s, step);
    var u := Apply(env, s, step);
    GrowingStaysDistinct(s.archive.queue.jobs, u.archive.queue.jobs, s.running, s.attemptLog);
    SettledAtMostOne(env, s, step);
    if u != s && !step.Crash? {
      ClosingStaysDistinct(u.archive.queue.jobs, s.running, s.attemptLog, step.token);
    }
  }

  /** A settling step closes the handler it names, logging its attempt, or drops it, or does nothing. */
  lemma SettledAtMostOne(env: Env, s: World, step: Step)
    requires step.CommitDone? || step.CommitFailed? || step.Crash?
    ensures var u := Apply(env, s, step);
      u == s
      || (step.Crash? && u.running == s.running - {step.token} && u.attemptLog == s.attemptLog)
      || (!step.Crash? && step.token in s.running && u.running == s.running - {step.token}
          && u.attemptLog == s.attemptLog + [PairOf(s.running[step.token])])
  {
  }

  lemma StepKeepsLog(env: Env, s: World, step: Step)
    requires JobRuns.SystemInv(JobView(s)) && LogOk(s)
    ensures LogOk(Apply(env, s, step))
  {
    match step
    case CommitClaim(w) => ClaimKeepsLog(env, s, w);
    case Put(t) => PutKeepsLog(env, s, t);
    case CommitDone(_, _) => SettleKeepsLog(env, s, step);
    case CommitFailed(_, _, _, _) => SettleKeepsLog(env, s, step);
    case Crash(_) => SettleKeepsLog(env, s, step);
    case _ =>
      CountersGrowInOutbox(env, s, step);
      GrowingStaysDistinct(s.archive.queue.jobs, Apply(env, s, step).archive.queue.jobs, s.running, s.attemptLog);
  }

  /** No two recorded attempts of a run share job and attempt number, so the unique index on them is never violated. */
  lemma {:induction false} RecordedAttemptsNeverRepeat(env: Env, steps: seq<Step>)
    ensures LogOk(Run(env, START, steps))
    decreases |steps|
  {
    if steps != [] {
      var n := |steps| - 1;
      RecordedAttemptsNeverRepeat(env, steps[..n]);
      OutboxRuns.RunKeepsInv(env, steps[..n]);
      StepKeepsLog(env, Run(env, START, steps[..n]), steps[n]);
    }
  }
}
