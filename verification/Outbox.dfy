/** The transactional outbox: ingestion writes an event and its archive job in one transaction; workers later
    write the event to S3 and mark it. Every interleaving of the sessions involved is a run of this machine.

    The S3 put is outside the database: it takes effect at once and survives a crash, while the mark and the job's
    completion commit together afterwards or not at all. */
module Outbox {
  import opened Common
  import opened Identity
  import opened Ingestion
  import opened ArchiveInvariant
  import opened ArchiveRuns
  import Jobs
  import JobRuns

  /** What the archive handler writes: the columns of an event that never change. */
  datatype Document = Document(event: nat, conversation: nat, message: Option<nat>, idempotencyKey: string, body: Body)

  /** A handler in progress: the job it was claimed for, its attempt number, whether its put has happened. */
  datatype Execution = Execution(job: nat, attempt: nat, uploaded: bool)

  datatype World = World(
    archive: Archive,
    open: map<nat, JobRuns.OpenClaim>,
    running: map<nat, Execution>,
    store: map<ObjectKey, Document>,
    attemptLog: seq<(nat, nat)>)

  datatype Step =
    | Transact(action: Action)
    | Insert(request: Jobs.Request, at: int)
    | BeginClaim(worker: nat, limit: nat, at: int)
    | CommitClaim(worker: nat)
    | AbortClaim(worker: nat)
    | Put(token: nat)
    | CommitDone(token: nat, at: int)
    | CommitFailed(token: nat, retryable: bool, delay: int, at: int)
    | Crash(token: nat)
    | RecoverStale(cutoff: int, at: int)

  const START := World(EMPTY, map[], map[], map[], [])

  function JobView(s: World): JobRuns.System {
    JobRuns.System(s.archive.queue, s.open)
  }

  function WithJobs(s: World, j: JobRuns.System): World {
    s.(archive := s.archive.(queue := j.queue), open := j.open)
  }

  function DocumentOf(s: Archive, e: nat): Document
    requires e < |s.events|
  {
    var row := s.events[e];
    Document(e, row.conversation, row.message, row.idempotencyKey, row.body)
  }

  predicate Archived(e: Event) {
    e.archivedAt.Some? && e.rawKey.Some?
  }

  function Started(running: map<nat, Execution>, claims: seq<Jobs.Claim>): map<nat, Execution> {
    if claims == [] then running
    else
      var c := claims[|claims| - 1];
      Started(running, claims[..|claims| - 1])[c.token := Execution(c.job, c.attempt, false)]
  }

  /** The event a running handler archives, if its job is an archive job for an existing event. */
  function EventOf(s: World, x: Execution): Option<nat> {
    if x.job < |s.archive.queue.jobs| && s.archive.queue.jobs[x.job].task.ArchiveRawEvent?
       && s.archive.queue.jobs[x.job].task.event < |s.archive.events|
    then Some(s.archive.queue.jobs[x.job].task.event)
    else None
  }

  predicate JobIsArchive(s: World, x: Execution) {
    x.job < |s.archive.queue.jobs| && s.archive.queue.jobs[x.job].task.ArchiveRawEvent?
  }

  function MarkedVersion(v: Version, e: nat): Version {
    if v.captureEvent == e then v.(rawKey := Some(RawEventKey(e))) else v
  }

  function MarkArchived(s: Archive, e: nat, at: int): Archive
    requires e < |s.events|
  {
    s.(events := s.events[e := s.events[e].(rawKey := Some(RawEventKey(e)), archivedAt := Some(at))],
       versions := if s.events[e].message.None? then s.versions
                   else seq(|s.versions|, i requires 0 <= i < |s.versions| => MarkedVersion(s.versions[i], e)))
  }

  predicate OtherWork(r: Jobs.Request) {
    r.task.OtherTask? && (r.dedupe.Some? ==> r.dedupe.value.NamedKey?)
  }

  /** The handler's session ends: its attempt row is committed with everything else. */
  function Closed(s: World, token: nat, q: Jobs.Queue): World
    requires token in s.running
  {
    var x := s.running[token];
    s.(running := s.running - {token}, attemptLog := s.attemptLog + [(x.job, x.attempt)],
      archive := s.archive.(queue := q))
  }

  /** A handler returns: after its own put, or finding the event already archived. */
  function Done(s: World, token: nat, at: int): World
    requires token in s.running
  {
    var x := s.running[token];
    var closed := Closed(s, token, Jobs.Complete(s.archive.queue, x.job, token));
    match EventOf(s, x)
    case None => if JobIsArchive(s, x) then s else closed
    case Some(e) =>
      if x.uploaded then closed.(archive := MarkArchived(closed.archive, e, at))
      else if Archived(s.archive.events[e]) then closed
      else s
  }

  function Apply(env: Env, s: World, step: Step): World {
    match step
    case Transact(action) => s.(archive := Act(env, s.archive, action))
    case Insert(r, at) => if OtherWork(r) then WithJobs(s, JobRuns.Apply(JobView(s), JobRuns.Insert(r, at, at))) else s
    case BeginClaim(w, limit, at) => WithJobs(s, JobRuns.Apply(JobView(s), JobRuns.BeginClaim(w, limit, at)))
    case CommitClaim(w) =>
      WithJobs(s, JobRuns.Apply(JobView(s), JobRuns.CommitClaim(w)))
        .(running := Started(s.running, JobRuns.Issued(JobView(s), JobRuns.CommitClaim(w))))
    case AbortClaim(w) => WithJobs(s, JobRuns.Apply(JobView(s), JobRuns.AbortClaim(w)))
    case Put(t) =>
      if t in s.running && EventOf(s, s.running[t]).Some? then
        var e := EventOf(s, s.running[t]).value;
        s.(store := s.store[RawEventKey(e) := DocumentOf(s.archive, e)],
           running := s.running[t := s.running[t].(uploaded := true)])
      else s
    case CommitDone(t, at) => if t in s.running then Done(s, t, at) else s
    case CommitFailed(t, retryable, delay, at) =>
      // The archive handler gives up for good only when its event row is missing.
      if t !in s.running || (!retryable && EventOf(s, s.running[t]).Some?) then s
      else Closed(s, t, Jobs.Fail(s.archive.queue, s.running[t].job, t, retryable, delay, at))
    case Crash(t) => s.(running := s.running - {t})
    case RecoverStale(cutoff, at) => WithJobs(s, JobRuns.Apply(JobView(s), JobRuns.RecoverStale(cutoff, at)))
  }

  function Run(env: Env, s: World, steps: seq<Step>): World {
    if steps == [] then s else Apply(env, Run(env, s, steps[..|steps| - 1]), steps[|steps| - 1])
  }

  // ---------------------------------------------------------------- the invariant

  ghost predicate HasArchiveJob(jobs: seq<Jobs.Job>, e: nat) {
    exists j :: 0 <= j < |jobs| && jobs[j].task == Jobs.ArchiveRawEvent(e)
  }

  /** Jobs and events: every event has its archive job; archive jobs and keys name existing events; a succeeded
      archive job's event is archived, and no archive job is ever dead. */
  ghost predicate Owed(jobs: seq<Jobs.Job>, events: seq<Event>) {
    && (forall e | 0 <= e < |events| :: HasArchiveJob(jobs, e))
    && (forall j | 0 <= j < |jobs| ::
         && (jobs[j].task.ArchiveRawEvent? ==>
              && jobs[j].task.event < |events| && jobs[j].status != Jobs.Dead
              && (jobs[j].status == Jobs.Succeeded ==> Archived(events[jobs[j].task.event])))
         && (jobs[j].dedupe.Some? && jobs[j].dedupe.value.ArchiveKey? ==> jobs[j].dedupe.value.event < |events|))
  }

  /** What S3 holds is what the events say, and a marked event or version is there. */
  ghost predicate StoreFaithful(s: Archive, store: map<ObjectKey, Document>) {
    && (forall k | k in store :: k.event < |s.events| && store[k] == DocumentOf(s, k.event))
    && (forall e | 0 <= e < |s.events| ::
         && (s.events[e].rawKey.Some? <==> s.events[e].archivedAt.Some?)
         && (s.events[e].rawKey.Some? ==> s.events[e].rawKey == Some(RawEventKey(e)) && RawEventKey(e) in store))
    && (forall v | 0 <= v < |s.versions| && s.versions[v].captureEvent < |s.events| ::
         s.versions[v].rawKey == s.events[s.versions[v].captureEvent].rawKey)
  }

  /** Handlers in progress hold tokens already drawn, for rows that exist; an uploaded document is in S3. */
  ghost predicate RunningOk(s: World) {
    forall t | t in s.running ::
      && t < s.archive.queue.nextToken && s.running[t].job < |s.archive.queue.jobs|
      && (s.running[t].uploaded ==>
        EventOf(s, s.running[t]).Some? && RawEventKey(EventOf(s, s.running[t]).value) in s.store)
  }

  ghost predicate WorldInv(s: World) {
    && Inv(s.archive) && JobRuns.SystemInv(JobView(s))
    && Owed(s.archive.queue.jobs, s.archive.events)
    && StoreFaithful(s.archive, s.store)
    && RunningOk(s)
  }

  // ---------------------------------------------------------------- what an ingestion transaction adds

  /** `q` grew to `q'` by pending rows only, whose archive tasks and keys name events in [lo, hi). */
  ghost predicate JobsAdded(q: Jobs.Queue, q': Jobs.Queue, lo: nat, hi: nat) {
    && |q.jobs| <= |q'.jobs| && q'.nextToken == q.nextToken && q'.jobs[..|q.jobs|] == q.jobs
    && forall j | |q.jobs| <= j < |q'.jobs| ::
         && q'.jobs[j].status == Jobs.Pending
         && (q'.jobs[j].task.ArchiveRawEvent? ==> lo <= q'.jobs[j].task.event < hi)
         && (q'.jobs[j].dedupe.Some? && q'.jobs[j].dedupe.value.ArchiveKey? ==>
           lo <= q'.jobs[j].dedupe.value.event < hi)
  }

  lemma JobsAddedTransitive(p: Jobs.Queue, q: Jobs.Queue, r: Jobs.Queue, lo: nat, hi: nat)
    requires JobsAdded(p, q, lo, hi) && JobsAdded(q, r, lo, hi)
    ensures JobsAdded(p, r, lo, hi)
  {
    forall j | 0 <= j < |p.jobs| ensures r.jobs[j] == p.jobs[j] {
      assert r.jobs[j] == r.jobs[..|q.jobs|][j] && q.jobs[j] == q.jobs[..|p.jobs|][j];
    }
    forall j | |p.jobs| <= j < |q.jobs| ensures r.jobs[j] == q.jobs[j] {
      assert r.jobs[j] == r.jobs[..|q.jobs|][j];
    }
  }

  /** What a transaction does to the outbox tables: nothing but add pending jobs, at most one event with its
      archive job, and at most one version recorded by that event. */
  ghost predicate Grown(s: Archive, t: Archive) {
    && |s.events| <= |t.events| <= |s.events| + 1 && t.events[..|s.events|] == s.events
    && (|t.events| > |s.events| ==> t.events[|s.events|].rawKey.None? && t.events[|s.events|].archivedAt.None?
                                    && HasArchiveJob(t.queue.jobs, |s.events|))
    && JobsAdded(s.queue, t.queue, |s.events|, |t.events|)
    && |s.versions| <= |t.versions|
    && (forall v | 0 <= v < |s.versions| ::
      t.versions[v].rawKey == s.versions[v].rawKey && t.versions[v].captureEvent == s.versions[v].captureEvent)
    && (forall v | |s.versions| <= v < |t.versions| ::
      t.versions[v].rawKey.None? && t.versions[v].captureEvent == |s.events|)
  }

  /** No row's dedupe key names an event that does not exist yet. */
  ghost predicate KeysBelow(q: Jobs.Queue, n: nat) {
    forall j | 0 <= j < |q.jobs| && q.jobs[j].dedupe.Some? && q.jobs[j].dedupe.value.ArchiveKey? ::
      q.jobs[j].dedupe.value.event < n
  }

  lemma EnqueueOther(s: Archive, task: Jobs.Task, key: Jobs.DedupeKey, priority: nat, now: int, lo: nat, hi: nat)
    requires !task.ArchiveRawEvent? && !key.ArchiveKey?
    ensures JobsAdded(s.queue, Enqueue(s, task, key, priority, now).queue, lo, hi)
  {
  }

  lemma RecordEventGrows(s: Archive, c: nat, m: Option<nat>, key: string, body: Body, now: int)
    requires KeysBelow(s.queue, |s.events|)
    ensures var t := RecordEvent(s, c, m, key, body, now);
      JobsAdded(s.queue, t.queue, |s.events|, |s.events| + 1) && HasArchiveJob(t.queue.jobs, |s.events|)
  {
    var t := RecordEvent(s, c, m, key, body, now);
    assert !Jobs.Conflicts(s.queue.jobs, Some(Jobs.ArchiveKey(|s.events|)));
    assert t.queue.jobs[|s.queue.jobs|].task == Jobs.ArchiveRawEvent(|s.events|);
  }

  lemma ArchiveJobKept(q: Jobs.Queue, r: Jobs.Queue, lo: nat, hi: nat, e: nat)
    requires JobsAdded(q, r, lo, hi) && HasArchiveJob(q.jobs, e)
    ensures HasArchiveJob(r.jobs, e)
  {
    var j :| 0 <= j < |q.jobs| && q.jobs[j].task == Jobs.ArchiveRawEvent(e);
    assert r.jobs[j] == r.jobs[..|q.jobs|][j];
  }

  lemma AppendVersionGrows(env: Env, s: Archive, c: nat, m: nat, p: Payload, now: int)
    requires c < |s.conversations| && m < |s.messages| && KeysBelow(s.queue, |s.events|)
    ensures Grown(s, AppendVersion(env, s, c, m, p, now))
  {
    AppendVersionAddsJobs(env, s, c, m, p, now);
    AppendVersionAddsEvent(env, s, c, m, p, now);
  }

  lemma AppendVersionAddsEvent(env: Env, s: Archive, c: nat, m: nat, p: Payload, now: int)
    requires c < |s.conversations| && m < |s.messages|
    ensures var t := AppendVersion(env, s, c, m, p, now);
      && |t.events| == |s.events| + 1 && t.events[..|s.events|] == s.events
      && t.events[|s.events|].rawKey.None? && t.events[|s.events|].archivedAt.None?
      && |t.versions| == |s.versions| + 1 && t.versions[..|s.versions|] == s.versions
      && t.versions[|s.versions|].rawKey.None? && t.versions[|s.versions|].captureEvent == |s.events|
  {
  }

  lemma AppendVersionAddsJobs(env: Env, s: Archive, c: nat, m: nat, p: Payload, now: int)
    requires c < |s.conversations| && m < |s.messages| && KeysBelow(s.queue, |s.events|)
    ensures var q := AppendVersion(env, s, c, m, p, now).queue;
      JobsAdded(s.queue, q, |s.events|, |s.events| + 1) && HasArchiveJob(q.jobs, |s.events|)
  {
    var n := |s.events|;
    var s1 := AppendRows(env, s, c, m, p, now);
    var s2 := RecordEvent(s1, c, Some(m), p.key, MessageBody(p), now);
    RecordEventGrows(s1, c, Some(m), p.key, MessageBody(p), now);
    var s3 := SetResult(s2, p.key, ResultRef(Some(c), Some(m), Some(|s.versions|)));
    AddsOther(s.queue, s3, Jobs.BuildSnapshot(c), Jobs.SnapshotKey(c), 200, now, n);
    var s4 := MarkSnapshotStale(s3, c, now);
    AddsOther(s.queue, s4, Jobs.ReconcilePartial(m), Jobs.ReconcileKey(m), 400, now, n);
  }

  /** One more job of another kind, after an event's archive job. */
  lemma AddsOther(q: Jobs.Queue, s: Archive, task: Jobs.Task, key: Jobs.DedupeKey, priority: nat, now: int, n: nat)
    requires !task.ArchiveRawEvent? && !key.ArchiveKey?
    requires JobsAdded(q, s.queue, n, n + 1) && HasArchiveJob(s.queue.jobs, n)
    ensures var r := Enqueue(s, task, key, priority, now).queue; JobsAdded(q, r, n, n + 1) && HasArchiveJob(r.jobs, n)
  {
    var r := Enqueue(s, task, key, priority, now).queue;
    EnqueueOther(s, task, key, priority, now, n, n + 1);
    JobsAddedTransitive(q, s.queue, r, n, n + 1);
    ArchiveJobKept(s.queue, r, n, n + 1, n);
  }

  lemma SeenAgainGrows(s: Archive, c: nat, m: nat, v: nat, p: Payload, now: int)
    requires c < |s.conversations| && m < |s.messages| && v < |s.versions|
    ensures Grown(s, SeenAgain(s, c, m, v, p, now))
  {
    EnqueueOther(s, Jobs.BuildSnapshot(c), Jobs.SnapshotKey(c), 200, now, |s.events|, |s.events|);
  }

  lemma IngestGrows(env: Env, s: Archive, p: Payload, now: int)
    requires KeysBelow(s.queue, |s.events|)
    ensures Grown(s, Ingest(env, s, p, now).0)
  {
    if p.declared == Sha256(p.text) {
      var (s1, c) := GetOrCreateConversation(env, s, p.conversation, NO_DETAILS, LiveOnly, now);
      if p.key !in s1.keys {
        var (s2, m) := Prepare(env, s1, c, p, now);
        if FindVersion(s2, m, ContentHash(env, p.text)).Some? || DistinctPartIndexes(KeptParts(p)) {
          StoreContentGrows(env, s2, c, m, p, now);
          GrownFrom(s, s2, StoreContent(env, s2, c, m, p, now).0);
        }
      }
    }
  }

  lemma StoreContentGrows(env: Env, s: Archive, c: nat, m: nat, p: Payload, now: int)
    requires c < |s.conversations| && m < |s.messages| && KeysBelow(s.queue, |s.events|)
    requires FindVersion(s, m, ContentHash(env, p.text)).None? ==> DistinctPartIndexes(KeptParts(p))
    ensures Grown(s, StoreContent(env, s, c, m, p, now).0)
  {
    match FindVersion(s, m, ContentHash(env, p.text))
    case Some(v) => SeenAgainGrows(s, c, m, v, p, now);
    case None => AppendVersionGrows(env, s, c, m, p, now);
  }

  /** Growth looks at events, versions and jobs only. */
  lemma GrownFrom(s: Archive, u: Archive, t: Archive)
    requires Grown(u, t) && s.events == u.events && s.versions == u.versions && s.queue == u.queue
    ensures Grown(s, t)
  {
  }

  lemma UpsertGrows(env: Env, s: Archive, u: Upsert, now: int)
    requires KeysBelow(s.queue, |s.events|)
    ensures Grown(s, UpsertConversation(env, s, u, now))
  {
    var (s1, c) := GetOrCreateConversation(env, s, u.conversation, u.details, u.coverage, now);
    if u.key !in s.keys {
      var n := |s.events|;
      var s2 := s1.(keys := s1.keys[u.key := KeyRow(now, ResultRef(Some(c), None, None))]);
      var s3 := RecordEvent(s2, c, None, u.key, UpsertBody(u), now);
      RecordEventGrows(s2, c, None, u.key, UpsertBody(u), now);
      EnqueueOther(s3, Jobs.BuildSnapshot(c), Jobs.SnapshotKey(c), 200, now, n, n + 1);
      var s4 := MarkSnapshotStale(s3, c, now);
      JobsAddedTransitive(s.queue, s3.queue, s4.queue, n, n + 1);
      ArchiveJobKept(s3.queue, s4.queue, n, n + 1, n);
    }
  }

  lemma ActGrows(env: Env, s: Archive, a: Action)
    requires KeysBelow(s.queue, |s.events|) && (a.ReconcileJob? ==> Reconcile(s, a.message) == s)
    ensures Grown(s, Act(env, s, a))
  {
    match a
    case Deliver(p, at) => IngestGrows(env, s, p, at);
    case DeliverUpsert(u, at) => UpsertGrows(env, s, u, at);
    case Import(source, eventTime, at) =>
    case Prune(cutoff) =>
    case ReconcileJob(m) =>
  }
}
