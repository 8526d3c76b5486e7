/** Attachments and the job table together: finalizations are queued, claimed, run, lost and tried again. */
module AttachmentJobs {
  import opened Common
  import opened Bytes
  import opened Attachments
  import Jobs
  import JobRuns

  datatype Site = Site(world: World, jobs: JobRuns.System)

  const FRESH := Site(EMPTY, JobRuns.START)

  function FinalizeRequest(id: nat): Jobs.Request {
    Jobs.Request(Jobs.FinalizeAttachment(id), Some(Jobs.FinalizeKey(id)), 150, 8)
  }

  /** `Serve` is a request or the expiry sweep, `Tend` any statement on the job table that does not settle a
      finalization, `Handle` the end of a finalization handler, whoever runs it and whatever token it holds. */
  datatype Event =
    | Serve(step: Step)
    | Tend(statement: JobRuns.Step)
    | Handle(job: nat, token: nat, delay: int, at: int)

  predicate IsFinalizer(q: Jobs.Queue, j: nat) {
    j < |q.jobs| && q.jobs[j].task.FinalizeAttachment?
  }

  /** Other work: no finalization is inserted or settled by it. */
  predicate Tends(q: Jobs.Queue, statement: JobRuns.Step) {
    match statement
    case Insert(r, _, _) => !r.task.FinalizeAttachment? && !(r.dedupe.Some? && r.dedupe.value.FinalizeKey?)
    case Finish(j, _) => !IsFinalizer(q, j)
    case GiveUp(j, _, _, _, _) => !IsFinalizer(q, j)
    case _ => true
  }

  /** How the worker settles the job: done, not retryable, or to be tried again. */
  function Settlement(r: FinalizeResult, job: nat, token: nat, delay: int, at: int): JobRuns.Step {
    match r
    case ReadFailed => JobRuns.GiveUp(job, token, true, delay, at)
    case Gone => JobRuns.GiveUp(job, token, false, delay, at)
    case WrongState => JobRuns.GiveUp(job, token, false, delay, at)
    case _ => JobRuns.Finish(job, token)
  }

  predicate Queues(w: World, step: Step) {
    step.DoComplete? && Complete(w, step.id, step.user, step.sha, step.size, step.now).1 == Accepted
  }

  function Served(env: Env, s: Site, step: Step): Site {
    var jobs := if Queues(s.world, step)
                then JobRuns.Apply(s.jobs, JobRuns.Insert(FinalizeRequest(step.id), step.now, step.now))
                else s.jobs;
    Site(Apply(env, s.world, step), jobs)
  }

  function Next(env: Env, s: Site, e: Event): Site {
    match e
    case Serve(step) => if step.DoFinalize? then s else Served(env, s, step)
    case Tend(statement) =>
      if Tends(s.jobs.queue, statement) then s.(jobs := JobRuns.Apply(s.jobs, statement)) else s
    case Handle(job, token, delay, at) =>
      if IsFinalizer(s.jobs.queue, job) then
        var (w, r) := Finalize(env, s.world, s.jobs.queue.jobs[job].task.attachment);
        Site(w, JobRuns.Apply(s.jobs, Settlement(r, job, token, delay, at)))
      else s
  }

  function Course(env: Env, events: seq<Event>): Site {
    if events == [] then FRESH else Next(env, Course(env, events[..|events| - 1]), events[|events| - 1])
  }

  // ---------------------------------------------------------------- the invariant

  /** The finalization of attachment `i` is pending or running, or failed only after all its attempts. */
  ghost predicate Tried(q: Jobs.Queue, i: nat) {
    exists j :: TriedBy(q, i, j)
  }

  ghost predicate TriedBy(q: Jobs.Queue, i: nat, j: nat) {
    j < |q.jobs| && q.jobs[j].task == Jobs.FinalizeAttachment(i) && Jobs.WaitingOrSpent(q.jobs[j])
  }

  ghost predicate KeysNameTasks(q: Jobs.Queue) {
    forall j | 0 <= j < |q.jobs| && q.jobs[j].dedupe.Some? && q.jobs[j].dedupe.value.FinalizeKey? ::
      q.jobs[j].task == Jobs.FinalizeAttachment(q.jobs[j].dedupe.value.attachment)
  }

  ghost predicate QuarantinedAreTried(rows: seq<Attachment>, q: Jobs.Queue) {
    forall i | 0 <= i < |rows| && rows[i].state == Quarantine :: Tried(q, i)
  }

  ghost predicate SiteInv(s: Site) {
    && Inv(s.world) && JobRuns.SystemInv(s.jobs) && KeysNameTasks(s.jobs.queue)
    && QuarantinedAreTried(s.world.rows, s.jobs.queue)
  }

  /** Tasks and keys stay, new rows name their tasks, and every finalization being tried still is. */
  ghost predicate KeepsTrying(q: Jobs.Queue, r: Jobs.Queue) {
    && (KeysNameTasks(q) ==> KeysNameTasks(r))
    && forall i, j | TriedBy(q, i, j) :: TriedBy(r, i, j)
  }

  lemma TriedStays(rows: seq<Attachment>, q: Jobs.Queue, r: Jobs.Queue)
    requires QuarantinedAreTried(rows, q) && KeepsTrying(q, r)
    ensures QuarantinedAreTried(rows, r)
  {
    forall i | 0 <= i < |rows| && rows[i].state == Quarantine ensures Tried(r, i) {
      var j :| TriedBy(q, i, j);
      assert TriedBy(r, i, j);
    }
  }

  lemma TendingKeepsTrying(s: JobRuns.System, statement: JobRuns.Step)
    requires JobRuns.SystemInv(s) && Tends(s.queue, statement)
    ensures KeepsTrying(s.queue, JobRuns.Apply(s, statement).queue)
  {
    var t := JobRuns.Apply(s, statement);
    forall j | 0 <= j < |s.queue.jobs|
      ensures j < |t.queue.jobs| && t.queue.jobs[j].task == s.queue.jobs[j].task
      ensures t.queue.jobs[j].dedupe == s.queue.jobs[j].dedupe
      ensures IsFinalizer(s.queue, j) && Jobs.WaitingOrSpent(s.queue.jobs[j]) ==> Jobs.WaitingOrSpent(t.queue.jobs[j])
    {
      JobRuns.StepOnRow(s, statement, j);
      if IsFinalizer(s.queue, j) && Jobs.WaitingOrSpent(s.queue.jobs[j]) {
        TendedRow(s, statement, j);
      }
    }
    NewRowsAreOther(s, statement);
  }

  lemma TendedRow(s: JobRuns.System, statement: JobRuns.Step, j: nat)
    requires JobRuns.SystemInv(s) && Tends(s.queue, statement) && IsFinalizer(s.queue, j)
             && Jobs.WaitingOrSpent(s.queue.jobs[j])
    ensures j < |JobRuns.Apply(s, statement).queue.jobs|
    ensures Jobs.WaitingOrSpent(JobRuns.Apply(s, statement).queue.jobs[j])
  {
    match statement
    case CommitClaim(w) =>
      if w in s.open {
        Jobs.ClaimRowsEffect(s.queue, s.open[w].ids, w, s.open[w].now);
      }
    case _ =>
  }

  lemma NewRowsAreOther(s: JobRuns.System, statement: JobRuns.Step)
    requires JobRuns.SystemInv(s) && Tends(s.queue, statement)
    ensures var q := JobRuns.Apply(s, statement).queue;
      forall j | |s.queue.jobs| <= j < |q.jobs| :: !(q.jobs[j].dedupe.Some? && q.jobs[j].dedupe.value.FinalizeKey?)
  {
    match statement
    case CommitClaim(w) =>
      if w in s.open {
        Jobs.ClaimRowsEffect(s.queue, s.open[w].ids, w, s.open[w].now);
      }
    case _ =>
  }

  /** Enqueueing a finalization leaves one being tried, the new one or the live one it conflicts with. */
  lemma QueueingTries(q: Jobs.Queue, id: nat, now: int)
    requires KeysNameTasks(q)
    ensures var r := Jobs.Enqueue(q, FinalizeRequest(id), now, now).0; Tried(r, id) && KeepsTrying(q, r)
  {
    var r := Jobs.Enqueue(q, FinalizeRequest(id), now, now).0;
    var key := Some(Jobs.FinalizeKey(id));
    if Jobs.Conflicts(q.jobs, key) {
      var j :| 0 <= j < |q.jobs| && Jobs.Live(q.jobs[j]) && q.jobs[j].dedupe == key;
      assert TriedBy(r, id, j);
    } else {
      assert TriedBy(r, id, |q.jobs|);
      assert forall i, j | TriedBy(q, i, j) :: TriedBy(r, i, j);
    }
  }

  // ---------------------------------------------------------------- steps

  lemma ServingKeepsInv(env: Env, s: Site, step: Step)
    requires SiteInv(s) && !step.DoFinalize?
    ensures SiteInv(Served(env, s, step))
  {
    var t := Served(env, s, step);
    StepKeepsInv(env, s.world, step);
    if Queues(s.world, step) {
      QueueingTries(s.jobs.queue, step.id, step.now);
      JobRuns.StepKeepsInv(s.jobs, JobRuns.Insert(FinalizeRequest(step.id), step.now, step.now));
      TriedStays(s.world.rows, s.jobs.queue, t.jobs.queue);
    }
    OnlyCompletionQuarantines(env, s.world, step);
  }

  /** A request leaves a row in quarantine only if it was there before or was just accepted. */
  lemma OnlyCompletionQuarantines(env: Env, w: World, step: Step)
    requires !step.DoFinalize?
    ensures var t := Apply(env, w, step);
      forall i | 0 <= i < |t.rows| && t.rows[i].state == Quarantine ::
        (i < |w.rows| && w.rows[i].state == Quarantine) || (Queues(w, step) && i == step.id)
  {
  }

  /** After a finalization its row is out of quarantine, unless the read failed; no other row changes. */
  lemma FinalizingLeavesQuarantine(env: Env, w: World, id: nat)
    requires Inv(w)
    ensures var (t, r) := Finalize(env, w, id);
      && |t.rows| == |w.rows| && (forall i | 0 <= i < |w.rows| && i != id :: t.rows[i] == w.rows[i])
      && (id < |w.rows| && t.rows[id].state == Quarantine ==> r == ReadFailed && w.rows[id].state == Quarantine)
  {
    if id < |w.rows| {
      assert RowInv(w.objects, w.rows[id], id);
    }
  }

  /** Settling a finalization touches its own job only; after a failed read that one is still tried, or spent. */
  lemma SettlingKeepsTrying(s: JobRuns.System, r: FinalizeResult, job: nat, token: nat, delay: int, at: int,
                            i: nat, j: nat)
    requires JobRuns.SystemInv(s) && IsFinalizer(s.queue, job) && TriedBy(s.queue, i, j)
    requires r == ReadFailed || i != s.queue.jobs[job].task.attachment
    ensures TriedBy(JobRuns.Apply(s, Settlement(r, job, token, delay, at)).queue, i, j)
  {
  }

  lemma SettlingKeepsKeys(s: JobRuns.System, r: FinalizeResult, job: nat, token: nat, delay: int, at: int)
    requires KeysNameTasks(s.queue)
    ensures KeysNameTasks(JobRuns.Apply(s, Settlement(r, job, token, delay, at)).queue)
  {
  }

  lemma HandlingKeepsInv(env: Env, s: Site, job: nat, token: nat, delay: int, at: int)
    requires SiteInv(s) && IsFinalizer(s.jobs.queue, job)
    ensures SiteInv(Next(env, s, Handle(job, token, delay, at)))
  {
    var id := s.jobs.queue.jobs[job].task.attachment;
    var (w, r) := Finalize(env, s.world, id);
    var t := Next(env, s, Handle(job, token, delay, at));
    FinalizeKeepsRows(env, s.world, id);
    FinalizingLeavesQuarantine(env, s.world, id);
    JobRuns.StepKeepsInv(s.jobs, Settlement(r, job, token, delay, at));
    SettlingKeepsKeys(s.jobs, r, job, token, delay, at);
    forall i | 0 <= i < |w.rows| && w.rows[i].state == Quarantine ensures Tried(t.jobs.queue, i) {
      assert s.world.rows[i].state == Quarantine && Tried(s.jobs.queue, i);
      var j :| TriedBy(s.jobs.queue, i, j);
      SettlingKeepsTrying(s.jobs, r, job, token, delay, at, i, j);
    }
  }

  lemma TendingKeepsInv(env: Env, s: Site, statement: JobRuns.Step)
    requires SiteInv(s) && Tends(s.jobs.queue, statement)
    ensures SiteInv(s.(jobs := JobRuns.Apply(s.jobs, statement)))
  {
    JobRuns.StepKeepsInv(s.jobs, statement);
    TendingKeepsTrying(s.jobs, statement);
    TriedStays(s.world.rows, s.jobs.queue, JobRuns.Apply(s.jobs, statement).queue);
  }

  lemma EventKeepsInv(env: Env, s: Site, e: Event)
    requires SiteInv(s)
    ensures SiteInv(Next(env, s, e))
  {
    match e
    case Serve(step) =>
      if !step.DoFinalize? { ServingKeepsInv(env, s, step); }
    case Tend(statement) =>
      if Tends(s.jobs.queue, statement) { TendingKeepsInv(env, s, statement); }
    case Handle(job, token, delay, at) =>
      if IsFinalizer(s.jobs.queue, job) { HandlingKeepsInv(env, s, job, token, delay, at); }
  }

  // ---------------------------------------------------------------- main results

  lemma {:induction false} CourseKeepsInv(env: Env, events: seq<Event>)
    ensures SiteInv(Course(env, events))
    decreases |events|
  {
    if events != [] {
      var front := events[..|events| - 1];
      CourseKeepsInv(env, front);
      EventKeepsInv(env, Course(env, front), events[|events| - 1]);
    }
  }

  /** In every interleaving, a quarantined attachment has a finalization that is pending or running, or that failed only
      after all its attempts. */
  lemma {:induction false} QuarantinedIsTriedToTheEnd(env: Env, events: seq<Event>, i: nat)
    requires var rows := Course(env, events).world.rows; i < |rows| && rows[i].state == Quarantine
    ensures Tried(Course(env, events).jobs.queue, i)
  {
    CourseKeepsInv(env, events);
  }

  /** What an event does to the attachments alone is one of their own steps, or nothing. */
  function AsStep(s: Site, e: Event): Option<Step> {
    match e
    case Serve(step) => if step.DoFinalize? then None else Some(step)
    case Tend(_) => None
    case Handle(job, _, _, _) =>
      if IsFinalizer(s.jobs.queue, job) then Some(DoFinalize(s.jobs.queue.jobs[job].task.attachment)) else None
  }

  /** Every course is, on the attachments, a run of their own machine: clean means verified here too, and for ever. */
  lemma {:induction false} CourseProjects(env: Env, events: seq<Event>) returns (steps: seq<Step>)
    ensures Run(env, EMPTY, steps) == Course(env, events).world
    decreases |events|
  {
    steps := [];
    if events != [] {
      var front := events[..|events| - 1];
      steps := CourseProjects(env, front);
      match AsStep(Course(env, front), events[|events| - 1]) {
        case None =>
        case Some(step) =>
          assert (steps + [step])[..|steps|] == steps;
          steps := steps + [step];
      }
    }
  }
}
