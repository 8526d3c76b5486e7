/** What one delivery writes, table by table, and what it leaves alone.

    An accepted delivery, a duplicate and a replay each have a predicate over the archive before and after that names
    every column; the lemmas follow the order in which the service settles conversation, key, branch, message row,
    content and jobs. */
module IngestEffects {
  import opened Common
  import opened Identity
  import opened Ingestion
  import opened ArchiveInvariant
  import opened Deduplication
  import Jobs

  ghost predicate LiveJob(jobs: seq<Jobs.Job>, key: Jobs.DedupeKey) {
    exists j :: 0 <= j < |jobs| && Jobs.Live(jobs[j]) && jobs[j].dedupe == Some(key)
  }

  /** The one new version: the cleaned text under the next number, recorded by the one new event. */
  ghost predicate VersionWritten(env: Env, s: Archive, t: Archive, c: nat, m: nat, v: nat, p: Payload) {
    && v == |s.versions| && |t.versions| == v + 1 && t.versions[..v] == s.versions
    && t.versions[v].message == m && t.versions[v].plainText == env.clean(p.text)
    && t.versions[v].contentHash == Sha256(p.text) && t.versions[v].normalizedHash == ContentHash(env, p.text)
    && t.versions[v].completion == p.completion && t.versions[v].rawKey.None?
    && (t.versions[v].isEdit <==> p.isEdit || (t.versions[v].number > 1 && p.role == User))
    && (t.versions[v].isRegeneration <==> p.isRegeneration || (t.versions[v].number > 1 && p.role == Assistant))
    && PartsWritten(env, t.versions[v].parts, p.parts)
    && t.versions[v].captureEvent == |s.events| && |t.events| == |s.events| + 1 && t.events[..|s.events|] == s.events
    && t.events[|s.events|] == Event(c, Some(m), p.key, MessageBody(p), None, None)
  }

  /** The first 500 parts in order, each with its text cleaned, an empty text dropped. */
  ghost predicate PartsWritten(env: Env, stored: seq<Part>, sent: seq<Part>) {
    && |stored| == (if |sent| < 500 then |sent| else 500)
    && forall i | 0 <= i < |stored| ::
      && stored[i].index == sent[i].index && stored[i].kind == sent[i].kind
      && (stored[i].text.Some? <==> sent[i].text.Some? && sent[i].text.value != "")
      && (stored[i].text.Some? ==> stored[i].text.value == env.clean(sent[i].text.value))
  }

  /** A known row keeps its identity; a capture fills its gaps and moves it to where it was last seen. */
  ghost predicate RowFilled(a: Message, b: Message, p: Payload) {
    && b.conversation == a.conversation && b.role == a.role && b.fingerprint == a.fingerprint
    && b.source == (if a.source.Some? then a.source else p.source)
    && b.sourceCreatedAt == (if a.sourceCreatedAt.Some? then a.sourceCreatedAt else p.sourceCreatedAt)
    && (a.branch.Some? ==> b.branch == a.branch)
    && b.sequenceIndex == p.sequenceIndex && (b.hasAttachments <==> a.hasAttachments || p.hasAttachments)
  }

  /** The message row: new at the end or the recognised one, one version richer, its newest version current. */
  ghost predicate MessageWritten(env: Env, s: Archive, t: Archive, c: nat, m: nat, v: nat, p: Payload) {
    && m < |t.messages| && t.messages[m].conversation == c
    && (if m < |s.messages| then Recognised(env, s, p) == Some(m) && |t.messages| == |s.messages|
                                 && t.messages[m].versionCount == s.messages[m].versionCount + 1
                                 && RowFilled(s.messages[m], t.messages[m], p)
        else Recognised(env, s, p).None? && m == |s.messages| && |t.messages| == m + 1
             && t.messages[m].versionCount == 1
             && t.messages[m].fingerprint
               == MessageFingerprint(env, c, p.role, p.text, p.sequenceIndex, p.sourceCreatedAt)
             && t.messages[m].source == p.source && t.messages[m].role == p.role
             && t.messages[m].sourceCreatedAt == p.sourceCreatedAt && t.messages[m].hasAttachments == p.hasAttachments)
    && t.messages[m].completion
      == (if p.completion == Complete || (m < |s.messages| && s.messages[m].completion == Complete) then Complete
          else p.completion)
    && t.messages[m].currentVersion == Some(v) && v < |t.versions| && t.versions[v].number == t.messages[m].versionCount
    && t.messages[m].sequenceIndex == p.sequenceIndex
    && (forall i | 0 <= i < |s.messages| && i != m :: i < |t.messages| && t.messages[i] == s.messages[i])
  }

  /** The conversation: found or new, counting one message more exactly when a row was added; others untouched. */
  ghost predicate ConversationWritten(s: Archive, t: Archive, c: nat, source: string, added: bool, now: int) {
    && c < |t.conversations| && t.conversations[c].source == source
    && |s.conversations| <= |t.conversations| <= |s.conversations| + 1
    && (c < |s.conversations| ==> |t.conversations| == |s.conversations|)
    && t.conversations[c].messageCount
      == (if c < |s.conversations| then s.conversations[c].messageCount else 0) + (if added then 1 else 0)
    && t.conversations[c].lastCapturedAt == now && t.conversations[c].snapshotStale
    && (forall i | 0 <= i < |s.conversations| && i != c ::
      i < |t.conversations| && t.conversations[i] == s.conversations[i])
  }

  /** Afterwards the jobs that the delivery calls for are live: the event's, the snapshot's, a partial message's. */
  ghost predicate JobsOwed(t: Archive, c: nat, m: nat, e: nat, p: Payload) {
    && LiveJob(t.queue.jobs, Jobs.ArchiveKey(e)) && LiveJob(t.queue.jobs, Jobs.SnapshotKey(c))
    && (p.completion == Partial ==> LiveJob(t.queue.jobs, Jobs.ReconcileKey(m)))
  }

  /** A fresh job under `key`: the work the key names, due at once, with eight attempts. */
  ghost predicate IsJobFor(job: Jobs.Job, key: Jobs.DedupeKey, now: int) {
    && job.status == Jobs.Pending && job.dedupe == Some(key) && job.attempts == 0 && job.maxAttempts == 8
    && job.runAfter == now && job.createdAt == now
    && job.lockedAt.None? && job.lockedBy.None? && job.lockToken.None?
    && match key
       case ArchiveKey(e) => job.task == Jobs.ArchiveRawEvent(e) && job.priority == 50
       case SnapshotKey(c) => job.task == Jobs.BuildSnapshot(c) && job.priority == 200
       case ReconcileKey(m) => job.task == Jobs.ReconcilePartial(m) && job.priority == 400
       case _ => false
  }

  /** Jobs already in the table stay as they are, and the new ones are fresh jobs for the keys named. */
  ghost predicate OnlyJobsAdded(q: Jobs.Queue, r: Jobs.Queue, keys: set<Jobs.DedupeKey>, now: int) {
    && |q.jobs| <= |r.jobs| && r.nextToken == q.nextToken
    && (forall j | 0 <= j < |q.jobs| :: r.jobs[j] == q.jobs[j])
    && forall j | |q.jobs| <= j < |r.jobs| ::
      r.jobs[j].dedupe.Some? && r.jobs[j].dedupe.value in keys && IsJobFor(r.jobs[j], r.jobs[j].dedupe.value, now)
  }

  /** The branch named, if one is, is there with the selection sent; every other branch is as before. */
  ghost predicate BranchWritten(s: Archive, t: Archive, c: nat, p: Payload) {
    if p.branchKey.None? || p.branchKey.value == "" then t.branches == s.branches
    else
      var found := FindBranch(t, c, p.branchKey.value);
      && found.Some? && t.branches[found.value].selected == p.branchSelected
      && |t.branches| == (if found.value < |s.branches| then |s.branches| else |s.branches| + 1)
      && forall i | 0 <= i < |s.branches| && i != found.value :: t.branches[i] == s.branches[i]
  }

  /** What any capture does to its conversation: keeps what it shows, raises coverage to at least live, fills in
      owner and browser source. */
  ghost predicate ConversationTouched(env: Env, s: Archive, t: Archive, c: nat) {
    && c < |t.conversations|
    && (if c < |s.conversations| then
          var a, b := s.conversations[c], t.conversations[c];
          && b.shown == a.shown && b.coverage == (if a.coverage == UnknownCoverage then LiveOnly else a.coverage)
          && b.user == (if a.user.Some? then a.user else Some(env.user))
          && b.sources == (if ChromeExtension in a.sources then a.sources else a.sources + [ChromeExtension])
        else
          var b := t.conversations[c];
          b.shown == NO_DETAILS && b.coverage == LiveOnly && b.user == Some(env.user) && b.sources == [ChromeExtension])
  }

  /** The message's branch: the one it had, else the one the capture names, if any. */
  ghost predicate BranchLinked(s: Archive, t: Archive, c: nat, m: nat, p: Payload) {
    && m < |t.messages|
    && var b := t.messages[m].branch;
       if m < |s.messages| && s.messages[m].branch.Some? then b == s.messages[m].branch
       else if p.branchKey.None? || p.branchKey.value == "" then b.None?
       else b.Some? && b.value < |t.branches| && t.branches[b.value].conversation == c
            && t.branches[b.value].key == p.branchKey.value
  }

  lemma EnqueueAddsOnly(q: Jobs.Queue, s: Archive, task: Jobs.Task, key: Jobs.DedupeKey, priority: nat, now: int,
                        keys: set<Jobs.DedupeKey>)
    requires OnlyJobsAdded(q, s.queue, keys, now) && key in keys
    requires key.ArchiveKey? ==> task == Jobs.ArchiveRawEvent(key.event) && priority == 50
    requires key.SnapshotKey? ==> task == Jobs.BuildSnapshot(key.conversation) && priority == 200
    requires key.ReconcileKey? ==> task == Jobs.ReconcilePartial(key.message) && priority == 400
    requires key.ArchiveKey? || key.SnapshotKey? || key.ReconcileKey?
    ensures OnlyJobsAdded(q, Enqueue(s, task, key, priority, now).queue, keys, now)
  {
  }

  lemma AppendAddsOnly(env: Env, s: Archive, c: nat, m: nat, p: Payload, now: int)
    requires c < |s.conversations| && m < |s.messages|
    ensures OnlyJobsAdded(s.queue, AppendVersion(env, s, c, m, p, now).queue,
                          {Jobs.ArchiveKey(|s.events|), Jobs.SnapshotKey(c), Jobs.ReconcileKey(m)}, now)
  {
    var e := |s.events|;
    var keys := {Jobs.ArchiveKey(e), Jobs.SnapshotKey(c), Jobs.ReconcileKey(m)};
    var s1 := AppendRows(env, s, c, m, p, now);
    EnqueueAddsOnly(s.queue, s1, Jobs.ArchiveRawEvent(e), Jobs.ArchiveKey(e), 50, now, keys);
    var s2 := RecordEvent(s1, c, Some(m), p.key, MessageBody(p), now);
    var s3 := SetResult(s2, p.key, ResultRef(Some(c), Some(m), Some(|s.versions|)));
    EnqueueAddsOnly(s.queue, s3, Jobs.BuildSnapshot(c), Jobs.SnapshotKey(c), 200, now, keys);
    var s4 := MarkSnapshotStale(s3, c, now);
    EnqueueAddsOnly(s.queue, s4, Jobs.ReconcilePartial(m), Jobs.ReconcileKey(m), 400, now, keys);
  }

  lemma PreparationTouches(env: Env, s: Archive, p: Payload, now: int)
    ensures var (s1, c) := GetOrCreateConversation(env, s, p.conversation, NO_DETAILS, LiveOnly, now);
      var s2 := Prepare(env, s1, c, p, now).0;
      ConversationTouched(env, s, s2, c) && BranchWritten(s, s2, c, p) && s2.conversations == s1.conversations
  {
    var (s1, c) := GetOrCreateConversation(env, s, p.conversation, NO_DETAILS, LiveOnly, now);
    var s2 := ResolveBranch(ClaimKey(s1, p.key, c, now), c, p).0;
    BranchResolved(ClaimKey(s1, p.key, c, now), c, p);
    assert BranchWritten(s, s2, c, p);
  }

  lemma BranchResolved(s: Archive, c: nat, p: Payload)
    ensures BranchWritten(s, ResolveBranch(s, c, p).0, c, p)
  {
    if p.branchKey.Some? && p.branchKey.value != "" {
      var t := ResolveBranch(s, c, p).0;
      var key := p.branchKey.value;
      match FindBranch(s, c, key)
      case Some(b) =>
        assert forall i | 0 <= i < b :: t.branches[i] == s.branches[i];
        assert forall i | 0 <= i < b :: !(s.branches[i].conversation == c && s.branches[i].key == key);
        assert t.branches[b].conversation == c && t.branches[b].key == key;
        assert FindBranch(t, c, key) == Some(b);
      case None =>
        assert forall i | 0 <= i < |s.branches| :: t.branches[i] == s.branches[i];
        assert forall i | 0 <= i < |s.branches| :: !(s.branches[i].conversation == c && s.branches[i].key == key);
        assert t.branches[|s.branches|] == Branch(c, key, p.branchSelected);
        assert FindBranch(t, c, key) == Some(|s.branches|);
    }
  }

  lemma AcceptedLeavesAlone(env: Env, s: Archive, p: Payload, now: int)
    requires p.key !in s.keys && Ingest(env, s, p, now).1.Accepted?
    ensures var (t, o) := Ingest(env, s, p, now);
      && BranchWritten(s, t, o.conversation, p) && ConversationTouched(env, s, t, o.conversation)
      && OnlyJobsAdded(s.queue, t.queue,
                       {Jobs.ArchiveKey(|s.events|), Jobs.SnapshotKey(o.conversation), Jobs.ReconcileKey(o.message)},
                       now)
  {
    var (s1, c) := GetOrCreateConversation(env, s, p.conversation, NO_DETAILS, LiveOnly, now);
    var (s2, m) := Prepare(env, s1, c, p, now);
    PreparationTouches(env, s, p, now);
    AppendTouches(env, s, s2, c, m, p, now);
    assert s2.queue == s.queue && s2.events == s.events;
    AppendAddsOnly(env, s2, c, m, p, now);
  }

  lemma AppendTouches(env: Env, s: Archive, u: Archive, c: nat, m: nat, p: Payload, now: int)
    requires c < |u.conversations| && m < |u.messages| && ConversationTouched(env, s, u, c) && BranchWritten(s, u, c, p)
    ensures ConversationTouched(env, s, AppendVersion(env, u, c, m, p, now), c)
    ensures BranchWritten(s, AppendVersion(env, u, c, m, p, now), c, p)
  {
  }

  lemma EnqueueMakesLive(s: Archive, task: Jobs.Task, key: Jobs.DedupeKey, priority: nat, now: int)
    ensures LiveJob(Enqueue(s, task, key, priority, now).queue.jobs, key)
  {
    var t := Enqueue(s, task, key, priority, now);
    if Jobs.Conflicts(s.queue.jobs, Some(key)) {
      assert LiveJob(s.queue.jobs, key);
    } else {
      assert t.queue.jobs[|s.queue.jobs|].dedupe == Some(key) && Jobs.Live(t.queue.jobs[|s.queue.jobs|]);
    }
  }

  lemma EnqueueKeepsLive(s: Archive, task: Jobs.Task, key: Jobs.DedupeKey, priority: nat, now: int,
                         other: Jobs.DedupeKey)
    requires LiveJob(s.queue.jobs, other)
    ensures LiveJob(Enqueue(s, task, key, priority, now).queue.jobs, other)
  {
    var j :| 0 <= j < |s.queue.jobs| && Jobs.Live(s.queue.jobs[j]) && s.queue.jobs[j].dedupe == Some(other);
    assert Enqueue(s, task, key, priority, now).queue.jobs[j] == s.queue.jobs[j];
  }

  lemma AppendOwesJobs(env: Env, s: Archive, c: nat, m: nat, p: Payload, now: int)
    requires c < |s.conversations| && m < |s.messages|
    ensures JobsOwed(AppendVersion(env, s, c, m, p, now), c, m, |s.events|, p)
  {
    var e := |s.events|;
    var s1 := AppendRows(env, s, c, m, p, now);
    var s2 := RecordEvent(s1, c, Some(m), p.key, MessageBody(p), now);
    EnqueueMakesLive(s1, Jobs.ArchiveRawEvent(e), Jobs.ArchiveKey(e), 50, now);
    var s3 := SetResult(s2, p.key, ResultRef(Some(c), Some(m), Some(|s.versions|)));
    var s4 := MarkSnapshotStale(s3, c, now);
    EnqueueMakesLive(s3, Jobs.BuildSnapshot(c), Jobs.SnapshotKey(c), 200, now);
    EnqueueKeepsLive(s3, Jobs.BuildSnapshot(c), Jobs.SnapshotKey(c), 200, now, Jobs.ArchiveKey(e));
    EnqueueMakesLive(s4, Jobs.ReconcilePartial(m), Jobs.ReconcileKey(m), 400, now);
    EnqueueKeepsLive(s4, Jobs.ReconcilePartial(m), Jobs.ReconcileKey(m), 400, now, Jobs.ArchiveKey(e));
    EnqueueKeepsLive(s4, Jobs.ReconcilePartial(m), Jobs.ReconcileKey(m), 400, now, Jobs.SnapshotKey(c));
  }

  /** The prepared archive against the one before: what `Ingest` has settled when the content's turn comes. */
  ghost predicate Settled(env: Env, s: Archive, u: Archive, c: nat, m: nat, p: Payload, now: int) {
    && u.versions == s.versions && u.events == s.events && u.queue == s.queue
    && u.keys == s.keys[p.key := KeyRow(now, ResultRef(Some(c), None, None))]
    && c < |u.conversations| && u.conversations[c].source == p.conversation
    && (if c < |s.conversations|
        then |u.conversations| == |s.conversations|
          && u.conversations[c].messageCount == s.conversations[c].messageCount
        else |u.conversations| == |s.conversations| + 1 && u.conversations[c].messageCount == 0)
    && (forall i | 0 <= i < |s.conversations| && i != c ::
      i < |u.conversations| && u.conversations[i] == s.conversations[i])
    && RowSettled(env, s, u, c, m, p)
  }

  ghost predicate RowSettled(env: Env, s: Archive, u: Archive, c: nat, m: nat, p: Payload) {
    && m < |u.messages| && u.messages[m].conversation == c && u.messages[m].sequenceIndex == p.sequenceIndex
    && (if m < |s.messages| then Recognised(env, s, p) == Some(m) && |u.messages| == |s.messages|
                                 && u.messages[m].versionCount == s.messages[m].versionCount
                                 && u.messages[m].completion == s.messages[m].completion
                                 && RowFilled(s.messages[m], u.messages[m], p)
        else Recognised(env, s, p).None? && m == |s.messages| && |u.messages| == m + 1
             && u.messages[m] == NewMessage(c, u.messages[m].branch, FingerprintOf(env, c, p), p))
    && (forall i | 0 <= i < |s.messages| && i != m :: i < |u.messages| && u.messages[i] == s.messages[i])
  }

  lemma PreparationSettles(env: Env, s: Archive, p: Payload, now: int)
    requires Linked(|s.conversations|, s.messages, s.versions)
    ensures var (s1, c) := GetOrCreateConversation(env, s, p.conversation, NO_DETAILS, LiveOnly, now);
      var (s2, m) := Prepare(env, s1, c, p, now);
      Settled(env, s, s2, c, m, p, now)
  {
    var (s1, c) := GetOrCreateConversation(env, s, p.conversation, NO_DETAILS, LiveOnly, now);
    var (s2, m) := Prepare(env, s1, c, p, now);
    PreparedRow(env, s, p, now);
    LookupUnaffected(env, s, p, now);
    ArchiveStepsFound(env, s, s1, c, p, now);
    assert RowSettled(env, s, s2, c, m, p);
  }

  lemma ArchiveStepsFound(env: Env, s: Archive, s1: Archive, c: nat, p: Payload, now: int)
    requires Linked(|s.conversations|, s.messages, s.versions)
    requires (s1, c) == GetOrCreateConversation(env, s, p.conversation, NO_DETAILS, LiveOnly, now)
    ensures var u, fp := ClaimKey(s1, p.key, c, now), FingerprintOf(env, c, p);
      var found := FindMessage(u, c, p, fp, ContentHash(env, p.text));
      found.Some? ==> found.value < |s.messages| && s.messages[found.value].conversation == c
  {
  }

  /** An accepted delivery writes exactly one version, its event, its message row, its conversation, its branch, its key
      and the jobs these call for. */
  lemma {:induction false} AcceptedWrites(env: Env, s: Archive, p: Payload, now: int)
    requires Linked(|s.conversations|, s.messages, s.versions)
    requires p.key !in s.keys && Ingest(env, s, p, now).1.Accepted?
    ensures AcceptedAsWritten(env, s, p, now, Ingest(env, s, p, now).0, Ingest(env, s, p, now).1)
  {
    AcceptedRows(env, s, p, now);
    AcceptedLeavesAlone(env, s, p, now);
    BranchIsLinked(env, s, p, now);
  }

  /** Storing an item links its message to the branch it names, unless it has one. */
  lemma BranchIsLinked(env: Env, s: Archive, p: Payload, now: int)
    requires Linked(|s.conversations|, s.messages, s.versions) && p.key !in s.keys
    ensures var (t, o) := Ingest(env, s, p, now);
      o.Accepted? || o.Duplicate? ==> BranchLinked(s, t, o.conversation, o.message, p)
  {
    if p.declared == Sha256(p.text) {
      var (s1, c) := GetOrCreateConversation(env, s, p.conversation, NO_DETAILS, LiveOnly, now);
      var (s2, m) := Prepare(env, s1, c, p, now);
      PreparationLinks(env, s, s1, c, p, now);
      if FindVersion(s2, m, ContentHash(env, p.text)).Some? || DistinctPartIndexes(KeptParts(p)) {
        StoringKeepsLink(env, s, s2, c, m, p, now);
      }
    }
  }

  lemma PreparationLinks(env: Env, s: Archive, s1: Archive, c: nat, p: Payload, now: int)
    requires Linked(|s.conversations|, s.messages, s.versions)
    requires (s1, c) == GetOrCreateConversation(env, s, p.conversation, NO_DETAILS, LiveOnly, now)
    ensures BranchLinked(s, Prepare(env, s1, c, p, now).0, c, Prepare(env, s1, c, p, now).1, p)
  {
    ArchiveStepsFound(env, s, s1, c, p, now);
    BranchFoundOrAdded(ClaimKey(s1, p.key, c, now), c, p);
  }

  lemma BranchFoundOrAdded(s: Archive, c: nat, p: Payload)
    ensures var (t, b) := ResolveBranch(s, c, p);
      && t.messages == s.messages
      && if p.branchKey.None? || p.branchKey.value == "" then b.None?
         else b.Some? && b.value < |t.branches| && t.branches[b.value].conversation == c
              && t.branches[b.value].key == p.branchKey.value
  {
  }

  lemma StoringKeepsLink(env: Env, s: Archive, u: Archive, c: nat, m: nat, p: Payload, now: int)
    requires c < |u.conversations| && m < |u.messages| && BranchLinked(s, u, c, m, p)
    requires FindVersion(u, m, ContentHash(env, p.text)).None? ==> DistinctPartIndexes(KeptParts(p))
    ensures var (t, o) := StoreContent(env, u, c, m, p, now);
      o.conversation == c && o.message == m && BranchLinked(s, t, c, m, p)
  {
  }

  ghost predicate AcceptedAsWritten(env: Env, s: Archive, p: Payload, now: int, t: Archive, o: Outcome) {
    && o.Accepted?
    && VersionWritten(env, s, t, o.conversation, o.message, o.version, p)
    && MessageWritten(env, s, t, o.conversation, o.message, o.version, p)
    && ConversationWritten(s, t, o.conversation, p.conversation,
                           o.message >= |s.messages| || s.messages[o.message].versionCount == 0, now)
    && ConversationTouched(env, s, t, o.conversation) && BranchWritten(s, t, o.conversation, p)
    && t.keys == s.keys[p.key := KeyRow(now, ResultRef(Some(o.conversation), Some(o.message), Some(o.version)))]
    && JobsOwed(t, o.conversation, o.message, |s.events|, p)
    && OnlyJobsAdded(s.queue, t.queue,
                     {Jobs.ArchiveKey(|s.events|), Jobs.SnapshotKey(o.conversation), Jobs.ReconcileKey(o.message)}, now)
    && BranchLinked(s, t, o.conversation, o.message, p)
  }

  lemma AcceptedRows(env: Env, s: Archive, p: Payload, now: int)
    requires Linked(|s.conversations|, s.messages, s.versions)
    requires p.key !in s.keys && Ingest(env, s, p, now).1.Accepted?
    ensures var (t, o) := Ingest(env, s, p, now);
      && VersionWritten(env, s, t, o.conversation, o.message, o.version, p)
      && MessageWritten(env, s, t, o.conversation, o.message, o.version, p)
      && ConversationWritten(s, t, o.conversation, p.conversation,
                             o.message >= |s.messages| || s.messages[o.message].versionCount == 0, now)
      && t.keys == s.keys[p.key := KeyRow(now, ResultRef(Some(o.conversation), Some(o.message), Some(o.version)))]
      && JobsOwed(t, o.conversation, o.message, |s.events|, p)
  {
    var (s1, c) := GetOrCreateConversation(env, s, p.conversation, NO_DETAILS, LiveOnly, now);
    var (s2, m) := Prepare(env, s1, c, p, now);
    PreparationSettles(env, s, p, now);
    AppendWrites(env, s, s2, c, m, p, now);
    AcceptedIsAppended(env, s, p, now);
  }

  lemma AcceptedIsAppended(env: Env, s: Archive, p: Payload, now: int)
    requires p.key !in s.keys && Ingest(env, s, p, now).1.Accepted?
    ensures var (s1, c) := GetOrCreateConversation(env, s, p.conversation, NO_DETAILS, LiveOnly, now);
      var (s2, m) := Prepare(env, s1, c, p, now);
      Ingest(env, s, p, now) == (AppendVersion(env, s2, c, m, p, now), Accepted(c, m, |s2.versions|))
  {
  }

  lemma AppendWrites(env: Env, s: Archive, u: Archive, c: nat, m: nat, p: Payload, now: int)
    requires Settled(env, s, u, c, m, p, now)
    ensures var t := AppendVersion(env, u, c, m, p, now);
      && VersionWritten(env, s, t, c, m, |s.versions|, p)
      && MessageWritten(env, s, t, c, m, |s.versions|, p)
      && ConversationWritten(s, t, c, p.conversation, m >= |s.messages| || s.messages[m].versionCount == 0, now)
      && t.keys == s.keys[p.key := KeyRow(now, ResultRef(Some(c), Some(m), Some(|s.versions|)))]
      && JobsOwed(t, c, m, |s.events|, p)
  {
    AppendWritesVersion(env, s, u, c, m, p, now);
    AppendWritesKey(env, s, u, c, m, p, now);
    AppendWritesMessage(env, s, u, c, m, p, now);
    AppendWritesConversation(env, s, u, c, m, p, now);
    AppendOwesJobs(env, u, c, m, p, now);
  }

  lemma AppendWritesVersion(env: Env, s: Archive, u: Archive, c: nat, m: nat, p: Payload, now: int)
    requires Settled(env, s, u, c, m, p, now)
    ensures VersionWritten(env, s, AppendVersion(env, u, c, m, p, now), c, m, |s.versions|, p)
  {
    var t := AppendVersion(env, u, c, m, p, now);
    AppendedRowsAre(env, u, c, m, p, now);
    NewVersionParts(env, m, u.messages[m].versionCount + 1, |u.events|, p);
    assert t.versions[|s.versions|] == NewVersion(env, m, u.messages[m].versionCount + 1, |u.events|, p);
  }

  lemma AppendedRowsAre(env: Env, u: Archive, c: nat, m: nat, p: Payload, now: int)
    requires c < |u.conversations| && m < |u.messages|
    ensures var t := AppendVersion(env, u, c, m, p, now);
      && t.versions == u.versions + [NewVersion(env, m, u.messages[m].versionCount + 1, |u.events|, p)]
      && t.events == u.events + [Event(c, Some(m), p.key, MessageBody(p), None, None)]
  {
  }

  lemma AppendWritesKey(env: Env, s: Archive, u: Archive, c: nat, m: nat, p: Payload, now: int)
    requires Settled(env, s, u, c, m, p, now)
    ensures AppendVersion(env, u, c, m, p, now).keys
         == s.keys[p.key := KeyRow(now, ResultRef(Some(c), Some(m), Some(|s.versions|)))]
  {
  }

  lemma NewVersionParts(env: Env, m: nat, number: nat, event: nat, p: Payload)
    ensures PartsWritten(env, NewVersion(env, m, number, event, p).parts, p.parts)
  {
  }

  lemma AppendWritesMessage(env: Env, s: Archive, u: Archive, c: nat, m: nat, p: Payload, now: int)
    requires Settled(env, s, u, c, m, p, now)
    ensures MessageWritten(env, s, AppendVersion(env, u, c, m, p, now), c, m, |s.versions|, p)
  {
    AppendedMessage(env, u, c, m, p, now);
    MessageGainsVersion(env, s, u, AppendVersion(env, u, c, m, p, now), c, m, p);
  }

  lemma AppendedMessage(env: Env, u: Archive, c: nat, m: nat, p: Payload, now: int)
    requires c < |u.conversations| && m < |u.messages|
    ensures var t := AppendVersion(env, u, c, m, p, now);
      && t.messages == u.messages[m := WithVersion(u.messages[m], |u.versions|, p.completion)]
      && |t.versions| == |u.versions| + 1 && t.versions[|u.versions|].number == u.messages[m].versionCount + 1
  {
  }

  lemma MessageGainsVersion(env: Env, s: Archive, u: Archive, t: Archive, c: nat, m: nat, p: Payload)
    requires RowSettled(env, s, u, c, m, p) && |t.versions| == |s.versions| + 1
    requires t.messages == u.messages[m := WithVersion(u.messages[m], |s.versions|, p.completion)]
    requires t.versions[|s.versions|].number == u.messages[m].versionCount + 1
    ensures MessageWritten(env, s, t, c, m, |s.versions|, p)
  {
  }

  lemma AppendWritesConversation(env: Env, s: Archive, u: Archive, c: nat, m: nat, p: Payload, now: int)
    requires Settled(env, s, u, c, m, p, now)
    ensures ConversationWritten(s, AppendVersion(env, u, c, m, p, now), c, p.conversation,
                                m >= |s.messages| || s.messages[m].versionCount == 0, now)
  {
  }

  /** A duplicate writes no event and no new row but its key: the version seen again is
      promoted from partial to reconciled when the capture is complete, and is otherwise unchanged. */
  ghost predicate OnlySeenAgain(s: Archive, t: Archive, m: nat, v: nat, p: Payload, reconciled: bool) {
    && t.events == s.events && |t.messages| == |s.messages| && m < |s.messages| && v < |s.versions| == |t.versions|
    && s.versions[v].message == m && (reconciled <==> s.versions[v].completion == Partial && p.completion == Complete)
    && (forall i | 0 <= i < |s.versions| ::
          t.versions[i] == if i == v && reconciled then s.versions[i].(completion := Reconciled) else s.versions[i])
    && (forall i | 0 <= i < |s.messages| && i != m :: t.messages[i] == s.messages[i])
    && t.messages[m].versionCount == s.messages[m].versionCount
    && t.messages[m].currentVersion == s.messages[m].currentVersion
    && t.messages[m].completion == (if reconciled then Complete else s.messages[m].completion)
    && RowFilled(s.messages[m], t.messages[m], p)
    && (!reconciled ==> t.queue == s.queue)
  }

  /** The conversation of content seen again: touched as by any capture, and stale only if it was or the version was
      promoted; no other conversation changes. */
  ghost predicate ConversationSeen(env: Env, s: Archive, t: Archive, c: nat, reconciled: bool, now: int) {
    && c < |s.conversations| == |t.conversations| && ConversationTouched(env, s, t, c)
    && t.conversations[c].messageCount == s.conversations[c].messageCount && t.conversations[c].lastCapturedAt == now
    && (t.conversations[c].snapshotStale <==> reconciled || s.conversations[c].snapshotStale)
    && forall i | 0 <= i < |s.conversations| && i != c :: t.conversations[i] == s.conversations[i]
  }

  /** A promotion leaves a snapshot job live and adds no other job; without one the jobs are as before. */
  ghost predicate JobsSeen(s: Archive, t: Archive, c: nat, reconciled: bool, now: int) {
    if reconciled
    then LiveJob(t.queue.jobs, Jobs.SnapshotKey(c)) && OnlyJobsAdded(s.queue, t.queue, {Jobs.SnapshotKey(c)}, now)
    else t.queue == s.queue
  }

  /** The same row, stale as well if `reconciled`. */
  ghost predicate MaybeStale(a: Conversation, b: Conversation, reconciled: bool) {
    b == a.(snapshotStale := reconciled || a.snapshotStale)
  }

  lemma SeenAgainTouches(env: Env, s: Archive, u: Archive, c: nat, m: nat, v: nat, p: Payload, now: int)
    requires c < |u.conversations| && m < |u.messages| && v < |u.versions|
    requires ConversationTouched(env, s, u, c) && BranchWritten(s, u, c, p) && u.queue == s.queue
    ensures var t := SeenAgain(u, c, m, v, p, now);
      && ConversationTouched(env, s, t, c) && BranchWritten(s, t, c, p) && JobsSeen(s, t, c, Promotes(u, v, p), now)
      && |t.conversations| == |u.conversations|
      && MaybeStale(u.conversations[c], t.conversations[c], Promotes(u, v, p))
      && forall i | 0 <= i < |u.conversations| && i != c :: t.conversations[i] == u.conversations[i]
  {
    var ref := ResultRef(Some(c), Some(m), Some(v));
    if Promotes(u, v, p) {
      var w := SetResult(Promote(u, m, v), p.key, ref);
      EnqueueMakesLive(w, Jobs.BuildSnapshot(c), Jobs.SnapshotKey(c), 200, now);
      EnqueueAddsOnly(s.queue, w, Jobs.BuildSnapshot(c), Jobs.SnapshotKey(c), 200, now, {Jobs.SnapshotKey(c)});
    }
  }

  lemma DuplicateLeavesAlone(env: Env, s: Archive, p: Payload, now: int)
    requires Linked(|s.conversations|, s.messages, s.versions)
    requires p.key !in s.keys && Ingest(env, s, p, now).1.Duplicate?
    ensures var (t, o) := Ingest(env, s, p, now);
      && BranchWritten(s, t, o.conversation, p) && ConversationSeen(env, s, t, o.conversation, o.reconciled, now)
      && JobsSeen(s, t, o.conversation, o.reconciled, now)
  {
    var (s1, c) := GetOrCreateConversation(env, s, p.conversation, NO_DETAILS, LiveOnly, now);
    var (s2, m) := Prepare(env, s1, c, p, now);
    PreparationTouches(env, s, p, now);
    PreparationSettles(env, s, p, now);
    var v := FindVersion(s2, m, ContentHash(env, p.text)).value;
    SeenAgainTouches(env, s, s2, c, m, v, p, now);
    KnownMessageKnownConversation(env, s, s1, s2, c, m, p, now);
  }

  lemma KnownMessageKnownConversation(env: Env, s: Archive, s1: Archive, u: Archive, c: nat, m: nat, p: Payload,
                                      now: int)
    requires Linked(|s.conversations|, s.messages, s.versions)
    requires (s1, c) == GetOrCreateConversation(env, s, p.conversation, NO_DETAILS, LiveOnly, now)
    requires (u, m) == Prepare(env, s1, c, p, now) && Settled(env, s, u, c, m, p, now)
    requires FindVersion(u, m, ContentHash(env, p.text)).Some?
    ensures m < |s.messages| && c < |s.conversations| && u.conversations == s1.conversations
    ensures s1.conversations[c] == Touched(env, s.conversations[c], NO_DETAILS, LiveOnly, now)
  {
    var v := FindVersion(u, m, ContentHash(env, p.text)).value;
    assert s.versions[v].message == m;
  }

  /** A duplicate writes only its key, the recognised message's gaps, its conversation and branch, and a promotion. */
  lemma {:induction false} DuplicateWrites(env: Env, s: Archive, p: Payload, now: int)
    requires Linked(|s.conversations|, s.messages, s.versions)
    requires p.key !in s.keys && Ingest(env, s, p, now).1.Duplicate?
    ensures DuplicateAsWritten(env, s, p, now, Ingest(env, s, p, now).0, Ingest(env, s, p, now).1)
  {
    DuplicateRows(env, s, p, now);
    DuplicateLeavesAlone(env, s, p, now);
    DuplicateIsRecognised(env, s, p, now);
    BranchIsLinked(env, s, p, now);
  }

  lemma DuplicateIsRecognised(env: Env, s: Archive, p: Payload, now: int)
    requires Linked(|s.conversations|, s.messages, s.versions)
    requires p.key !in s.keys && Ingest(env, s, p, now).1.Duplicate?
    ensures var o := Ingest(env, s, p, now).1;
      && Recognised(env, s, p) == Some(o.message)
      && o.conversation < |s.conversations| && s.conversations[o.conversation].source == p.conversation
  {
    var (s1, c) := GetOrCreateConversation(env, s, p.conversation, NO_DETAILS, LiveOnly, now);
    var (s2, m) := Prepare(env, s1, c, p, now);
    PreparationSettles(env, s, p, now);
    KnownMessageKnownConversation(env, s, s1, s2, c, m, p, now);
    PreparedRow(env, s, p, now);
  }

  // ---------------------------------------------------------------- replays

  /** A delivery under a claimed key writes nothing but its conversation's row, which any capture touches, and is
      answered with that conversation and what the key has stored. */
  lemma ReplayWrites(env: Env, s: Archive, p: Payload, now: int)
    requires p.declared == Sha256(p.text) && p.key in s.keys
    ensures var (t, o) := Ingest(env, s, p, now);
      && o.Replay? && o.result == s.keys[p.key].result
      && t == s.(conversations := t.conversations)
      && ConversationTouched(env, s, t, o.conversation) && t.conversations[o.conversation].source == p.conversation
      && t.conversations[o.conversation].lastCapturedAt == now
      && (o.conversation < |s.conversations| ==>
            var a, b := s.conversations[o.conversation], t.conversations[o.conversation];
            b.messageCount == a.messageCount && b.snapshotStale == a.snapshotStale)
      && |s.conversations| <= |t.conversations| <= |s.conversations| + 1
      && forall i | 0 <= i < |s.conversations| && i != o.conversation :: t.conversations[i] == s.conversations[i]
  {
  }

  ghost predicate DuplicateAsWritten(env: Env, s: Archive, p: Payload, now: int, t: Archive, o: Outcome) {
    && o.Duplicate?
    && OnlySeenAgain(s, t, o.message, o.version, p, o.reconciled)
    && s.versions[o.version].normalizedHash == Sha256(env.normalize(p.text))
    && Recognised(env, s, p) == Some(o.message)
    && ConversationSeen(env, s, t, o.conversation, o.reconciled, now) && BranchWritten(s, t, o.conversation, p)
    && s.conversations[o.conversation].source == p.conversation
    && JobsSeen(s, t, o.conversation, o.reconciled, now) && BranchLinked(s, t, o.conversation, o.message, p)
    && t.keys == s.keys[p.key := KeyRow(now, ResultRef(Some(o.conversation), Some(o.message), Some(o.version)))]
  }

  lemma DuplicateRows(env: Env, s: Archive, p: Payload, now: int)
    requires Linked(|s.conversations|, s.messages, s.versions)
    requires p.key !in s.keys && Ingest(env, s, p, now).1.Duplicate?
    ensures var (t, o) := Ingest(env, s, p, now);
      && OnlySeenAgain(s, t, o.message, o.version, p, o.reconciled)
      && s.versions[o.version].normalizedHash == ContentHash(env, p.text)
      && t.keys == s.keys[p.key := KeyRow(now, ResultRef(Some(o.conversation), Some(o.message), Some(o.version)))]
  {
    var (s1, c) := GetOrCreateConversation(env, s, p.conversation, NO_DETAILS, LiveOnly, now);
    var (s2, m) := Prepare(env, s1, c, p, now);
    PreparationSettles(env, s, p, now);
    var v := FindVersion(s2, m, ContentHash(env, p.text)).value;
    assert s.versions[v].message == m;
    RefreshedKeepsHistory(env, s, p, now);
    SeenAgainRows(env, s, s2, c, m, v, p, now);
  }

  /** The columns that seeing content again must keep. */
  ghost predicate SameHistory(a: Message, b: Message) {
    && b.conversation == a.conversation && b.role == a.role && b.fingerprint == a.fingerprint
    && b.currentVersion == a.currentVersion && b.versionCount == a.versionCount && b.completion == a.completion
  }

  lemma SeenAgainRows(env: Env, s: Archive, u: Archive, c: nat, m: nat, v: nat, p: Payload, now: int)
    requires Settled(env, s, u, c, m, p, now) && m < |s.messages| && SameHistory(s.messages[m], u.messages[m])
    requires v < |s.versions| && s.versions[v].message == m
    ensures var t := SeenAgain(u, c, m, v, p, now);
      && OnlySeenAgain(s, t, m, v, p, Promotes(u, v, p))
      && t.keys == s.keys[p.key := KeyRow(now, ResultRef(Some(c), Some(m), Some(v)))]
  {
  }

  lemma RefreshedKeepsHistory(env: Env, s: Archive, p: Payload, now: int)
    requires Linked(|s.conversations|, s.messages, s.versions)
    ensures var (s1, c) := GetOrCreateConversation(env, s, p.conversation, NO_DETAILS, LiveOnly, now);
      var (s2, m) := Prepare(env, s1, c, p, now);
      m < |s.messages| ==> SameHistory(s.messages[m], s2.messages[m])
  {
    PreparedRow(env, s, p, now);
    LookupUnaffected(env, s, p, now);
  }
}
