/** What upserts, imports, prunings and the reconcile job write, column by column. */
module StatementEffects {
  import opened Common
  import opened Identity
  import opened Ingestion
  import opened ArchiveInvariant
  import opened IngestEffects
  import opened NewestFirst
  import ArchiveRuns
  import Jobs

  // ---------------------------------------------------------------- conversation upserts

  ghost predicate KnownAs(s: Archive, c: nat, source: string) {
    ConversationsUnique(s.conversations) && c < |s.conversations| && s.conversations[c].source == source
  }

  ghost predicate Unknown(s: Archive, source: string) {
    forall i | 0 <= i < |s.conversations| :: s.conversations[i].source != source
  }

  predicate IsText(text: Option<string>) {
    text.Some? && |text.value| > 0
  }

  /** At most the first 2048 characters. */
  ghost predicate CutTo2048(url: string, stored: string) {
    stored <= url && |stored| == if |url| < 2048 then |url| else 2048
  }

  /** A non-empty text replaces the one shown, an absent or empty one leaves it; the creation time stays. */
  ghost predicate DetailsReplaced(env: Env, a: Details, d: Details, b: Details) {
    && b.title == (if IsText(d.title) then Some(env.clean(d.title.value)) else a.title)
    && (if IsText(d.url) then b.url.Some? && CutTo2048(d.url.value, b.url.value) else b.url == a.url)
    && b.model == (if IsText(d.model) then d.model else a.model)
    && b.createdAt == a.createdAt
    && b.updatedAt == (if d.updatedAt.Some? then d.updatedAt else a.updatedAt)
  }

  /** The stronger of the two, unless the claim is compliance coverage, which a browser cannot make. */
  ghost predicate CoverageAfter(a: Coverage, claimed: Coverage, b: Coverage) {
    if claimed == ComplianceVerified || Rank(claimed) <= Rank(a) then b == a else b == claimed
  }

  ghost predicate ConversationReplaced(env: Env, a: Conversation, u: Upsert, stale: bool, now: int, b: Conversation) {
    && b.source == a.source && DetailsReplaced(env, a.shown, u.details, b.shown)
    && CoverageAfter(a.coverage, u.coverage, b.coverage)
    && b.user == (if a.user.Some? then a.user else Some(env.user))
    && b.sources == (if ChromeExtension in a.sources then a.sources else a.sources + [ChromeExtension])
    && b.messageCount == a.messageCount && b.snapshotStale == (stale || a.snapshotStale) && b.lastCapturedAt == now
  }

  /** A conversation captured for the first time: the model and creation time as sent, the rest as an upsert of a
      conversation that shows nothing. */
  ghost predicate ConversationCreated(env: Env, u: Upsert, now: int, b: Conversation) {
    && b.source == u.conversation && b.shown.model == u.details.model && b.shown.createdAt == u.details.createdAt
    && DetailsReplaced(env, NO_DETAILS, u.details, b.shown.(model := if IsText(u.details.model) then u.details.model
                                                                    else None, createdAt := None))
    && CoverageAfter(UnknownCoverage, u.coverage, b.coverage)
    && b.user == Some(env.user) && b.sources == [ChromeExtension]
    && b.messageCount == 0 && b.snapshotStale && b.lastCapturedAt == now
  }

  /** Row `c` is replaced, or appended, and no other conversation changes; nor do messages, versions and branches. */
  ghost predicate OnlyConversation(s: Archive, t: Archive, c: nat) {
    && t.messages == s.messages && t.versions == s.versions && t.branches == s.branches
    && c < |t.conversations| && |t.conversations| == (if c < |s.conversations| then |s.conversations| else c + 1)
    && c <= |s.conversations|
    && forall i | 0 <= i < |s.conversations| && i != c :: t.conversations[i] == s.conversations[i]
  }

  /** The upsert's one event, its claimed key, and its archive and snapshot jobs. */
  ghost predicate UpsertRecorded(s: Archive, u: Upsert, now: int, t: Archive, c: nat) {
    && t.events == s.events + [Event(c, None, u.key, UpsertBody(u), None, None)]
    && t.keys == s.keys[u.key := KeyRow(now, ResultRef(Some(c), None, None))]
    && OnlyJobsAdded(s.queue, t.queue, {Jobs.ArchiveKey(|s.events|), Jobs.SnapshotKey(c)}, now)
    && LiveJob(t.queue.jobs, Jobs.ArchiveKey(|s.events|)) && LiveJob(t.queue.jobs, Jobs.SnapshotKey(c))
  }

  /** What the conversation row becomes. */
  ghost predicate UpsertApplied(env: Env, s: Archive, u: Upsert, now: int, t: Archive, c: nat) {
    && OnlyConversation(s, t, c)
    && if c < |s.conversations|
       then ConversationReplaced(env, s.conversations[c], u, u.key !in s.keys, now, t.conversations[c])
       else ConversationCreated(env, u, now, t.conversations[c])
  }

  /** An upsert of a known conversation replaces its row, and of an unknown one appends it. Under a fresh key it is
      recorded; under a claimed key no event, key or job changes. */
  lemma UpsertWrites(env: Env, s: Archive, u: Upsert, now: int, c: nat)
    requires KnownAs(s, c, u.conversation) || (Unknown(s, u.conversation) && c == |s.conversations|)
    ensures var t := UpsertConversation(env, s, u, now);
      && UpsertApplied(env, s, u, now, t, c)
      && if u.key in s.keys then t.events == s.events && t.keys == s.keys && t.queue == s.queue
         else UpsertRecorded(s, u, now, t, c)
  {
    assert FindConversation(s, u.conversation) == if c < |s.conversations| then Some(c) else None;
    var s1 := GetOrCreateConversation(env, s, u.conversation, u.details, u.coverage, now).0;
    RowIsApplied(env, s, u, now, c);
    if u.key !in s.keys {
      var s2 := s1.(keys := s1.keys[u.key := KeyRow(now, ResultRef(Some(c), None, None))]);
      RecordingUpsert(s2, u, now, c);
    }
  }

  lemma RowIsApplied(env: Env, s: Archive, u: Upsert, now: int, c: nat)
    requires FindConversation(s, u.conversation) == (if c < |s.conversations| then Some(c) else None)
    requires c <= |s.conversations|
    ensures UpsertApplied(env, s, u, now, UpsertConversation(env, s, u, now), c)
  {
    CoverageMergeLaws(UnknownCoverage, u.coverage, u.coverage);
  }

  lemma RecordingUpsert(s: Archive, u: Upsert, now: int, c: nat)
    requires c < |s.conversations|
    ensures var t := MarkSnapshotStale(RecordEvent(s, c, None, u.key, UpsertBody(u), now), c, now);
      && t.events == s.events + [Event(c, None, u.key, UpsertBody(u), None, None)] && t.keys == s.keys
      && OnlyJobsAdded(s.queue, t.queue, {Jobs.ArchiveKey(|s.events|), Jobs.SnapshotKey(c)}, now)
      && LiveJob(t.queue.jobs, Jobs.ArchiveKey(|s.events|)) && LiveJob(t.queue.jobs, Jobs.SnapshotKey(c))
  {
    var e := |s.events|;
    var keys := {Jobs.ArchiveKey(e), Jobs.SnapshotKey(c)};
    var s0 := s.(events := s.events + [Event(c, None, u.key, UpsertBody(u), None, None)]);
    EnqueueAddsOnly(s.queue, s0, Jobs.ArchiveRawEvent(e), Jobs.ArchiveKey(e), 50, now, keys);
    EnqueueMakesLive(s0, Jobs.ArchiveRawEvent(e), Jobs.ArchiveKey(e), 50, now);
    var s1 := RecordEvent(s, c, None, u.key, UpsertBody(u), now);
    EnqueueAddsOnly(s.queue, s1, Jobs.BuildSnapshot(c), Jobs.SnapshotKey(c), 200, now, keys);
    EnqueueMakesLive(s1, Jobs.BuildSnapshot(c), Jobs.SnapshotKey(c), 200, now);
    EnqueueKeepsLive(s1, Jobs.BuildSnapshot(c), Jobs.SnapshotKey(c), 200, now, Jobs.ArchiveKey(e));
  }

  // ---------------------------------------------------------------- the compliance import

  /** An import asserts compliance coverage and its own source, claims nothing for the browser, and records no event,
      key or job. */
  lemma ImportWrites(s: Archive, source: string, eventTime: Option<int>, now: int, c: nat)
    requires KnownAs(s, c, source) || (Unknown(s, source) && c == |s.conversations|)
    ensures var t := ImportConversation(s, source, eventTime, now);
      && OnlyConversation(s, t, c) && t.events == s.events && t.keys == s.keys && t.queue == s.queue
      && t.conversations[c].coverage == ComplianceVerified && ComplianceApi in t.conversations[c].sources
      && t.conversations[c].snapshotStale
      && if c < |s.conversations|
         then
           var a, b := s.conversations[c], t.conversations[c];
           && b.source == source && b.shown == a.shown && b.user == a.user && b.messageCount == a.messageCount
           && b.lastCapturedAt == a.lastCapturedAt && (ChromeExtension in b.sources <==> ChromeExtension in a.sources)
         else
           var shown := Details(None, None, None, None, eventTime);
           t.conversations[c] == Conversation(source, shown, ComplianceVerified, None, [ComplianceApi], 0, true, now)
  {
    assert FindConversation(s, source) == if c < |s.conversations| then Some(c) else None;
  }

  // ---------------------------------------------------------------- pruning

  /** Pruning forgets exactly the keys older than the cutoff, so a delivery under such a key is no longer a replay. */
  lemma PruningFrees(env: Env, s: Archive, cutoff: int, p: Payload, now: int)
    requires p.declared == Sha256(p.text)
    ensures var t := PruneKeys(s, cutoff);
      && t == s.(keys := t.keys)
      && (Ingest(env, t, p, now).1.Replay? <==> p.key in s.keys && s.keys[p.key].createdAt >= cutoff)
      && (forall k | k in t.keys :: k in s.keys && t.keys[k] == s.keys[k])
  {
  }

  // ---------------------------------------------------------------- the reconcile job

  /** Version `v` is the complete version of `m` with the highest number. */
  ghost predicate IsNewestComplete(s: Archive, m: nat, v: nat) {
    && v < |s.versions| && s.versions[v].message == m && s.versions[v].completion == Complete
    && forall w | 0 <= w < |s.versions| && s.versions[w].message == m && s.versions[w].completion == Complete ::
      s.versions[w].number <= s.versions[v].number
  }

  lemma {:induction false} NewestCompleteIsHighest(s: Archive, m: nat, n: nat)
    requires n <= |s.versions|
    ensures var r := NewestComplete(s, m, n);
      r.Some? ==> forall w | 0 <= w < n && s.versions[w].message == m && s.versions[w].completion == Complete ::
        s.versions[w].number <= s.versions[r.value].number
    decreases n
  {
    if n > 0 {
      NewestCompleteIsHighest(s, m, n - 1);
    }
  }

  /** The job acts exactly on a message that is not complete but has a complete version. */
  ghost predicate Reconcilable(s: Archive, m: nat) {
    && m < |s.messages| && s.messages[m].completion != Complete
    && exists v | 0 <= v < |s.versions| :: s.versions[v].message == m && s.versions[v].completion == Complete
  }

  /** In any archive, well formed or not: the job makes the newest complete version current and the message complete,
      marks the message's partial versions as reconciled and the conversation as stale, and writes nothing else; on any
      other message it writes nothing. */
  lemma ReconcileWrites(s: Archive, m: nat)
    ensures var t := Reconcile(s, m);
      if !Reconcilable(s, m) then t == s
      else
        && t.branches == s.branches && t.events == s.events && t.keys == s.keys && t.queue == s.queue
        && MessagePromoted(s, t, m) && PartialsReconciled(s, t, m)
        && ConversationStale(s, t, s.messages[m].conversation)
  {
    if m < |s.messages| && s.messages[m].completion != Complete {
      NewestCompleteIsHighest(s, m, |s.versions|);
      assert NewestComplete(s, m, |s.versions|).Some? <==> Reconcilable(s, m);
      if Reconcilable(s, m) {
        assert IsNewestComplete(s, m, NewestComplete(s, m, |s.versions|).value);
      }
    }
  }

  ghost predicate MessagePromoted(s: Archive, t: Archive, m: nat) {
    && |t.messages| == |s.messages| && m < |s.messages|
    && t.messages[m].currentVersion.Some? && IsNewestComplete(s, m, t.messages[m].currentVersion.value)
    && t.messages[m] == s.messages[m].(completion := Complete, currentVersion := t.messages[m].currentVersion)
    && forall i | 0 <= i < |s.messages| && i != m :: t.messages[i] == s.messages[i]
  }

  ghost predicate PartialsReconciled(s: Archive, t: Archive, m: nat) {
    && |t.versions| == |s.versions|
    && forall v | 0 <= v < |s.versions| ::
      t.versions[v] == if s.versions[v].message == m && s.versions[v].completion == Partial
                       then s.versions[v].(completion := Reconciled) else s.versions[v]
  }

  ghost predicate ConversationStale(s: Archive, t: Archive, c: nat) {
    && |t.conversations| == |s.conversations|
    && forall i | 0 <= i < |s.conversations| ::
      t.conversations[i] == if i == c then s.conversations[i].(snapshotStale := true) else s.conversations[i]
  }
}
