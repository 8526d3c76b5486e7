/** Runs of the archive: append-only history, and what a later run can and cannot do to earlier rows.

    A run is any sequence of deliveries, conversation upserts, compliance imports, prunings of old keys and reconcile
    jobs. Each is one transaction; what a batch adds is a run of its deliveries. */
module ArchiveRuns {
  import opened Common
  import opened Identity
  import opened Ingestion
  import opened ArchiveInvariant
  import opened ArchiveSteps
  import Jobs

  datatype Action =
    | Deliver(payload: Payload, at: int)
    | DeliverUpsert(upsert: Upsert, at: int)
    | Import(source: string, eventTime: Option<int>, at: int)
    | Prune(cutoff: int)
    | ReconcileJob(message: nat)

  function Act(env: Env, s: Archive, a: Action): Archive {
    match a
    case Deliver(p, at) => Ingest(env, s, p, at).0
    case DeliverUpsert(u, at) => UpsertConversation(env, s, u, at)
    case Import(source, eventTime, at) => ImportConversation(s, source, eventTime, at)
    case Prune(cutoff) => PruneKeys(s, cutoff)
    case ReconcileJob(m) => Reconcile(s, m)
  }

  function Run(env: Env, s: Archive, actions: seq<Action>): Archive
    decreases |actions|
  {
    if actions == [] then s else Run(env, Act(env, s, actions[0]), actions[1..])
  }

  lemma ActKeepsInv(env: Env, s: Archive, a: Action)
    requires Inv(s)
    ensures Inv(Act(env, s, a))
  {
    match a
    case Deliver(p, at) => IngestKeepsInv(env, s, p, at);
    case DeliverUpsert(u, at) => UpsertKeepsInv(env, s, u, at);
    case Import(source, eventTime, at) => ImportKeepsInv(s, source, eventTime, at);
    case Prune(cutoff) => PruneKeepsInv(s, cutoff);
    case ReconcileJob(m) => ReconcileChangesNothing(s, m);
  }

  lemma EmptyInv()
    ensures Inv(EMPTY)
  {
    assert History([], []);
    assert OneEventEach([], []);
    assert Jobs.Inv(EMPTY.queue);
  }

  /** The structural invariant holds after every run, from the empty archive in particular. */
  lemma {:induction false} RunKeepsInv(env: Env, s: Archive, actions: seq<Action>)
    requires Inv(s)
    ensures Inv(Run(env, s, actions))
    decreases |actions|
  {
    if actions != [] {
      ActKeepsInv(env, s, actions[0]);
      RunKeepsInv(env, Act(env, s, actions[0]), actions[1..]);
    }
  }

  // ---------------------------------------------------------------- append-only history

  ghost predicate ConversationGrows(a: Conversation, b: Conversation) {
    b.source == a.source && Rank(a.coverage) <= Rank(b.coverage) && (a.user.Some? ==> b.user == a.user)
  }

  ghost predicate MessageGrows(a: Message, b: Message) {
    && b.conversation == a.conversation && b.fingerprint == a.fingerprint && b.role == a.role
    && (a.source.Some? ==> b.source == a.source) && (a.branch.Some? ==> b.branch == a.branch)
    && (a.sourceCreatedAt.Some? ==> b.sourceCreatedAt == a.sourceCreatedAt)
    && a.versionCount <= b.versionCount
    && (a.completion == Complete ==> b.completion == Complete)
    && (a.hasAttachments ==> b.hasAttachments)
  }

  /** Everything about a version is fixed once written, except that partial may become reconciled and the
      archive key may be filled in. */
  ghost predicate VersionGrows(a: Version, b: Version) {
    && b == a.(completion := b.completion, rawKey := b.rawKey)
    && (b.completion == a.completion || (a.completion == Partial && b.completion == Reconciled))
    && (a.rawKey.Some? ==> b.rawKey == a.rawKey)
  }

  ghost predicate EventGrows(a: Event, b: Event) {
    && b == a.(rawKey := b.rawKey, archivedAt := b.archivedAt)
    && (a.rawKey.Some? ==> b.rawKey == a.rawKey) && (a.archivedAt.Some? ==> b.archivedAt.Some?)
  }

  ghost predicate Extends(s: Archive, t: Archive) {
    && |s.conversations| <= |t.conversations| && |s.messages| <= |t.messages|
    && |s.versions| <= |t.versions| && |s.events| <= |t.events|
    && (forall i | 0 <= i < |s.conversations| :: ConversationGrows(s.conversations[i], t.conversations[i]))
    && (forall i | 0 <= i < |s.messages| :: MessageGrows(s.messages[i], t.messages[i]))
    && (forall i | 0 <= i < |s.versions| :: VersionGrows(s.versions[i], t.versions[i]))
    && (forall i | 0 <= i < |s.events| :: EventGrows(s.events[i], t.events[i]))
  }

  lemma ExtendsTransitive(s: Archive, t: Archive, u: Archive)
    requires Extends(s, t) && Extends(t, u)
    ensures Extends(s, u)
  {
    forall i | 0 <= i < |s.messages| ensures MessageGrows(s.messages[i], u.messages[i]) {
      assert MessageGrows(s.messages[i], t.messages[i]) && MessageGrows(t.messages[i], u.messages[i]);
    }
    forall i | 0 <= i < |s.versions| ensures VersionGrows(s.versions[i], u.versions[i]) {
      assert VersionGrows(s.versions[i], t.versions[i]) && VersionGrows(t.versions[i], u.versions[i]);
    }
  }

  lemma PrepareExtends(env: Env, s: Archive, c: nat, p: Payload, now: int)
    requires c < |s.conversations|
    ensures Extends(s, Prepare(env, s, c, p, now).0)
  {
  }

  lemma AppendVersionExtends(env: Env, s: Archive, c: nat, m: nat, p: Payload, now: int)
    requires c < |s.conversations| && m < |s.messages|
    ensures Extends(s, AppendVersion(env, s, c, m, p, now))
  {
  }

  lemma SeenAgainExtends(s: Archive, c: nat, m: nat, v: nat, p: Payload, now: int)
    requires c < |s.conversations| && m < |s.messages| && v < |s.versions|
    ensures Extends(s, SeenAgain(s, c, m, v, p, now))
  {
  }

  lemma IngestExtends(env: Env, s: Archive, p: Payload, now: int)
    ensures Extends(s, Ingest(env, s, p, now).0)
  {
    if p.declared == Sha256(p.text) {
      var (s1, c) := GetOrCreateConversation(env, s, p.conversation, NO_DETAILS, LiveOnly, now);
      assert Extends(s, s1);
      if p.key !in s1.keys {
        var (s2, m) := Prepare(env, s1, c, p, now);
        PrepareExtends(env, s1, c, p, now);
        ExtendsTransitive(s, s1, s2);
        if FindVersion(s2, m, ContentHash(env, p.text)).Some? || DistinctPartIndexes(KeptParts(p)) {
          StoreContentExtends(env, s2, c, m, p, now);
          ExtendsTransitive(s, s2, StoreContent(env, s2, c, m, p, now).0);
        }
      }
    }
  }

  lemma StoreContentExtends(env: Env, s: Archive, c: nat, m: nat, p: Payload, now: int)
    requires c < |s.conversations| && m < |s.messages|
    requires FindVersion(s, m, ContentHash(env, p.text)).None? ==> DistinctPartIndexes(KeptParts(p))
    ensures Extends(s, StoreContent(env, s, c, m, p, now).0)
  {
    match FindVersion(s, m, ContentHash(env, p.text))
    case Some(v) => SeenAgainExtends(s, c, m, v, p, now);
    case None => AppendVersionExtends(env, s, c, m, p, now);
  }

  lemma UpsertExtends(env: Env, s: Archive, u: Upsert, now: int)
    ensures Extends(s, UpsertConversation(env, s, u, now))
  {
  }

  lemma ImportExtends(s: Archive, source: string, eventTime: Option<int>, now: int)
    ensures Extends(s, ImportConversation(s, source, eventTime, now))
  {
  }

  lemma ActExtends(env: Env, s: Archive, a: Action)
    requires a.ReconcileJob? ==> Reconcile(s, a.message) == s
    ensures Extends(s, Act(env, s, a))
  {
    match a
    case Deliver(p, at) => IngestExtends(env, s, p, at);
    case DeliverUpsert(u, at) => UpsertExtends(env, s, u, at);
    case Import(source, eventTime, at) => ImportExtends(s, source, eventTime, at);
    case Prune(cutoff) =>
    case ReconcileJob(m) =>
  }

  /** History is append-only along every run: rows never disappear, what was stored never changes, status moves
      only from partial to reconciled, a complete message stays complete, coverage never weakens. */
  lemma {:induction false} RunExtends(env: Env, s: Archive, actions: seq<Action>)
    requires Inv(s)
    ensures Extends(s, Run(env, s, actions))
    decreases |actions|
  {
    if actions == [] {
      ExtendsItself(s);
    } else {
      var t := Act(env, s, actions[0]);
      ActKeepsInv(env, s, actions[0]);
      RunExtends(env, t, actions[1..]);
      ActThenExtends(env, s, actions[0], Run(env, t, actions[1..]));
    }
  }

  lemma ExtendsItself(s: Archive)
    ensures Extends(s, s)
  {
  }

  lemma ActThenExtends(env: Env, s: Archive, a: Action, u: Archive)
    requires Inv(s)
    ensures Extends(Act(env, s, a), u) ==> Extends(s, u)
  {
    if a.ReconcileJob? {
      ReconcileChangesNothing(s, a.message);
    }
    ActExtends(env, s, a);
    if Extends(Act(env, s, a), u) {
      ExtendsTransitive(s, Act(env, s, a), u);
    }
  }

  /** The current version of a message only ever moves to a later number. */
  lemma CurrentVersionAdvances(env: Env, s: Archive, actions: seq<Action>, m: nat)
    requires Inv(s) && m < |s.messages|
    ensures var t := Run(env, s, actions);
      && m < |t.messages| && s.messages[m].currentVersion.Some? && t.messages[m].currentVersion.Some?
      && s.messages[m].currentVersion.value < |s.versions| && t.messages[m].currentVersion.value < |t.versions|
      && s.versions[s.messages[m].currentVersion.value].number <= t.versions[t.messages[m].currentVersion.value].number
      && (s.messages[m].versionCount == t.messages[m].versionCount ==>
        s.messages[m].currentVersion == t.messages[m].currentVersion)
  {
    RunExtends(env, s, actions);
    RunKeepsInv(env, s, actions);
    NewestAdvances(s, Run(env, s, actions), m);
  }

  lemma NewestAdvances(s: Archive, t: Archive, m: nat)
    requires Extends(s, t) && CurrentIsNewest(s.messages, s.versions) && CurrentIsNewest(t.messages, t.versions)
    requires Numbered(t.messages, t.versions) && m < |s.messages| && s.messages[m].versionCount > 0
    ensures m < |t.messages| && s.messages[m].currentVersion.Some? && t.messages[m].currentVersion.Some?
    ensures s.messages[m].currentVersion.value < |s.versions| && t.messages[m].currentVersion.value < |t.versions|
    ensures s.versions[s.messages[m].currentVersion.value].number
         <= t.versions[t.messages[m].currentVersion.value].number
    ensures s.messages[m].versionCount == t.messages[m].versionCount ==>
      s.messages[m].currentVersion == t.messages[m].currentVersion
  {
    assert MessageGrows(s.messages[m], t.messages[m]);
    var a, b := s.messages[m].currentVersion.value, t.messages[m].currentVersion.value;
    assert IsVersion(s.versions, m, s.messages[m].versionCount, a)
      && IsVersion(t.versions, m, t.messages[m].versionCount, b);
    assert VersionGrows(s.versions[a], t.versions[a]);
  }
}
