/** Every statement of ingestion keeps the archive's invariant.

    `Prepare` may leave a row without a version, so the statements of one item keep `Base`; the item as a whole keeps
    `Inv`, because whatever it prepared gets its version or is rolled back. Upserts, imports, prunings and reconcile
    jobs keep `Inv` one by one. */
module ArchiveSteps {
  import opened Common
  import opened Identity
  import opened Ingestion
  import opened ArchiveInvariant
  import Jobs

  /** Once conversation, key, branch and row are settled: the row belongs to the conversation, only a brand-new
      row is without a version, and unless a source id decided, the row already holds this content. */
  ghost predicate Prepared(env: Env, s: Archive, c: nat, p: Payload, t: Archive, m: nat) {
    && t == s.(keys := t.keys, branches := t.branches, messages := t.messages)
    && c < |t.conversations| && m < |t.messages| && t.messages[m].conversation == c
    && p.key in t.keys && t.keys[p.key].result == ResultRef(Some(c), None, None)
    && (forall i | 0 <= i < |t.messages| && i != m :: t.messages[i].versionCount > 0)
    && (t.messages[m].versionCount == 0 ==>
         t.messages[m].fingerprint.content == ContentHash(env, p.text)
           && !HasContent(t.versions, m, ContentHash(env, p.text)))
  }

  lemma FoundInConversation(s: Archive, c: nat, p: Payload, fp: Fingerprint, hash: Digest)
    requires Linked(|s.conversations|, s.messages, s.versions) && fp.conversation == c && fp.role == p.role
    ensures var found := FindMessage(s, c, p, fp, hash);
      && (found.Some? ==> found.value < |s.messages| && s.messages[found.value].conversation == c)
      && (found.None? ==> SourceFree(s.messages, c, p.source)
                          && forall m | 0 <= m < |s.messages| :: s.messages[m].fingerprint != fp)
      && (p.source.Some? && BySource(s, c, p.source.value).None? ==> SourceFree(s.messages, c, p.source))
      && (found.Some? && p.source.Some? && s.messages[found.value].source.None? ==> SourceFree(s.messages, c, p.source))
  {
  }

  lemma ResolveBranchKeepsBase(s: Archive, c: nat, p: Payload)
    requires Base(s)
    ensures Base(ResolveBranch(s, c, p).0)
  {
  }

  lemma ResolveMessageKeepsBase(s: Archive, c: nat, found: Option<nat>, branch: Option<nat>, fp: Fingerprint,
                                p: Payload)
    requires Base(s) && c < |s.conversations| && fp.conversation == c && fp.role == p.role
    requires found.Some? ==> found.value < |s.messages| && s.messages[found.value].conversation == c
    requires found.None? ==>
      SourceFree(s.messages, c, p.source) && forall m | 0 <= m < |s.messages| :: s.messages[m].fingerprint != fp
    requires found.Some? && p.source.Some? && s.messages[found.value].source.None? ==>
      SourceFree(s.messages, c, p.source)
    ensures Base(ResolveMessage(s, c, found, branch, fp, p).0)
  {
    match found
    case Some(m) => MessageUpdateKeepsBase(s, m, Refreshed(s.messages[m], branch, p));
    case None => MessageAppendKeepsBase(s, NewMessage(c, branch, fp, p));
  }

  lemma PrepareKeepsBase(env: Env, s: Archive, c: nat, p: Payload, now: int)
    requires Base(s) && c < |s.conversations|
    ensures Base(Prepare(env, s, c, p, now).0)
  {
    var fp := MessageFingerprint(env, c, p.role, p.text, p.sequenceIndex, p.sourceCreatedAt);
    var s1 := ClaimKey(s, p.key, c, now);
    SetKeyKeepsBase(s, p.key, KeyRow(now, ResultRef(Some(c), None, None)));
    FoundInConversation(s1, c, p, fp, ContentHash(env, p.text));
    ResolveBranchKeepsBase(s1, c, p);
    var (s2, branch) := ResolveBranch(s1, c, p);
    ResolveMessageKeepsBase(s2, c, FindMessage(s1, c, p, fp, ContentHash(env, p.text)), branch, fp, p);
  }

  lemma PrepareSettlesRow(env: Env, s: Archive, c: nat, p: Payload, now: int)
    requires Linked(|s.conversations|, s.messages, s.versions) && AllVersioned(s.messages) && c < |s.conversations|
    ensures Prepared(env, s, c, p, Prepare(env, s, c, p, now).0, Prepare(env, s, c, p, now).1)
  {
    var fp := MessageFingerprint(env, c, p.role, p.text, p.sequenceIndex, p.sourceCreatedAt);
    FoundInConversation(ClaimKey(s, p.key, c, now), c, p, fp, ContentHash(env, p.text));
  }

  lemma SetResultKeepsBase(s: Archive, key: string, result: ResultRef)
    requires Base(s) && ResultOk(|s.conversations|, s.messages, s.versions, result)
    ensures Base(SetResult(s, key, result))
  {
    if key in s.keys {
      SetKeyKeepsBase(s, key, s.keys[key].(result := result));
    }
  }

  lemma RecordVersionKeepsBase(env: Env, s: Archive, c: nat, m: nat, p: Payload, now: int)
    requires Base(s) && c < |s.conversations| && m < |s.messages| && s.messages[m].conversation == c
    requires NextVersion(s.messages, s.versions, m, NewVersion(env, m, s.messages[m].versionCount + 1, |s.events|, p))
    ensures Base(RecordEvent(AppendRows(env, s, c, m, p, now), c, Some(m), p.key, MessageBody(p), now))
  {
    var rows := AppendRows(env, s, c, m, p, now);
    var t := rows.(events := rows.events + [Event(c, Some(m), p.key, MessageBody(p), None, None)]);
    AppendedRowsKeepBase(env, s, c, m, p, now, t);
    EnqueueKeepsBase(t, Jobs.ArchiveRawEvent(|s.events|), Jobs.ArchiveKey(|s.events|), 50, now);
  }

  lemma AppendedRowsKeepBase(env: Env, s: Archive, c: nat, m: nat, p: Payload, now: int, t: Archive)
    requires Base(s) && c < |s.conversations| && m < |s.messages| && s.messages[m].conversation == c
    requires NextVersion(s.messages, s.versions, m, NewVersion(env, m, s.messages[m].versionCount + 1, |s.events|, p))
    requires var rows := AppendRows(env, s, c, m, p, now);
      t == rows.(events := rows.events + [Event(c, Some(m), p.key, MessageBody(p), None, None)])
    ensures Base(t)
  {
    var v := NewVersion(env, m, s.messages[m].versionCount + 1, |s.events|, p);
    var row := Counted(s.conversations[c], s.messages[m].versionCount == 0, now);
    RowsAreAppended(env, s, c, m, p, now);
    RowsAppendKeepBase(s, m, v, Event(c, Some(m), p.key, MessageBody(p), None, None), c, row, t);
  }

  lemma RowsAreAppended(env: Env, s: Archive, c: nat, m: nat, p: Payload, now: int)
    requires c < |s.conversations| && m < |s.messages| && s.messages[m].conversation == c
    ensures var rows, e := AppendRows(env, s, c, m, p, now), Event(c, Some(m), p.key, MessageBody(p), None, None);
      RowsAppended(s, m, NewVersion(env, m, s.messages[m].versionCount + 1, |s.events|, p), e, c,
                   Counted(s.conversations[c], s.messages[m].versionCount == 0, now),
                   rows.(events := rows.events + [e]))
  {
  }

  lemma FinishAppendKeepsBase(s: Archive, c: nat, m: nat, v: nat, p: Payload, now: int)
    requires Base(s) && c < |s.conversations| && m < |s.messages| && s.messages[m].conversation == c
    requires v < |s.versions| && s.versions[v].message == m
    ensures
      var s4 := MarkSnapshotStale(SetResult(s, p.key, ResultRef(Some(c), Some(m), Some(v))), c, now);
      Base(s4) && Base(Enqueue(s4, Jobs.ReconcilePartial(m), Jobs.ReconcileKey(m), 400, now))
  {
    var ref := ResultRef(Some(c), Some(m), Some(v));
    SetResultKeepsBase(s, p.key, ref);
    MarkSnapshotStaleKeepsBase(SetResult(s, p.key, ref), c, now);
    var s4 := MarkSnapshotStale(SetResult(s, p.key, ref), c, now);
    EnqueueKeepsBase(s4, Jobs.ReconcilePartial(m), Jobs.ReconcileKey(m), 400, now);
  }

  lemma AppendVersionKeepsBase(env: Env, s: Archive, c: nat, m: nat, p: Payload, now: int)
    requires Base(s) && c < |s.conversations| && m < |s.messages| && s.messages[m].conversation == c
    requires NextVersion(s.messages, s.versions, m, NewVersion(env, m, s.messages[m].versionCount + 1, |s.events|, p))
    ensures Base(AppendVersion(env, s, c, m, p, now))
  {
    RecordVersionKeepsBase(env, s, c, m, p, now);
    var s2 := RecordEvent(AppendRows(env, s, c, m, p, now), c, Some(m), p.key, MessageBody(p), now);
    FinishAppendKeepsBase(s2, c, m, |s.versions|, p, now);
  }

  lemma SeenAgainKeepsBase(s: Archive, c: nat, m: nat, v: nat, p: Payload, now: int)
    requires Base(s) && c < |s.conversations| && m < |s.messages| && s.messages[m].conversation == c
    requires v < |s.versions| && s.versions[v].message == m
    ensures Base(SeenAgain(s, c, m, v, p, now))
  {
    var ref := ResultRef(Some(c), Some(m), Some(v));
    if Promotes(s, v, p) {
      PromotionKeepsBase(s, m, Promote(s, m, v).versions);
      SetResultKeepsBase(Promote(s, m, v), p.key, ref);
      MarkSnapshotStaleKeepsBase(SetResult(Promote(s, m, v), p.key, ref), c, now);
    } else {
      SetResultKeepsBase(s, p.key, ref);
    }
  }

  /** Storing content leaves no row without a version. */
  lemma StoreContentVersions(env: Env, s: Archive, c: nat, m: nat, p: Payload, now: int)
    requires Numbered(s.messages, s.versions) && c < |s.conversations| && m < |s.messages|
    requires forall i | 0 <= i < |s.messages| && i != m :: s.messages[i].versionCount > 0
    requires FindVersion(s, m, ContentHash(env, p.text)).None? ==> DistinctPartIndexes(KeptParts(p))
    ensures AllVersioned(StoreContent(env, s, c, m, p, now).0.messages)
  {
    var found := FindVersion(s, m, ContentHash(env, p.text));
    if found.Some? {
      assert 1 <= s.versions[found.value].number <= s.messages[m].versionCount;
    }
  }

  lemma StoreContentKeepsBase(env: Env, s: Archive, c: nat, m: nat, p: Payload, now: int)
    requires Base(s) && c < |s.conversations| && m < |s.messages| && s.messages[m].conversation == c
    requires s.messages[m].versionCount == 0 ==>
      s.messages[m].fingerprint.content == ContentHash(env, p.text)
        && !HasContent(s.versions, m, ContentHash(env, p.text))
    requires FindVersion(s, m, ContentHash(env, p.text)).None? ==> DistinctPartIndexes(KeptParts(p))
    ensures Base(StoreContent(env, s, c, m, p, now).0)
  {
    match FindVersion(s, m, ContentHash(env, p.text))
    case Some(v) => SeenAgainKeepsBase(s, c, m, v, p, now);
    case None =>
      assert NextVersion(s.messages, s.versions, m, NewVersion(env, m, s.messages[m].versionCount + 1, |s.events|, p));
      AppendVersionKeepsBase(env, s, c, m, p, now);
  }

  /** Delivering an item, whatever its outcome, keeps the invariant. */
  lemma IngestKeepsInv(env: Env, s: Archive, p: Payload, now: int)
    requires Inv(s)
    ensures Inv(Ingest(env, s, p, now).0)
  {
    if p.declared == Sha256(p.text) {
      GetOrCreateKeepsBase(env, s, p.conversation, NO_DETAILS, LiveOnly, now);
      var (s1, c) := GetOrCreateConversation(env, s, p.conversation, NO_DETAILS, LiveOnly, now);
      RestKeepsInv(env, s, s1, c, p, now);
    }
  }

  /** Past the conversation, an item either leaves everything as it was or keeps the invariant. */
  lemma RestKeepsInv(env: Env, s: Archive, s1: Archive, c: nat, p: Payload, now: int)
    requires Inv(s1) && p.declared == Sha256(p.text)
    requires (s1, c) == GetOrCreateConversation(env, s, p.conversation, NO_DETAILS, LiveOnly, now)
    ensures Ingest(env, s, p, now).0 == s || Inv(Ingest(env, s, p, now).0)
  {
    var (s2, m) := Prepare(env, s1, c, p, now);
    if p.key !in s1.keys && (FindVersion(s2, m, ContentHash(env, p.text)).Some? || DistinctPartIndexes(KeptParts(p))) {
      ClaimedItemKeepsInv(env, s1, c, p, now);
    }
  }

  lemma ClaimedItemKeepsInv(env: Env, s: Archive, c: nat, p: Payload, now: int)
    requires Inv(s) && c < |s.conversations|
    ensures var (u, m) := Prepare(env, s, c, p, now);
      FindVersion(u, m, ContentHash(env, p.text)).Some? || DistinctPartIndexes(KeptParts(p)) ==>
        Inv(StoreContent(env, u, c, m, p, now).0)
  {
    var (u, m) := Prepare(env, s, c, p, now);
    PrepareKeepsBase(env, s, c, p, now);
    PrepareSettlesRow(env, s, c, p, now);
    if FindVersion(u, m, ContentHash(env, p.text)).Some? || DistinctPartIndexes(KeptParts(p)) {
      StoreContentKeepsBase(env, u, c, m, p, now);
      StoreContentVersions(env, u, c, m, p, now);
    }
  }

  lemma UpsertKeepsInv(env: Env, s: Archive, u: Upsert, now: int)
    requires Inv(s)
    ensures Inv(UpsertConversation(env, s, u, now))
  {
    GetOrCreateKeepsBase(env, s, u.conversation, u.details, u.coverage, now);
    var (s1, c) := GetOrCreateConversation(env, s, u.conversation, u.details, u.coverage, now);
    if u.key !in s.keys {
      var row := KeyRow(now, ResultRef(Some(c), None, None));
      SetKeyKeepsBase(s1, u.key, row);
      RecordUpsertKeepsBase(s1.(keys := s1.keys[u.key := row]), c, u, now);
    }
  }

  lemma RecordUpsertKeepsBase(s: Archive, c: nat, u: Upsert, now: int)
    requires Base(s) && c < |s.conversations|
    ensures Base(MarkSnapshotStale(RecordEvent(s, c, None, u.key, UpsertBody(u), now), c, now))
  {
    var e := Event(c, None, u.key, UpsertBody(u), None, None);
    OneEventEachOther(s.versions, s.events, e);
    var t := s.(events := s.events + [e]);
    EnqueueKeepsBase(t, Jobs.ArchiveRawEvent(|s.events|), Jobs.ArchiveKey(|s.events|), 50, now);
    MarkSnapshotStaleKeepsBase(RecordEvent(s, c, None, u.key, UpsertBody(u), now), c, now);
  }

  lemma ImportKeepsInv(s: Archive, source: string, eventTime: Option<int>, now: int)
    requires Inv(s)
    ensures Inv(ImportConversation(s, source, eventTime, now))
  {
    match FindConversation(s, source)
    case Some(c) =>
      ConversationUpdateKeepsBase(s, c, ImportConversation(s, source, eventTime, now).conversations[c]);
    case None =>
      ConversationAppendKeepsBase(s, ImportConversation(s, source, eventTime, now).conversations[|s.conversations|]);
  }

  lemma PruneKeepsInv(s: Archive, cutoff: int)
    requires Inv(s)
    ensures Inv(PruneKeys(s, cutoff))
  {
  }

  /** In every reachable archive the reconcile job finds nothing left to do: a message with a complete version
      is already complete, so the job can never move the current version off the newest one. */
  lemma ReconcileChangesNothing(s: Archive, m: nat)
    requires Inv(s)
    ensures Reconcile(s, m) == s
  {
  }
}
