/** What every statement keeps true of the archive.

    Each predicate names only the tables it is about. `Base` also holds half way through an item, where
    a message row may still be without a version; `Inv` adds that no such row is left behind. */
module ArchiveInvariant {
  import opened Common
  import opened Identity
  import opened Ingestion
  import Jobs

  // ---------------------------------------------------------------- the invariant

  ghost predicate Linked(conversations: nat, ms: seq<Message>, vs: seq<Version>) {
    && (forall m | 0 <= m < |ms| ::
         && ms[m].conversation < conversations
         && ms[m].fingerprint.conversation == ms[m].conversation && ms[m].fingerprint.role == ms[m].role)
    && (forall v | 0 <= v < |vs| :: vs[v].message < |ms|)
  }

  ghost predicate ConversationsUnique(cs: seq<Conversation>) {
    forall c, d | 0 <= c < d < |cs| :: cs[c].source != cs[d].source
  }

  ghost predicate FingerprintsUnique(ms: seq<Message>) {
    forall m, n | 0 <= m < n < |ms| :: ms[m].fingerprint != ms[n].fingerprint
  }

  ghost predicate SourcesUnique(ms: seq<Message>) {
    forall m, n | 0 <= m < n < |ms| && ms[m].source.Some? && ms[m].conversation == ms[n].conversation ::
      ms[m].source != ms[n].source
  }

  ghost predicate IsVersion(vs: seq<Version>, m: nat, number: nat, v: nat) {
    v < |vs| && vs[v].message == m && vs[v].number == number
  }

  ghost predicate HasNumber(vs: seq<Version>, m: nat, number: nat) {
    exists v :: IsVersion(vs, m, number, v)
  }

  /** The version numbers of a message are exactly 1..version_count, each once. */
  ghost predicate Numbered(ms: seq<Message>, vs: seq<Version>) {
    && (forall v | 0 <= v < |vs| && vs[v].message < |ms| :: 1 <= vs[v].number <= ms[vs[v].message].versionCount)
    && (forall v, w | 0 <= v < w < |vs| && vs[v].message == vs[w].message :: vs[v].number != vs[w].number)
    && (forall m, n: nat | 0 <= m < |ms| && 1 <= n <= ms[m].versionCount :: HasNumber(vs, m, n))
  }

  ghost predicate ContentsUnique(vs: seq<Version>) {
    forall v, w | 0 <= v < w < |vs| && vs[v].message == vs[w].message :: vs[v].normalizedHash != vs[w].normalizedHash
  }

  /** The current version is the highest-numbered one. */
  ghost predicate CurrentIsNewest(ms: seq<Message>, vs: seq<Version>) {
    forall m | 0 <= m < |ms| ::
      if ms[m].versionCount == 0 then ms[m].currentVersion == None
      else ms[m].currentVersion.Some? && IsVersion(vs, m, ms[m].versionCount, ms[m].currentVersion.value)
  }

  ghost predicate CompleteSpreads(ms: seq<Message>, vs: seq<Version>) {
    forall v | 0 <= v < |vs| && vs[v].message < |ms| && vs[v].completion == Complete ::
      ms[vs[v].message].completion == Complete
  }

  /** A message always holds the content its fingerprint was taken from. */
  ghost predicate HoldsOwnContent(ms: seq<Message>, vs: seq<Version>) {
    forall m | 0 <= m < |ms| && ms[m].versionCount > 0 :: HasContent(vs, m, ms[m].fingerprint.content)
  }

  function VersionedIn(ms: seq<Message>, c: nat): nat {
    if ms == [] then 0
    else
      var last := ms[|ms| - 1];
      VersionedIn(ms[..|ms| - 1], c) + (if last.conversation == c && last.versionCount > 0 then 1 else 0)
  }

  ghost predicate Counts(cs: seq<Conversation>, ms: seq<Message>) {
    forall c | 0 <= c < |cs| :: cs[c].messageCount == VersionedIn(ms, c)
  }

  ghost predicate RecordsVersion(vs: seq<Version>, e: nat, v: nat) {
    v < |vs| && vs[v].captureEvent == e
  }

  /** Versions and message events correspond one to one. */
  ghost predicate OneEventEach(vs: seq<Version>, es: seq<Event>) {
    && (forall v | 0 <= v < |vs| :: vs[v].captureEvent < |es| && es[vs[v].captureEvent].message == Some(vs[v].message))
    && (forall v, w | 0 <= v < w < |vs| :: vs[v].captureEvent != vs[w].captureEvent)
    && (forall e | 0 <= e < |es| && es[e].message.Some? :: exists v :: RecordsVersion(vs, e, v))
  }

  ghost predicate ResultOk(conversations: nat, ms: seq<Message>, vs: seq<Version>, r: ResultRef) {
    && r.conversation.Some? && r.conversation.value < conversations
    && (r.message.Some? ==> r.message.value < |ms| && ms[r.message.value].conversation == r.conversation.value)
    && (r.version.Some? ==> r.message.Some? && r.version.value < |vs| && vs[r.version.value].message == r.message.value)
  }

  ghost predicate KeysOk(conversations: nat, ms: seq<Message>, vs: seq<Version>, keys: map<string, KeyRow>) {
    forall k | k in keys :: ResultOk(conversations, ms, vs, keys[k].result)
  }

  /** The part about messages and their versions alone. */
  ghost predicate History(ms: seq<Message>, vs: seq<Version>) {
    && FingerprintsUnique(ms) && SourcesUnique(ms) && Numbered(ms, vs) && ContentsUnique(vs)
    && CurrentIsNewest(ms, vs) && CompleteSpreads(ms, vs) && HoldsOwnContent(ms, vs)
  }

  ghost predicate Base(s: Archive) {
    && Linked(|s.conversations|, s.messages, s.versions) && ConversationsUnique(s.conversations)
    && History(s.messages, s.versions) && Counts(s.conversations, s.messages)
    && OneEventEach(s.versions, s.events)
    && KeysOk(|s.conversations|, s.messages, s.versions, s.keys)
    && Jobs.Inv(s.queue)
  }

  ghost predicate AllVersioned(ms: seq<Message>) {
    forall m | 0 <= m < |ms| :: ms[m].versionCount > 0
  }

  ghost predicate Inv(s: Archive) {
    Base(s) && AllVersioned(s.messages)
  }

  // ---------------------------------------------------------------- counting messages

  lemma {:induction false} VersionedInUpdate(ms: seq<Message>, m: nat, row: Message, c: nat)
    requires m < |ms| && row.conversation == ms[m].conversation
    ensures VersionedIn(ms[m := row], c) == VersionedIn(ms, c)
      + (if row.conversation == c && row.versionCount > 0 then 1 else 0)
      - (if row.conversation == c && ms[m].versionCount > 0 then 1 else 0)
    decreases |ms|
  {
    var last := |ms| - 1;
    if m < last {
      assert ms[m := row][..last] == ms[..last][m := row];
      VersionedInUpdate(ms[..last], m, row, c);
    } else {
      assert ms[m := row][..last] == ms[..last];
    }
  }

  lemma {:induction false} VersionedInAbsent(ms: seq<Message>, c: nat)
    requires forall m | 0 <= m < |ms| :: ms[m].conversation < c
    ensures VersionedIn(ms, c) == 0
    decreases |ms|
  {
    if ms != [] {
      VersionedInAbsent(ms[..|ms| - 1], c);
    }
  }

  // ---------------------------------------------------------------- conversations, keys and jobs

  lemma ConversationUpdateKeepsBase(s: Archive, c: nat, row: Conversation)
    requires Base(s) && c < |s.conversations|
    requires row.source == s.conversations[c].source && row.messageCount == s.conversations[c].messageCount
    ensures Base(s.(conversations := s.conversations[c := row]))
  {
  }

  lemma ConversationAppendKeepsBase(s: Archive, row: Conversation)
    requires Base(s) && row.messageCount == 0
    requires forall c | 0 <= c < |s.conversations| :: s.conversations[c].source != row.source
    ensures Base(s.(conversations := s.conversations + [row]))
  {
    NewConversationKeeps(s.conversations, s.messages, s.versions, row);
    KeysStayOk(|s.conversations|, s.messages, s.versions, |s.conversations| + 1, s.messages, s.versions, s.keys);
  }

  lemma NewConversationKeeps(cs: seq<Conversation>, ms: seq<Message>, vs: seq<Version>, row: Conversation)
    requires Linked(|cs|, ms, vs) && ConversationsUnique(cs) && Counts(cs, ms) && row.messageCount == 0
    requires forall c | 0 <= c < |cs| :: cs[c].source != row.source
    ensures var all := cs + [row]; Linked(|all|, ms, vs) && ConversationsUnique(all) && Counts(all, ms)
  {
    VersionedInAbsent(ms, |cs|);
  }

  lemma GetOrCreateKeepsBase(env: Env, s: Archive, source: string, d: Details, coverage: Coverage, now: int)
    requires Base(s)
    ensures Base(GetOrCreateConversation(env, s, source, d, coverage, now).0)
  {
    match FindConversation(s, source)
    case Some(c) => ConversationUpdateKeepsBase(s, c, Touched(env, s.conversations[c], d, coverage, now));
    case None => ConversationAppendKeepsBase(s, NewConversation(env, source, d, coverage, now));
  }

  lemma EnqueueKeepsBase(s: Archive, task: Jobs.Task, key: Jobs.DedupeKey, priority: nat, now: int)
    requires Base(s)
    ensures Base(Enqueue(s, task, key, priority, now))
  {
    Jobs.EnqueueKeepsInv(s.queue, Jobs.Request(task, Some(key), priority, 8), now, now);
  }

  lemma MarkSnapshotStaleKeepsBase(s: Archive, c: nat, now: int)
    requires Base(s) && c < |s.conversations|
    ensures Base(MarkSnapshotStale(s, c, now))
  {
    var row := s.conversations[c].(snapshotStale := true);
    ConversationUpdateKeepsBase(s, c, row);
    var t := s.(conversations := s.conversations[c := row]);
    EnqueueKeepsBase(t, Jobs.BuildSnapshot(c), Jobs.SnapshotKey(c), 200, now);
  }

  /** Every row of the old tables is still there, linked as before. */
  ghost predicate LinksKept(ms: seq<Message>, vs: seq<Version>, ms': seq<Message>, vs': seq<Version>) {
    && |ms| <= |ms'| && (forall m | 0 <= m < |ms| :: ms'[m].conversation == ms[m].conversation)
    && |vs| <= |vs'| && (forall v | 0 <= v < |vs| :: vs'[v].message == vs[v].message)
  }

  lemma KeysStayOk(n: nat, ms: seq<Message>, vs: seq<Version>, n': nat, ms': seq<Message>, vs': seq<Version>,
                   keys: map<string, KeyRow>)
    requires KeysOk(n, ms, vs, keys) && n <= n' && LinksKept(ms, vs, ms', vs')
    ensures KeysOk(n', ms', vs', keys)
  {
    forall k | k in keys ensures ResultOk(n', ms', vs', keys[k].result) {
      assert ResultOk(n, ms, vs, keys[k].result);
    }
  }

  lemma SetKeyKeepsBase(s: Archive, key: string, row: KeyRow)
    requires Base(s) && ResultOk(|s.conversations|, s.messages, s.versions, row.result)
    ensures Base(s.(keys := s.keys[key := row]))
  {
  }

  // ---------------------------------------------------------------- message rows

  /** The columns that history depends on are unchanged. */
  ghost predicate SameShape(a: Message, b: Message) {
    && a.conversation == b.conversation && a.fingerprint == b.fingerprint && a.role == b.role
    && a.versionCount == b.versionCount && a.currentVersion == b.currentVersion && a.completion == b.completion
  }

  /** No message of conversation `c` carries the source id, if there is one. */
  ghost predicate SourceFree(ms: seq<Message>, c: nat, source: Option<string>) {
    source.Some? ==> forall m | 0 <= m < |ms| && ms[m].conversation == c :: ms[m].source != source
  }

  lemma MessageUpdateKeepsBase(s: Archive, m: nat, row: Message)
    requires Base(s) && m < |s.messages| && SameShape(row, s.messages[m])
    requires row.source == s.messages[m].source
      || (s.messages[m].source.None? && SourceFree(s.messages, row.conversation, row.source))
    ensures Base(s.(messages := s.messages[m := row]))
  {
    var ms := s.messages[m := row];
    RowUpdateKeepsCounts(s.conversations, s.messages, m, row);
    RowUpdateKeepsHistory(s.messages, s.versions, m, row);
    RowUpdateKeepsLinks(|s.conversations|, s.messages, s.versions, m, row);
    KeysStayOk(|s.conversations|, s.messages, s.versions, |s.conversations|, ms, s.versions, s.keys);
  }

  lemma RowUpdateKeepsLinks(n: nat, ms: seq<Message>, vs: seq<Version>, m: nat, row: Message)
    requires Linked(n, ms, vs) && m < |ms| && SameShape(row, ms[m])
    ensures Linked(n, ms[m := row], vs) && LinksKept(ms, vs, ms[m := row], vs)
  {
  }

  lemma RowUpdateKeepsCounts(cs: seq<Conversation>, ms: seq<Message>, m: nat, row: Message)
    requires Counts(cs, ms) && m < |ms| && SameShape(row, ms[m])
    ensures Counts(cs, ms[m := row])
  {
    forall c | 0 <= c < |cs| ensures VersionedIn(ms[m := row], c) == VersionedIn(ms, c) {
      VersionedInUpdate(ms, m, row, c);
    }
  }

  lemma RowUpdateKeepsHistory(ms: seq<Message>, vs: seq<Version>, m: nat, row: Message)
    requires History(ms, vs) && m < |ms| && SameShape(row, ms[m])
    requires row.source == ms[m].source || (ms[m].source.None? && SourceFree(ms, row.conversation, row.source))
    ensures History(ms[m := row], vs)
  {
    RowUpdateKeepsIdentity(ms, m, row);
    RowUpdateKeepsNumbers(ms, vs, m, row);
  }

  lemma RowUpdateKeepsIdentity(ms: seq<Message>, m: nat, row: Message)
    requires FingerprintsUnique(ms) && SourcesUnique(ms) && m < |ms| && SameShape(row, ms[m])
    requires row.source == ms[m].source || (ms[m].source.None? && SourceFree(ms, row.conversation, row.source))
    ensures FingerprintsUnique(ms[m := row]) && SourcesUnique(ms[m := row])
  {
  }

  lemma RowUpdateKeepsNumbers(ms: seq<Message>, vs: seq<Version>, m: nat, row: Message)
    requires Numbered(ms, vs) && CurrentIsNewest(ms, vs) && CompleteSpreads(ms, vs) && HoldsOwnContent(ms, vs)
    requires m < |ms| && SameShape(row, ms[m])
    ensures Numbered(ms[m := row], vs) && CurrentIsNewest(ms[m := row], vs)
    ensures CompleteSpreads(ms[m := row], vs) && HoldsOwnContent(ms[m := row], vs)
  {
  }

  lemma MessageAppendKeepsBase(s: Archive, row: Message)
    requires Base(s) && row.versionCount == 0 && row.currentVersion.None?
    requires row.conversation < |s.conversations| && row.fingerprint.conversation == row.conversation
    requires row.fingerprint.role == row.role
    requires forall m | 0 <= m < |s.messages| :: s.messages[m].fingerprint != row.fingerprint
    requires SourceFree(s.messages, row.conversation, row.source)
    ensures Base(s.(messages := s.messages + [row]))
  {
    var ms := s.messages + [row];
    RowAppendKeepsHistory(s.messages, s.versions, row);
    RowAppendKeepsLinks(s.conversations, s.messages, s.versions, row);
    KeysStayOk(|s.conversations|, s.messages, s.versions, |s.conversations|, ms, s.versions, s.keys);
  }

  lemma RowAppendKeepsHistory(ms: seq<Message>, vs: seq<Version>, row: Message)
    requires History(ms, vs) && Linked0(ms, vs) && row.versionCount == 0 && row.currentVersion.None?
    requires forall m | 0 <= m < |ms| :: ms[m].fingerprint != row.fingerprint
    requires SourceFree(ms, row.conversation, row.source)
    ensures History(ms + [row], vs)
  {
    RowAppendKeepsNumbers(ms, vs, row);
    RowAppendKeepsUnique(ms, vs, row);
    assert CompleteSpreads(ms + [row], vs);
  }

  lemma RowAppendKeepsNumbers(ms: seq<Message>, vs: seq<Version>, row: Message)
    requires Numbered(ms, vs) && HoldsOwnContent(ms, vs) && Linked0(ms, vs) && row.versionCount == 0
    ensures Numbered(ms + [row], vs) && HoldsOwnContent(ms + [row], vs)
  {
  }

  lemma RowAppendKeepsUnique(ms: seq<Message>, vs: seq<Version>, row: Message)
    requires FingerprintsUnique(ms) && SourcesUnique(ms) && CurrentIsNewest(ms, vs)
    requires row.versionCount == 0 && row.currentVersion.None?
    requires forall m | 0 <= m < |ms| :: ms[m].fingerprint != row.fingerprint
    requires SourceFree(ms, row.conversation, row.source)
    ensures FingerprintsUnique(ms + [row]) && SourcesUnique(ms + [row]) && CurrentIsNewest(ms + [row], vs)
  {
  }

  lemma RowAppendKeepsLinks(cs: seq<Conversation>, ms: seq<Message>, vs: seq<Version>, row: Message)
    requires Linked(|cs|, ms, vs) && Counts(cs, ms) && row.versionCount == 0
    requires row.conversation < |cs| && row.fingerprint.conversation == row.conversation
    requires row.fingerprint.role == row.role
    ensures Linked(|cs|, ms + [row], vs) && Counts(cs, ms + [row]) && LinksKept(ms, vs, ms + [row], vs)
  {
    assert (ms + [row])[..|ms|] == ms;
  }

  // ---------------------------------------------------------------- versions

  /** What a version row must satisfy to be the next version of message `m`. */
  ghost predicate NextVersion(ms: seq<Message>, vs: seq<Version>, m: nat, v: Version) {
    && m < |ms| && v.message == m && v.number == ms[m].versionCount + 1 && !HasContent(vs, m, v.normalizedHash)
    && (ms[m].versionCount == 0 ==> v.normalizedHash == ms[m].fingerprint.content)
  }

  lemma NumberedAppend(ms: seq<Message>, vs: seq<Version>, m: nat, v: Version)
    requires Linked0(ms, vs) && Numbered(ms, vs) && NextVersion(ms, vs, m, v)
    ensures Numbered(ms[m := WithVersion(ms[m], |vs|, v.completion)], vs + [v])
  {
    var ms', vs' := ms[m := WithVersion(ms[m], |vs|, v.completion)], vs + [v];
    forall i, n: nat | 0 <= i < |ms'| && 1 <= n <= ms'[i].versionCount ensures HasNumber(vs', i, n) {
      if i == m && n == v.number {
        assert IsVersion(vs', m, n, |vs|);
      } else {
        assert HasNumber(vs, i, n);
        var w :| IsVersion(vs, i, n, w);
        assert IsVersion(vs', i, n, w);
      }
    }
  }

  ghost predicate Linked0(ms: seq<Message>, vs: seq<Version>) {
    forall v | 0 <= v < |vs| :: vs[v].message < |ms|
  }

  lemma HasContentAppend(vs: seq<Version>, v: Version, m: nat, hash: Digest)
    ensures HasContent(vs + [v], m, hash) <==> HasContent(vs, m, hash) || (v.message == m && v.normalizedHash == hash)
  {
    var vs' := vs + [v];
    if HasContent(vs, m, hash) {
      var i :| 0 <= i < |vs| && vs[i].message == m && vs[i].normalizedHash == hash;
      assert vs'[i] == vs[i];
    }
    if v.message == m && v.normalizedHash == hash {
      assert vs'[|vs|] == v;
    }
  }

  lemma CurrentAppend(ms: seq<Message>, vs: seq<Version>, m: nat, v: Version)
    requires CurrentIsNewest(ms, vs) && NextVersion(ms, vs, m, v)
    ensures CurrentIsNewest(ms[m := WithVersion(ms[m], |vs|, v.completion)], vs + [v])
  {
    var ms', vs' := ms[m := WithVersion(ms[m], |vs|, v.completion)], vs + [v];
    assert IsVersion(vs', m, v.number, |vs|);
    forall i | 0 <= i < |ms| && i != m && ms[i].versionCount > 0
      ensures IsVersion(vs', i, ms[i].versionCount, ms[i].currentVersion.value)
    {
      assert IsVersion(vs, i, ms[i].versionCount, ms[i].currentVersion.value);
    }
  }

  lemma OwnContentAppend(ms: seq<Message>, vs: seq<Version>, m: nat, v: Version)
    requires HoldsOwnContent(ms, vs) && NextVersion(ms, vs, m, v)
    ensures HoldsOwnContent(ms[m := WithVersion(ms[m], |vs|, v.completion)], vs + [v])
  {
    forall i | 0 <= i < |ms|
      ensures HasContent(vs, i, ms[i].fingerprint.content) ==> HasContent(vs + [v], i, ms[i].fingerprint.content)
    {
      HasContentAppend(vs, v, i, ms[i].fingerprint.content);
    }
    HasContentAppend(vs, v, m, v.normalizedHash);
  }

  lemma UniqueAppend(ms: seq<Message>, vs: seq<Version>, m: nat, v: Version)
    requires ContentsUnique(vs) && CompleteSpreads(ms, vs) && NextVersion(ms, vs, m, v)
    ensures ContentsUnique(vs + [v]) && CompleteSpreads(ms[m := WithVersion(ms[m], |vs|, v.completion)], vs + [v])
  {
    forall w | 0 <= w < |vs| && vs[w].message == m ensures vs[w].normalizedHash != v.normalizedHash {
    }
  }

  lemma VersionAppendKeepsHistory(ms: seq<Message>, vs: seq<Version>, m: nat, v: Version)
    requires Linked0(ms, vs) && History(ms, vs) && NextVersion(ms, vs, m, v)
    ensures History(ms[m := WithVersion(ms[m], |vs|, v.completion)], vs + [v])
  {
    NumberedAppend(ms, vs, m, v);
    CurrentAppend(ms, vs, m, v);
    OwnContentAppend(ms, vs, m, v);
    UniqueAppend(ms, vs, m, v);
  }

  lemma OneEventEachAppend(vs: seq<Version>, es: seq<Event>, v: Version, e: Event)
    requires OneEventEach(vs, es) && v.captureEvent == |es| && e.message == Some(v.message)
    ensures OneEventEach(vs + [v], es + [e])
  {
    var vs', es' := vs + [v], es + [e];
    forall i | 0 <= i < |es'| && es'[i].message.Some? ensures exists w :: RecordsVersion(vs', i, w) {
      if i < |es| {
        var w :| RecordsVersion(vs, i, w);
        assert RecordsVersion(vs', i, w);
      } else {
        assert RecordsVersion(vs', i, |vs|);
      }
    }
  }

  lemma OneEventEachOther(vs: seq<Version>, es: seq<Event>, e: Event)
    requires OneEventEach(vs, es) && e.message.None?
    ensures OneEventEach(vs, es + [e])
  {
    var es' := es + [e];
    forall i | 0 <= i < |es'| && es'[i].message.Some? ensures exists w :: RecordsVersion(vs, i, w) {
      assert es'[i] == es[i];
      var w :| RecordsVersion(vs, i, w);
    }
  }

  /** Appending a version together with the event that records it. */
  ghost predicate RowsAppended(s: Archive, m: nat, v: Version, e: Event, c: nat, row: Conversation, t: Archive)
    requires m < |s.messages| && c < |s.conversations|
  {
    && t == s.(versions := s.versions + [v], events := s.events + [e],
               messages := s.messages[m := WithVersion(s.messages[m], |s.versions|, v.completion)],
               conversations := s.conversations[c := row])
    && v.captureEvent == |s.events| && e.message == Some(m) && row.source == s.conversations[c].source
    && row.messageCount == s.conversations[c].messageCount + (if s.messages[m].versionCount == 0 then 1 else 0)
  }

  lemma CountsAfterAppend(cs: seq<Conversation>, ms: seq<Message>, m: nat, row: Message, c: nat, crow: Conversation)
    requires Counts(cs, ms) && m < |ms| && c < |cs| && ms[m].conversation == row.conversation == c
    requires row.versionCount > 0
    requires crow.messageCount == cs[c].messageCount + (if ms[m].versionCount == 0 then 1 else 0)
    ensures Counts(cs[c := crow], ms[m := row])
  {
    var cs', ms' := cs[c := crow], ms[m := row];
    forall d | 0 <= d < |cs| ensures cs'[d].messageCount == VersionedIn(ms', d) {
      VersionedInUpdate(ms, m, row, d);
    }
  }

  lemma RowsAppendKeepBase(s: Archive, m: nat, v: Version, e: Event, c: nat, row: Conversation, t: Archive)
    requires Base(s) && NextVersion(s.messages, s.versions, m, v)
    requires c < |s.conversations| && s.messages[m].conversation == c
    requires RowsAppended(s, m, v, e, c, row, t)
    ensures Base(t)
  {
    VersionAppendKeepsHistory(s.messages, s.versions, m, v);
    OneEventEachAppend(s.versions, s.events, v, e);
    var message := WithVersion(s.messages[m], |s.versions|, v.completion);
    CountsAfterAppend(s.conversations, s.messages, m, message, c, row);
    AppendKeepsLinks(s.conversations, s.messages, s.versions, m, message, v, c, row);
    KeysStayOk(|s.conversations|, s.messages, s.versions, |t.conversations|, t.messages, t.versions, s.keys);
  }

  lemma AppendKeepsLinks(cs: seq<Conversation>, ms: seq<Message>, vs: seq<Version>, m: nat, message: Message,
                         v: Version, c: nat, row: Conversation)
    requires Linked(|cs|, ms, vs) && ConversationsUnique(cs) && m < |ms| && v.message == m && c < |cs|
    requires message.conversation == ms[m].conversation && message.fingerprint == ms[m].fingerprint
    requires message.role == ms[m].role
    requires row.source == cs[c].source
    ensures Linked(|cs[c := row]|, ms[m := message], vs + [v]) && ConversationsUnique(cs[c := row])
    ensures LinksKept(ms, vs, ms[m := message], vs + [v])
  {
  }

  // ---------------------------------------------------------------- promotion and archiving marks

  ghost predicate Promoted(a: Version, b: Version) {
    && b == a.(completion := b.completion, rawKey := b.rawKey)
    && (b.completion == a.completion || (a.completion == Partial && b.completion == Reconciled))
  }

  /** Some partial versions promoted, some archive keys set, nothing else. */
  ghost predicate AllPromoted(vs: seq<Version>, vs': seq<Version>) {
    |vs'| == |vs| && forall v | 0 <= v < |vs| :: Promoted(vs[v], vs'[v])
  }

  ghost predicate AllRaised(ms: seq<Message>, ms': seq<Message>) {
    |ms'| == |ms| && forall m | 0 <= m < |ms| ::
      && ms'[m] == ms[m].(completion := ms'[m].completion)
      && (ms[m].completion == Complete ==> ms'[m].completion == Complete)
  }

  lemma PromotionKeepsNumbers(ms: seq<Message>, vs: seq<Version>, ms': seq<Message>, vs': seq<Version>)
    requires AllRaised(ms, ms') && AllPromoted(vs, vs') && Numbered(ms, vs) && CurrentIsNewest(ms, vs)
    ensures Numbered(ms', vs') && CurrentIsNewest(ms', vs')
  {
    forall i: nat, n: nat ensures HasNumber(vs, i, n) ==> HasNumber(vs', i, n) {
      if HasNumber(vs, i, n) {
        var w :| IsVersion(vs, i, n, w);
        assert IsVersion(vs', i, n, w);
      }
    }
    forall i | 0 <= i < |ms| && ms[i].versionCount > 0
      ensures IsVersion(vs', i, ms[i].versionCount, ms[i].currentVersion.value)
    {
      assert IsVersion(vs, i, ms[i].versionCount, ms[i].currentVersion.value);
    }
  }

  lemma PromotionKeepsContent(ms: seq<Message>, vs: seq<Version>, ms': seq<Message>, vs': seq<Version>)
    requires AllRaised(ms, ms') && AllPromoted(vs, vs') && ContentsUnique(vs) && HoldsOwnContent(ms, vs)
    ensures ContentsUnique(vs') && HoldsOwnContent(ms', vs')
  {
    forall i: nat, hash ensures HasContent(vs, i, hash) ==> HasContent(vs', i, hash) {
      if HasContent(vs, i, hash) {
        var w :| 0 <= w < |vs| && vs[w].message == i && vs[w].normalizedHash == hash;
        assert vs'[w].message == i;
      }
    }
  }

  lemma PromotionKeepsRows(n: nat, ms: seq<Message>, vs: seq<Version>, ms': seq<Message>, vs': seq<Version>)
    requires AllRaised(ms, ms') && AllPromoted(vs, vs') && Linked(n, ms, vs)
    requires FingerprintsUnique(ms) && SourcesUnique(ms) && CompleteSpreads(ms, vs)
    ensures Linked(n, ms', vs') && FingerprintsUnique(ms') && SourcesUnique(ms') && CompleteSpreads(ms', vs')
  {
  }

  lemma PromotionKeepsEvents(vs: seq<Version>, es: seq<Event>, vs': seq<Version>, es': seq<Event>)
    requires OneEventEach(vs, es) && AllPromoted(vs, vs')
    requires |es'| == |es| && forall e | 0 <= e < |es| :: es'[e].message == es[e].message
    ensures OneEventEach(vs', es')
  {
    forall e | 0 <= e < |es| && es[e].message.Some? ensures exists w :: RecordsVersion(vs', e, w) {
      var w :| RecordsVersion(vs, e, w);
      assert RecordsVersion(vs', e, w);
    }
  }

  lemma PromotionKeepsBase(s: Archive, m: nat, vs': seq<Version>)
    requires Base(s) && m < |s.messages| && AllPromoted(s.versions, vs')
    ensures Base(s.(messages := s.messages[m := s.messages[m].(completion := Complete)], versions := vs'))
  {
    var ms' := s.messages[m := s.messages[m].(completion := Complete)];
    PromotionKeepsNumbers(s.messages, s.versions, ms', vs');
    PromotionKeepsContent(s.messages, s.versions, ms', vs');
    PromotionKeepsEvents(s.versions, s.events, vs', s.events);
    PromotionKeepsRows(|s.conversations|, s.messages, s.versions, ms', vs');
    CountsAfterCompletion(s.conversations, s.messages, m);
    KeysStayOk(|s.conversations|, s.messages, s.versions, |s.conversations|, ms', vs', s.keys);
  }

  lemma CountsAfterCompletion(cs: seq<Conversation>, ms: seq<Message>, m: nat)
    requires Counts(cs, ms) && m < |ms|
    ensures Counts(cs, ms[m := ms[m].(completion := Complete)])
  {
    var ms' := ms[m := ms[m].(completion := Complete)];
    forall c | 0 <= c < |cs| ensures VersionedIn(ms', c) == VersionedIn(ms, c) {
      VersionedInUpdate(ms, m, ms'[m], c);
    }
  }

  lemma ArchivingKeepsBase(s: Archive, vs': seq<Version>, es': seq<Event>)
    requires Base(s) && AllPromoted(s.versions, vs')
    requires |es'| == |s.events| && forall e | 0 <= e < |es'| :: es'[e].message == s.events[e].message
    ensures Base(s.(versions := vs', events := es'))
  {
    PromotionKeepsNumbers(s.messages, s.versions, s.messages, vs');
    PromotionKeepsContent(s.messages, s.versions, s.messages, vs');
    PromotionKeepsEvents(s.versions, s.events, vs', es');
    PromotionKeepsRows(|s.conversations|, s.messages, s.versions, s.messages, vs');
    KeysStayOk(|s.conversations|, s.messages, s.versions, |s.conversations|, s.messages, vs', s.keys);
  }
}
