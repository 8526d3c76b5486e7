/** At-least-once delivery, exactly-once effect. */
module ExactlyOnce {
  import opened Common
  import opened Identity
  import opened Ingestion
  import ArchiveRuns

  datatype Delivery = Delivery(payload: Payload, at: int)

  // ---------------------------------------------------------------- equality up to last_captured_at

  ghost predicate SameConversation(a: Conversation, b: Conversation) {
    a == b.(lastCapturedAt := a.lastCapturedAt)
  }

  /** Equal in every table and column except `last_captured_at`. */
  ghost predicate Same(s: Archive, t: Archive) {
    && s == t.(conversations := s.conversations) && |s.conversations| == |t.conversations|
    && forall c | 0 <= c < |s.conversations| :: SameConversation(s.conversations[c], t.conversations[c])
  }

  lemma SameFind(s: Archive, t: Archive, source: string)
    requires Same(s, t)
    ensures FindConversation(s, source) == FindConversation(t, source)
  {
    var a, b := FindConversation(s, source), FindConversation(t, source);
    if a.Some? {
      assert SameConversation(s.conversations[a.value], t.conversations[a.value]);
    }
    if b.Some? {
      assert SameConversation(s.conversations[b.value], t.conversations[b.value]);
    }
  }

  lemma SameGetOrCreate(env: Env, s: Archive, t: Archive, source: string, d: Details, coverage: Coverage, now: int)
    requires Same(s, t)
    ensures var (s1, c) := GetOrCreateConversation(env, s, source, d, coverage, now);
      var (t1, e) := GetOrCreateConversation(env, t, source, d, coverage, now);
      c == e && Same(s1, t1)
  {
    SameFind(s, t, source);
    var f := FindConversation(s, source);
    if f.Some? {
      assert SameConversation(s.conversations[f.value], t.conversations[f.value]);
    }
  }

  lemma SamePrepare(env: Env, s: Archive, t: Archive, c: nat, p: Payload, now: int)
    requires Same(s, t) && c < |s.conversations|
    ensures var (s1, m) := Prepare(env, s, c, p, now);
      var (t1, n) := Prepare(env, t, c, p, now);
      m == n && Same(s1, t1)
  {
  }

  lemma SameSnapshot(s: Archive, t: Archive, c: nat, now: int)
    requires Same(s, t) && c < |s.conversations|
    ensures Same(MarkSnapshotStale(s, c, now), MarkSnapshotStale(t, c, now))
  {
    assert SameConversation(s.conversations[c], t.conversations[c]);
  }

  lemma SameAppend(env: Env, s: Archive, t: Archive, c: nat, m: nat, p: Payload, now: int)
    requires Same(s, t) && c < |s.conversations| && m < |s.messages|
    ensures Same(AppendVersion(env, s, c, m, p, now), AppendVersion(env, t, c, m, p, now))
  {
    assert SameConversation(s.conversations[c], t.conversations[c]);
    var ref := ResultRef(Some(c), Some(m), Some(|s.versions|));
    var s1, t1 := AppendRows(env, s, c, m, p, now), AppendRows(env, t, c, m, p, now);
    var s2 := RecordEvent(s1, c, Some(m), p.key, MessageBody(p), now);
    var t2 := RecordEvent(t1, c, Some(m), p.key, MessageBody(p), now);
    SameSnapshot(SetResult(s2, p.key, ref), SetResult(t2, p.key, ref), c, now);
  }

  lemma SameSeenAgain(s: Archive, t: Archive, c: nat, m: nat, v: nat, p: Payload, now: int)
    requires Same(s, t) && c < |s.conversations| && m < |s.messages| && v < |s.versions|
    ensures Same(SeenAgain(s, c, m, v, p, now), SeenAgain(t, c, m, v, p, now))
  {
    var ref := ResultRef(Some(c), Some(m), Some(v));
    if Promotes(s, v, p) {
      SameSnapshot(SetResult(Promote(s, m, v), p.key, ref), SetResult(Promote(t, m, v), p.key, ref), c, now);
    }
  }

  lemma SameIngest(env: Env, s: Archive, t: Archive, p: Payload, now: int)
    requires Same(s, t)
    ensures Same(Ingest(env, s, p, now).0, Ingest(env, t, p, now).0)
    ensures Ingest(env, s, p, now).1 == Ingest(env, t, p, now).1
  {
    if p.declared == Sha256(p.text) {
      SameGetOrCreate(env, s, t, p.conversation, NO_DETAILS, LiveOnly, now);
      var (s1, c) := GetOrCreateConversation(env, s, p.conversation, NO_DETAILS, LiveOnly, now);
      var (t1, _) := GetOrCreateConversation(env, t, p.conversation, NO_DETAILS, LiveOnly, now);
      if p.key !in s1.keys {
        SamePrepare(env, s1, t1, c, p, now);
        var (s2, m) := Prepare(env, s1, c, p, now);
        var (t2, _) := Prepare(env, t1, c, p, now);
        match FindVersion(s2, m, ContentHash(env, p.text))
        case Some(v) => SameSeenAgain(s2, t2, c, m, v, p, now);
        case None => SameAppend(env, s2, t2, c, m, p, now);
      }
    }
  }

  lemma SameUpsert(env: Env, s: Archive, t: Archive, u: Upsert, now: int)
    requires Same(s, t)
    ensures Same(UpsertConversation(env, s, u, now), UpsertConversation(env, t, u, now))
  {
    SameGetOrCreate(env, s, t, u.conversation, u.details, u.coverage, now);
    if u.key !in s.keys {
      var (s1, c) := GetOrCreateConversation(env, s, u.conversation, u.details, u.coverage, now);
      var (t1, _) := GetOrCreateConversation(env, t, u.conversation, u.details, u.coverage, now);
      var row := KeyRow(now, ResultRef(Some(c), None, None));
      SameUpsertRecord(s1.(keys := s1.keys[u.key := row]), t1.(keys := t1.keys[u.key := row]), c, u, now);
    }
  }

  lemma SameUpsertRecord(s: Archive, t: Archive, c: nat, u: Upsert, now: int)
    requires Same(s, t) && c < |s.conversations|
    ensures Same(MarkSnapshotStale(RecordEvent(s, c, None, u.key, UpsertBody(u), now), c, now),
                 MarkSnapshotStale(RecordEvent(t, c, None, u.key, UpsertBody(u), now), c, now))
  {
    var body := UpsertBody(u);
    SameSnapshot(RecordEvent(s, c, None, u.key, body, now), RecordEvent(t, c, None, u.key, body, now), c, now);
  }

  lemma SameImport(s: Archive, t: Archive, source: string, eventTime: Option<int>, now: int)
    requires Same(s, t)
    ensures Same(ImportConversation(s, source, eventTime, now), ImportConversation(t, source, eventTime, now))
  {
    SameFind(s, t, source);
    var f := FindConversation(s, source);
    if f.Some? {
      assert SameConversation(s.conversations[f.value], t.conversations[f.value]);
    }
  }

  lemma SameReconcile(s: Archive, t: Archive, m: nat)
    requires Same(s, t)
    ensures Same(Reconcile(s, m), Reconcile(t, m))
  {
    SameNewest(s, t, m, |s.versions|);
    if m < |s.messages| && s.messages[m].conversation < |s.conversations| {
      var c := s.messages[m].conversation;
      assert SameConversation(s.conversations[c], t.conversations[c]);
    }
  }

  lemma {:induction false} SameNewest(s: Archive, t: Archive, m: nat, n: nat)
    requires s.versions == t.versions && n <= |s.versions|
    ensures NewestComplete(s, m, n) == NewestComplete(t, m, n)
  {
    if n > 0 {
      SameNewest(s, t, m, n - 1);
    }
  }

  /** Archives that agree go on agreeing, whatever statement runs next. */
  lemma SameAct(env: Env, s: Archive, t: Archive, a: ArchiveRuns.Action)
    requires Same(s, t)
    ensures Same(ArchiveRuns.Act(env, s, a), ArchiveRuns.Act(env, t, a))
  {
    match a
    case Deliver(p, at) => SameIngest(env, s, t, p, at);
    case DeliverUpsert(u, at) => SameUpsert(env, s, t, u, at);
    case Import(source, eventTime, at) => SameImport(s, t, source, eventTime, at);
    case Prune(cutoff) =>
    case ReconcileJob(m) => SameReconcile(s, t, m);
  }

  // ---------------------------------------------------------------- one replay

  /** A conversation a browser capture has been through. */
  predicate Captured(c: Conversation) {
    Rank(c.coverage) >= Rank(LiveOnly) && c.user.Some? && ChromeExtension in c.sources
  }

  predicate NamesCaptured(s: Archive, source: string) {
    var c := FindConversation(s, source);
    c.Some? && Captured(s.conversations[c.value])
  }

  predicate IsReplay(s: Archive, p: Payload) {
    p.declared == Sha256(p.text) && p.key in s.keys
  }

  /** A replay leaves the archive as it was exactly when it names a conversation that has been captured before;
      and it always answers with what is stored for its key. */
  lemma ReplayIsNoOpExactly(env: Env, s: Archive, p: Payload, now: int)
    requires IsReplay(s, p)
    ensures Same(s, Ingest(env, s, p, now).0) <==> NamesCaptured(s, p.conversation)
    ensures Ingest(env, s, p, now).1.Replay? && Ingest(env, s, p, now).1.result == s.keys[p.key].result
  {
    var (t, c) := GetOrCreateConversation(env, s, p.conversation, NO_DETAILS, LiveOnly, now);
    match FindConversation(s, p.conversation)
    case None =>
    case Some(d) =>
      var a, b := s.conversations[d], t.conversations[d];
      assert b == Touched(env, a, NO_DETAILS, LiveOnly, now);
      assert ChromeExtension !in a.sources ==> |b.sources| == |a.sources| + 1;
      if Same(s, t) {
        assert SameConversation(a, b);
      }
  }

  /** A key reused for another conversation is answered as a replay, yet creates that conversation. */
  lemma ReusedKeyCreatesConversation(env: Env, s: Archive, p: Payload, now: int)
    requires IsReplay(s, p) && FindConversation(s, p.conversation).None?
    ensures |Ingest(env, s, p, now).0.conversations| == |s.conversations| + 1
    ensures Ingest(env, s, p, now).1.Replay? && !Same(s, Ingest(env, s, p, now).0)
  {
  }

  // ---------------------------------------------------------------- whole runs

  function DeliverAll(env: Env, s: Archive, ds: seq<Delivery>): Archive
    decreases |ds|
  {
    if ds == [] then s else DeliverAll(env, Ingest(env, s, ds[0].payload, ds[0].at).0, ds[1..])
  }

  /** The key an action is delivered under. */
  function KeyOf(a: ArchiveRuns.Action): Option<string> {
    match a
    case Deliver(p, _) => Some(p.key)
    case DeliverUpsert(u, _) => Some(u.key)
    case _ => None
  }

  /** A delivery, of a message or of an upsert, whose key is already claimed. */
  predicate Repeats(s: Archive, a: ArchiveRuns.Action) {
    KeyOf(a).Some? && KeyOf(a).value in s.keys
  }

  /** The run without every delivery whose key was already claimed when it arrived. */
  function Once(env: Env, s: Archive, actions: seq<ArchiveRuns.Action>): seq<ArchiveRuns.Action>
    decreases |actions|
  {
    if actions == [] then []
    else
      var rest := Once(env, ArchiveRuns.Act(env, s, actions[0]), actions[1..]);
      if Repeats(s, actions[0]) then rest else [actions[0]] + rest
  }

  /** A browser claim of at least live coverage. */
  predicate ClaimsLive(coverage: Coverage) {
    coverage != ComplianceVerified && Rank(coverage) >= Rank(LiveOnly)
  }

  /** `home` says which conversation each message key belongs to. An upsert may share such a key only for the same
      conversation and with at least live coverage. */
  predicate AtHome(a: ArchiveRuns.Action, home: map<string, string>) {
    match a
    case Deliver(p, _) => p.key in home && home[p.key] == p.conversation
    case DeliverUpsert(u, _) => u.key in home ==> home[u.key] == u.conversation && ClaimsLive(u.coverage)
    case _ => true
  }

  ghost predicate KeysAtHome(s: Archive, actions: seq<ArchiveRuns.Action>, home: map<string, string>) {
    && (forall k | k in s.keys && k in home :: NamesCaptured(s, home[k]))
    && (forall i | 0 <= i < |actions| :: AtHome(actions[i], home))
  }

  ghost predicate CapturedKeeps(a: Conversation, b: Conversation) {
    b.source == a.source && (Captured(a) ==> Captured(b))
  }

  ghost predicate AllKeep(cs: seq<Conversation>, ds: seq<Conversation>) {
    |cs| <= |ds| && forall c | 0 <= c < |cs| :: CapturedKeeps(cs[c], ds[c])
  }

  lemma StoreKeeps(env: Env, s: Archive, c: nat, m: nat, p: Payload, now: int)
    requires c < |s.conversations| && m < |s.messages|
    requires FindVersion(s, m, ContentHash(env, p.text)).None? ==> DistinctPartIndexes(KeptParts(p))
    ensures AllKeep(s.conversations, StoreContent(env, s, c, m, p, now).0.conversations)
    ensures |StoreContent(env, s, c, m, p, now).0.conversations| == |s.conversations|
  {
  }

  lemma CapturedKept(env: Env, s: Archive, p: Payload, now: int)
    ensures AllKeep(s.conversations, Ingest(env, s, p, now).0.conversations)
  {
    if p.declared == Sha256(p.text) {
      var (s1, c) := GetOrCreateConversation(env, s, p.conversation, NO_DETAILS, LiveOnly, now);
      assert AllKeep(s.conversations, s1.conversations);
      if p.key !in s1.keys {
        var (s2, m) := Prepare(env, s1, c, p, now);
        assert s2.conversations == s1.conversations;
        if FindVersion(s2, m, ContentHash(env, p.text)).Some? || DistinctPartIndexes(KeptParts(p)) {
          StoreKeeps(env, s2, c, m, p, now);
          var s3 := StoreContent(env, s2, c, m, p, now).0;
          forall d | 0 <= d < |s.conversations| ensures CapturedKeeps(s.conversations[d], s3.conversations[d]) {
            assert CapturedKeeps(s.conversations[d], s1.conversations[d])
              && CapturedKeeps(s2.conversations[d], s3.conversations[d]);
          }
        }
      }
    }
  }

  lemma NamesKept(s: Archive, t: Archive, source: string)
    requires AllKeep(s.conversations, t.conversations) && NamesCaptured(s, source)
    ensures NamesCaptured(t, source)
  {
    var c := FindConversation(s, source).value;
    assert CapturedKeeps(s.conversations[c], t.conversations[c]);
    forall i | 0 <= i < c ensures t.conversations[i].source != source {
      assert CapturedKeeps(s.conversations[i], t.conversations[i]);
    }
  }

  lemma CreatedIsCaptured(env: Env, s: Archive, source: string, d: Details, coverage: Coverage, now: int)
    requires ClaimsLive(coverage)
    ensures NamesCaptured(GetOrCreateConversation(env, s, source, d, coverage, now).0, source)
  {
    var (t, c) := GetOrCreateConversation(env, s, source, d, coverage, now);
    assert Captured(t.conversations[c]);
    assert forall i | 0 <= i < c :: t.conversations[i].source != source;
  }

  lemma StoringKeepsKeys(env: Env, s: Archive, c: nat, m: nat, p: Payload, now: int)
    requires c < |s.conversations| && m < |s.messages| && p.key in s.keys
    requires FindVersion(s, m, ContentHash(env, p.text)).None? ==> DistinctPartIndexes(KeptParts(p))
    ensures var t := StoreContent(env, s, c, m, p, now).0;
      && t.keys.Keys == s.keys.Keys && (forall k | k in s.keys && k != p.key :: t.keys[k] == s.keys[k])
  {
  }

  /** A delivery claims its own key or none, and a newly claimed key's conversation has then been captured. */
  lemma KeysAfterIngest(env: Env, s: Archive, p: Payload, now: int)
    ensures var t := Ingest(env, s, p, now).0;
      && (forall k | k in s.keys :: k in t.keys && t.keys[k] == s.keys[k])
      && (forall k | k in t.keys :: k in s.keys || k == p.key)
      && (p.key in t.keys && p.key !in s.keys ==> NamesCaptured(t, p.conversation))
  {
    if p.declared == Sha256(p.text) && p.key !in s.keys {
      CreatedIsCaptured(env, s, p.conversation, NO_DETAILS, LiveOnly, now);
      var (s1, c) := GetOrCreateConversation(env, s, p.conversation, NO_DETAILS, LiveOnly, now);
      var (s2, m) := Prepare(env, s1, c, p, now);
      if FindVersion(s2, m, ContentHash(env, p.text)).Some? || DistinctPartIndexes(KeptParts(p)) {
        KeysAfterStoring(env, s1, s2, c, m, p, now);
      }
    }
  }

  lemma KeysAfterStoring(env: Env, s: Archive, u: Archive, c: nat, m: nat, p: Payload, now: int)
    requires c < |s.conversations| && (u, m) == Prepare(env, s, c, p, now) && NamesCaptured(s, p.conversation)
    requires FindVersion(u, m, ContentHash(env, p.text)).None? ==> DistinctPartIndexes(KeptParts(p))
    ensures var t := StoreContent(env, u, c, m, p, now).0;
      && NamesCaptured(t, p.conversation) && p.key in t.keys
      && (forall k | k in s.keys && k != p.key :: k in t.keys && t.keys[k] == s.keys[k])
      && (forall k | k in t.keys :: k in s.keys || k == p.key)
  {
    assert u.conversations == s.conversations && u.keys == ClaimKey(s, p.key, c, now).keys;
    StoreKeeps(env, u, c, m, p, now);
    StoringKeepsKeys(env, u, c, m, p, now);
    NamesKept(s, StoreContent(env, u, c, m, p, now).0, p.conversation);
  }

  lemma CapturedKeptByUpsert(env: Env, s: Archive, u: Upsert, now: int)
    ensures AllKeep(s.conversations, UpsertConversation(env, s, u, now).conversations)
  {
  }

  /** Whatever statement runs, captured conversations stay captured. */
  lemma CapturedKeptByAct(env: Env, s: Archive, a: ArchiveRuns.Action)
    ensures AllKeep(s.conversations, ArchiveRuns.Act(env, s, a).conversations)
  {
    match a
    case Deliver(p, at) => CapturedKept(env, s, p, at);
    case DeliverUpsert(u, at) => CapturedKeptByUpsert(env, s, u, at);
    case _ =>
  }

  /** A statement claims at most the key it carries, and under a key at home that conversation has then been
      captured. */
  lemma KeysAfterAct(env: Env, s: Archive, a: ArchiveRuns.Action, home: map<string, string>)
    requires AtHome(a, home)
    ensures var t := ArchiveRuns.Act(env, s, a);
      forall k | k in t.keys && k !in s.keys && k in home :: NamesCaptured(t, home[k])
  {
    match a
    case Deliver(p, at) => KeysAfterIngest(env, s, p, at);
    case DeliverUpsert(u, at) =>
      if u.key !in s.keys && u.key in home {
        CreatedIsCaptured(env, s, u.conversation, u.details, u.coverage, at);
        var s1 := GetOrCreateConversation(env, s, u.conversation, u.details, u.coverage, at).0;
        NamesKept(s1, UpsertConversation(env, s, u, at), u.conversation);
      }
    case _ =>
  }

  lemma HomeKept(env: Env, s: Archive, actions: seq<ArchiveRuns.Action>, home: map<string, string>)
    requires actions != [] && KeysAtHome(s, actions, home)
    ensures KeysAtHome(ArchiveRuns.Act(env, s, actions[0]), actions[1..], home)
  {
    var t := ArchiveRuns.Act(env, s, actions[0]);
    KeysAfterAct(env, s, actions[0], home);
    CapturedKeptByAct(env, s, actions[0]);
    forall k | k in t.keys && k in home ensures NamesCaptured(t, home[k]) {
      if k in s.keys {
        NamesKept(s, t, home[k]);
      }
    }
  }

  lemma SameTransitive(s: Archive, t: Archive, u: Archive)
    requires Same(s, t) && Same(t, u)
    ensures Same(s, u)
  {
    forall c | 0 <= c < |s.conversations| ensures SameConversation(s.conversations[c], u.conversations[c]) {
      assert SameConversation(s.conversations[c], t.conversations[c])
        && SameConversation(t.conversations[c], u.conversations[c]);
    }
  }

  lemma SameSymmetric(s: Archive, t: Archive)
    requires Same(s, t)
    ensures Same(t, s)
  {
    forall c | 0 <= c < |s.conversations| ensures SameConversation(t.conversations[c], s.conversations[c]) {
      assert SameConversation(s.conversations[c], t.conversations[c]);
    }
  }

  // ---------------------------------------------------------------- replayed upserts

  /** The conversation shows everything an upsert carries. */
  predicate Shows(env: Env, shown: Details, d: Details) {
    && (Carried(d.title) ==> shown.title == Some(env.clean(d.title.value)))
    && (Carried(d.url) ==> shown.url == Some(CutUrl(d.url.value)))
    && (Carried(d.model) ==> shown.model == d.model)
    && (d.updatedAt.Some? ==> shown.updatedAt == d.updatedAt)
  }

  /** The conversation already is what an upsert would make it: it has an owner and a browser source, its coverage is
      no weaker, and it shows each column carried. */
  predicate Reflects(env: Env, s: Archive, u: Upsert) {
    match FindConversation(s, u.conversation)
    case None => false
    case Some(i) =>
      var c := s.conversations[i];
      && c.user.Some? && ChromeExtension in c.sources && MergeCoverage(c.coverage, u.coverage) == c.coverage
      && Shows(env, c.shown, u.details)
  }

  lemma OverwritingNothingNew(env: Env, shown: Details, d: Details)
    ensures Overwritten(env, shown, d) == shown <==> Shows(env, shown, d)
  {
  }

  /** A replayed upsert is applied before it is recognised as a replay, so it changes nothing exactly when the
      conversation already is what it would make it. */
  lemma UpsertReplayIsNoOpExactly(env: Env, s: Archive, u: Upsert, now: int)
    requires u.key in s.keys
    ensures Same(s, UpsertConversation(env, s, u, now)) <==> Reflects(env, s, u)
  {
    var (t, c) := GetOrCreateConversation(env, s, u.conversation, u.details, u.coverage, now);
    match FindConversation(s, u.conversation)
    case None =>
    case Some(d) =>
      var a, b := s.conversations[d], t.conversations[d];
      OverwritingNothingNew(env, a.shown, u.details);
      assert b == Touched(env, a, u.details, u.coverage, now);
      assert ChromeExtension !in a.sources ==> |b.sources| == |a.sources| + 1;
      if Same(s, t) {
        assert SameConversation(a, b);
      }
  }

  /** A late replay puts old details back: after a newer upsert `v` of the conversation, re-delivering `u` undoes
      whatever both carry. */
  lemma LateUpsertRestoresDetails(env: Env, s: Archive, u: Upsert, v: Upsert, now: int, later: int)
    requires u.key in s.keys && FindConversation(s, u.conversation).Some? && v.conversation == u.conversation
    ensures var c := FindConversation(s, u.conversation).value;
      var t := UpsertConversation(env, s, v, now);
      c < |t.conversations| && Shows(env, t.conversations[c].shown, v.details)
      && c < |UpsertConversation(env, t, u, later).conversations|
      && Shows(env, UpsertConversation(env, t, u, later).conversations[c].shown, u.details)
  {
    var c := FindConversation(s, u.conversation).value;
    UpsertIsShown(env, s, v, now, c);
    UpsertIsShown(env, UpsertConversation(env, s, v, now), u, later, c);
  }

  lemma UpsertIsShown(env: Env, s: Archive, u: Upsert, now: int, c: nat)
    requires FindConversation(s, u.conversation) == Some(c)
    ensures var t := UpsertConversation(env, s, u, now);
      FindConversation(t, u.conversation) == Some(c) && Shows(env, t.conversations[c].shown, u.details)
  {
    var t := UpsertConversation(env, s, u, now);
    assert t.conversations[c].source == u.conversation;
    assert forall i | 0 <= i < c :: t.conversations[i].source == s.conversations[i].source;
  }

  // ---------------------------------------------------------------- the effect of whole runs

  /** Every repeated upsert of the run finds the conversation as it would make it. */
  ghost predicate UpsertsQuiet(env: Env, s: Archive, actions: seq<ArchiveRuns.Action>)
    decreases |actions|
  {
    actions == [] ||
    (&& (actions[0].DeliverUpsert? && Repeats(s, actions[0]) ==> Reflects(env, s, actions[0].upsert))
     && UpsertsQuiet(env, ArchiveRuns.Act(env, s, actions[0]), actions[1..]))
  }

  /** Exactly-once effect: a run in which a repeated message key names the same conversation and repeated upserts are
      quiet leaves the archive, jobs included, as the run without the repeats would, up to `last_captured_at`.
      Imports, reconcile jobs and prunings may come anywhere between. */
  lemma {:induction false} ExactlyOnceEffect(env: Env, s: Archive, t: Archive, actions: seq<ArchiveRuns.Action>,
                                             home: map<string, string>)
    requires Same(s, t) && KeysAtHome(s, actions, home) && UpsertsQuiet(env, s, actions)
    ensures Same(ArchiveRuns.Run(env, s, actions), ArchiveRuns.Run(env, t, Once(env, s, actions)))
    decreases |actions|
  {
    if actions != [] {
      var a := actions[0];
      var s1 := ArchiveRuns.Act(env, s, a);
      HomeKept(env, s, actions, home);
      if Repeats(s, a) {
        RepeatLeavesSame(env, s, t, a, home);
        ExactlyOnceEffect(env, s1, t, actions[1..], home);
      } else {
        SameAct(env, s, t, a);
        ExactlyOnceEffect(env, s1, ArchiveRuns.Act(env, t, a), actions[1..], home);
        RunCons(env, t, a, Once(env, s1, actions[1..]));
      }
    }
  }

  lemma RunCons(env: Env, s: Archive, a: ArchiveRuns.Action, rest: seq<ArchiveRuns.Action>)
    ensures ArchiveRuns.Run(env, s, [a] + rest) == ArchiveRuns.Run(env, ArchiveRuns.Act(env, s, a), rest)
  {
    assert ([a] + rest)[1..] == rest;
  }

  lemma RepeatLeavesSame(env: Env, s: Archive, t: Archive, a: ArchiveRuns.Action, home: map<string, string>)
    requires Same(s, t) && Repeats(s, a) && AtHome(a, home)
    requires forall k | k in s.keys && k in home :: NamesCaptured(s, home[k])
    requires a.DeliverUpsert? ==> Reflects(env, s, a.upsert)
    ensures Same(ArchiveRuns.Act(env, s, a), t)
  {
    match a
    case Deliver(p, at) => ReplayLeavesSame(env, s, t, p, at);
    case DeliverUpsert(u, at) =>
      UpsertReplayIsNoOpExactly(env, s, u, at);
      SameSymmetric(s, UpsertConversation(env, s, u, at));
      SameTransitive(UpsertConversation(env, s, u, at), s, t);
    case _ =>
  }

  lemma ReplayLeavesSame(env: Env, s: Archive, t: Archive, p: Payload, now: int)
    requires Same(s, t) && p.key in s.keys && NamesCaptured(s, p.conversation)
    ensures Same(Ingest(env, s, p, now).0, t)
  {
    if p.declared == Sha256(p.text) {
      ReplayIsNoOpExactly(env, s, p, now);
      SameSymmetric(s, Ingest(env, s, p, now).0);
      SameTransitive(Ingest(env, s, p, now).0, s, t);
    }
  }

  /** The ids answered to a delivery that claimed its key. */
  function Answer(o: Outcome): ResultRef
    requires o.Accepted? || o.Duplicate?
  {
    ResultRef(Some(o.conversation), Some(o.message), Some(o.version))
  }

  lemma ClaimStoresAnswer(env: Env, s: Archive, p: Payload, now: int)
    requires p.key !in s.keys
    ensures var (t, o) := Ingest(env, s, p, now);
      if o.Accepted? || o.Duplicate? then p.key in t.keys && t.keys[p.key] == KeyRow(now, Answer(o))
      else t == s && (o.Rejected? || o.Conflict?)
  {
    if p.declared == Sha256(p.text) {
      var (s1, c) := GetOrCreateConversation(env, s, p.conversation, NO_DETAILS, LiveOnly, now);
      var (s2, m) := Prepare(env, s1, c, p, now);
      assert s2.keys == ClaimKey(s1, p.key, c, now).keys;
      if FindVersion(s2, m, ContentHash(env, p.text)).Some? || DistinctPartIndexes(KeptParts(p)) {
        StoringAnswers(env, s2, c, m, p, now);
      }
    }
  }

  lemma StoringAnswers(env: Env, s: Archive, c: nat, m: nat, p: Payload, now: int)
    requires c < |s.conversations| && m < |s.messages| && p.key in s.keys
    requires FindVersion(s, m, ContentHash(env, p.text)).None? ==> DistinctPartIndexes(KeptParts(p))
    ensures var (t, o) := StoreContent(env, s, c, m, p, now);
      (o.Accepted? || o.Duplicate?) && p.key in t.keys && t.keys[p.key] == s.keys[p.key].(result := Answer(o))
  {
  }

  /** No pruning among the actions reaches a key created at `created`. */
  predicate SparesKey(actions: seq<ArchiveRuns.Action>, created: int) {
    forall i | 0 <= i < |actions| && actions[i].Prune? :: actions[i].cutoff <= created
  }

  lemma ActKeepsClaim(env: Env, s: Archive, a: ArchiveRuns.Action, key: string)
    requires key in s.keys && (a.Prune? ==> a.cutoff <= s.keys[key].createdAt)
    ensures key in ArchiveRuns.Act(env, s, a).keys && ArchiveRuns.Act(env, s, a).keys[key] == s.keys[key]
  {
    match a
    case Deliver(p, at) => KeysAfterIngest(env, s, p, at);
    case DeliverUpsert(u, at) =>
    case Import(source, eventTime, at) =>
    case Prune(cutoff) =>
    case ReconcileJob(m) =>
  }

  lemma {:induction false} ClaimsPersist(env: Env, s: Archive, actions: seq<ArchiveRuns.Action>, key: string)
    requires key in s.keys && SparesKey(actions, s.keys[key].createdAt)
    ensures var t := ArchiveRuns.Run(env, s, actions); key in t.keys && t.keys[key] == s.keys[key]
    decreases |actions|
  {
    if actions != [] {
      ActKeepsClaim(env, s, actions[0], key);
      ClaimsPersist(env, ArchiveRuns.Act(env, s, actions[0]), actions[1..], key);
    }
  }

  /** Every later delivery under a claimed key is answered with the ids stored by the first, whatever deliveries,
      upserts, imports, reconcile jobs and prunings of older keys came between. */
  lemma ReplaysAnswerAlike(env: Env, s: Archive, p: Payload, now: int, actions: seq<ArchiveRuns.Action>, q: Payload,
                           later: int)
    requires p.key !in s.keys && q.key == p.key && q.declared == Sha256(q.text) && SparesKey(actions, now)
    requires Ingest(env, s, p, now).1.Accepted? || Ingest(env, s, p, now).1.Duplicate?
    ensures var (t, o) := Ingest(env, s, p, now);
      var again := Ingest(env, ArchiveRuns.Run(env, t, actions), q, later).1;
      again.Replay? && again.result == Answer(o)
  {
    ClaimStoresAnswer(env, s, p, now);
    ClaimsPersist(env, Ingest(env, s, p, now).0, actions, p.key);
  }

  // ---------------------------------------------------------------- batches

  /** Another exception may strike an item, at some point of its work. A policy error aborts the whole request;
      the rest roll the item back. */
  datatype Fault = NoFault | ValidationFault | InternalFault | PolicyFault

  datatype Item = Item(payload: Payload, fault: Fault, point: nat)

  datatype ItemStatus = Settled(outcome: Outcome) | WriteConflict | Invalid | Retryable

  datatype BatchResult = BatchDone(archive: Archive, statuses: seq<ItemStatus>) | BatchAborted

  function StatusOf(o: Outcome): ItemStatus {
    if o.Conflict? then WriteConflict else Settled(o)
  }

  function IngestBatch(env: Env, s: Archive, items: seq<Item>, now: int): BatchResult {
    if items == [] then BatchDone(s, [])
    else
      match IngestBatch(env, s, items[..|items| - 1], now)
      case BatchAborted => BatchAborted
      case BatchDone(t, statuses) =>
        var item := items[|items| - 1];
        match item.fault
        case NoFault =>
          var (u, o) := Ingest(env, t, item.payload, now);
          BatchDone(u, statuses + [StatusOf(o)])
        case ValidationFault => BatchDone(t, statuses + [Invalid])
        case InternalFault => BatchDone(t, statuses + [Retryable])
        case PolicyFault => BatchAborted
  }

  /** The items that were not struck by a fault, as deliveries. */
  function Unfaulted(items: seq<Item>, now: int): seq<Delivery> {
    if items == [] then []
    else
      var item := items[|items| - 1];
      Unfaulted(items[..|items| - 1], now) + (if item.fault.NoFault? then [Delivery(item.payload, now)] else [])
  }

  lemma {:induction false} DeliverAllAppend(env: Env, s: Archive, ds: seq<Delivery>, d: Delivery)
    ensures DeliverAll(env, s, ds + [d]) == Ingest(env, DeliverAll(env, s, ds), d.payload, d.at).0
    decreases |ds|
  {
    if ds == [] {
      assert ds + [d] == [d];
    } else {
      assert (ds + [d])[1..] == ds[1..] + [d];
      DeliverAllAppend(env, Ingest(env, s, ds[0].payload, ds[0].at).0, ds[1..], d);
    }
  }

  /** A batch leaves exactly the trace of its unfaulted items delivered in order: an item that was rolled back
      leaves none, not even its key. Each item gets one status, and only a policy error aborts. */
  lemma {:induction false} RolledBackItemsLeaveNoTrace(env: Env, s: Archive, items: seq<Item>, now: int)
    ensures var r := IngestBatch(env, s, items, now);
      && (r.BatchAborted? <==> exists i | 0 <= i < |items| :: items[i].fault.PolicyFault?)
      && (r.BatchDone? ==> r.archive == DeliverAll(env, s, Unfaulted(items, now)) && |r.statuses| == |items|)
  {
    OnlyPolicyAborts(env, s, items, now);
    TraceOfUnfaulted(env, s, items, now);
  }

  lemma {:induction false} OnlyPolicyAborts(env: Env, s: Archive, items: seq<Item>, now: int)
    ensures IngestBatch(env, s, items, now).BatchAborted? <==>
      exists i | 0 <= i < |items| :: items[i].fault.PolicyFault?
    decreases |items|
  {
    if items != [] {
      var front := items[..|items| - 1];
      OnlyPolicyAborts(env, s, front, now);
      BatchStep(env, s, items, now);
      assert forall i | 0 <= i < |front| :: items[i] == front[i];
    }
  }

  lemma {:induction false} TraceOfUnfaulted(env: Env, s: Archive, items: seq<Item>, now: int)
    ensures var r := IngestBatch(env, s, items, now);
      r.BatchDone? ==> r.archive == DeliverAll(env, s, Unfaulted(items, now)) && |r.statuses| == |items|
    decreases |items|
  {
    if items != [] {
      var front, last := items[..|items| - 1], items[|items| - 1];
      TraceOfUnfaulted(env, s, front, now);
      DeliverAllAppend(env, s, Unfaulted(front, now), Delivery(last.payload, now));
      BatchStep(env, s, items, now);
      UnfaultedStep(items, now);
    }
  }

  /** One more item: aborted or done as its fault says, from where the others left off. */
  lemma BatchStep(env: Env, s: Archive, items: seq<Item>, now: int)
    requires items != []
    ensures var last := items[|items| - 1];
      var front, r := IngestBatch(env, s, items[..|items| - 1], now), IngestBatch(env, s, items, now);
      && (r.BatchAborted? <==> front.BatchAborted? || last.fault.PolicyFault?)
      && (r.BatchDone? ==> |r.statuses| == |front.statuses| + 1)
      && (r.BatchDone? ==>
        r.archive == if last.fault.NoFault? then Ingest(env, front.archive, last.payload, now).0 else front.archive)
  {
  }

  lemma UnfaultedStep(items: seq<Item>, now: int)
    requires items != []
    ensures var front, last := Unfaulted(items[..|items| - 1], now), items[|items| - 1];
      && (last.fault.NoFault? ==> Unfaulted(items, now) == front + [Delivery(last.payload, now)])
      && (!last.fault.NoFault? ==> Unfaulted(items, now) == front)
  {
    assert Unfaulted(items[..|items| - 1], now) + [] == Unfaulted(items[..|items| - 1], now);
  }

  /** What the client is told about one item, from what delivering it to `before` comes to. */
  ghost predicate Told(env: Env, before: Archive, item: Item, now: int, status: ItemStatus) {
    var o := Ingest(env, before, item.payload, now).1;
    match item.fault
    case NoFault => (status == WriteConflict <==> o.Conflict?) && (!o.Conflict? ==> status == Settled(o))
    case ValidationFault => status == Invalid
    case InternalFault => status == Retryable
    case PolicyFault => false
  }

  ghost predicate AllTold(env: Env, s: Archive, items: seq<Item>, now: int, statuses: seq<ItemStatus>) {
    && |statuses| == |items|
    && forall i | 0 <= i < |items| ::
      Told(env, DeliverAll(env, s, Unfaulted(items[..i], now)), items[i], now, statuses[i])
  }

  /** In a batch that is not aborted, every item is told what its delivery, after the unfaulted items before it, came
      to, or the fault that struck it. */
  lemma {:induction false} StatusesTellOutcomes(env: Env, s: Archive, items: seq<Item>, now: int)
    requires IngestBatch(env, s, items, now).BatchDone?
    ensures AllTold(env, s, items, now, IngestBatch(env, s, items, now).statuses)
    decreases |items|
  {
    if items != [] {
      var n := |items| - 1;
      LastIsTold(env, s, items, now);
      StatusesTellOutcomes(env, s, items[..n], now);
      TraceOfUnfaulted(env, s, items[..n], now);
      OneMoreTold(env, s, items, now, IngestBatch(env, s, items, now).statuses);
    }
  }

  lemma OneMoreTold(env: Env, s: Archive, items: seq<Item>, now: int, statuses: seq<ItemStatus>)
    requires items != [] && |statuses| == |items|
    requires AllTold(env, s, items[..|items| - 1], now, statuses[..|items| - 1])
    requires var n := |items| - 1; Told(env, DeliverAll(env, s, Unfaulted(items[..n], now)), items[n], now, statuses[n])
    ensures AllTold(env, s, items, now, statuses)
  {
    var n := |items| - 1;
    forall i | 0 <= i < |items|
      ensures Told(env, DeliverAll(env, s, Unfaulted(items[..i], now)), items[i], now, statuses[i])
    {
      if i < n {
        assert items[..n][..i] == items[..i] && items[..n][i] == items[i] && statuses[..n][i] == statuses[i];
      }
    }
  }

  lemma LastIsTold(env: Env, s: Archive, items: seq<Item>, now: int)
    requires items != [] && IngestBatch(env, s, items, now).BatchDone?
    ensures var n := |items| - 1;
      var front, r := IngestBatch(env, s, items[..n], now), IngestBatch(env, s, items, now);
      && front.BatchDone? && |r.statuses| == |front.statuses| + 1 && r.statuses[..|front.statuses|] == front.statuses
      && Told(env, front.archive, items[n], now, r.statuses[|front.statuses|])
  {
  }

  /** A rejected or conflicting item changes nothing at all. */
  lemma FailedItemsChangeNothing(env: Env, s: Archive, p: Payload, now: int)
    ensures Ingest(env, s, p, now).1.Rejected? <==> p.declared != Sha256(p.text)
    ensures Ingest(env, s, p, now).1.Rejected? || Ingest(env, s, p, now).1.Conflict? ==> Ingest(env, s, p, now).0 == s
    ensures Ingest(env, s, p, now).1.Conflict? ==> !DistinctPartIndexes(KeptParts(p))
  {
  }
}
