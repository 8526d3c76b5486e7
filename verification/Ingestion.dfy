/** The archive and the statements ingestion makes on it (services/ingest.py), step by step. */
module Ingestion {
  import opened Common
  import opened Identity
  import Jobs

  datatype Completion = Complete | Partial | Reconciled | Unspecified

  datatype Coverage = UnknownCoverage | LiveOnly | PartialScrollLimit | CompleteCurrentPage | ReconciledCoverage
                    | ComplianceVerified

  datatype CaptureSource = ChromeExtension | ComplianceApi

  datatype Part = Part(index: nat, kind: string, text: Option<string>)

  /** What an upsert may carry about a conversation as the page shows it. */
  datatype Details = Details(
    title: Option<string>, url: Option<string>, model: Option<string>, createdAt: Option<int>, updatedAt: Option<int>)

  const NO_DETAILS := Details(None, None, None, None, None)

  datatype Conversation = Conversation(
    source: string, shown: Details, coverage: Coverage, user: Option<nat>, sources: seq<CaptureSource>,
    messageCount: nat, snapshotStale: bool, lastCapturedAt: int)

  datatype Branch = Branch(conversation: nat, key: string, selected: bool)

  datatype Message = Message(
    conversation: nat, source: Option<string>, fingerprint: Fingerprint, role: Role, branch: Option<nat>,
    sequenceIndex: nat, sourceCreatedAt: Option<int>, currentVersion: Option<nat>, versionCount: nat,
    completion: Completion, hasAttachments: bool)

  datatype Version = Version(
    message: nat, number: nat, completion: Completion, plainText: string, contentHash: Digest, normalizedHash: Digest,
    isEdit: bool, isRegeneration: bool, parts: seq<Part>, captureEvent: nat, rawKey: Option<ObjectKey>)

  datatype ObjectKey = RawEventKey(event: nat)

  datatype Body = MessageBody(payload: Payload) | UpsertBody(upsert: Upsert)

  datatype Event = Event(
    conversation: nat, message: Option<nat>, idempotencyKey: string, body: Body, rawKey: Option<ObjectKey>,
    archivedAt: Option<int>)

  datatype ResultRef = ResultRef(conversation: Option<nat>, message: Option<nat>, version: Option<nat>)

  datatype KeyRow = KeyRow(createdAt: int, result: ResultRef)

  /** One organisation and workspace. Tables are sequences and a row's id is its position, so a row once written keeps
      its id. */
  datatype Archive = Archive(
    conversations: seq<Conversation>, branches: seq<Branch>, messages: seq<Message>, versions: seq<Version>,
    events: seq<Event>, keys: map<string, KeyRow>, queue: Jobs.Queue)

  datatype Payload = Payload(
    key: string, conversation: string, source: Option<string>, role: Role, sequenceIndex: nat, text: string,
    declared: Digest, parts: seq<Part>, completion: Completion, isEdit: bool, isRegeneration: bool,
    branchKey: Option<string>, branchSelected: bool, sourceCreatedAt: Option<int>, hasAttachments: bool)

  datatype Upsert = Upsert(key: string, conversation: string, details: Details, coverage: Coverage)

  datatype Outcome =
    | Rejected
    | Replay(conversation: nat, result: ResultRef)
    | Duplicate(conversation: nat, message: nat, version: nat, reconciled: bool)
    | Accepted(conversation: nat, message: nat, version: nat)
    | Conflict
    | Struck

  const EMPTY := Archive([], [], [], [], [], map[], Jobs.Queue([], 0))

  // ---------------------------------------------------------------- conversations

  function Rank(c: Coverage): nat {
    match c
    case UnknownCoverage => 0
    case LiveOnly => 1
    case PartialScrollLimit => 2
    case CompleteCurrentPage => 3
    case ReconciledCoverage => 4
    case ComplianceVerified => 5
  }

  function MergeCoverage(current: Coverage, incoming: Coverage): Coverage {
    if incoming == ComplianceVerified then current
    else if Rank(incoming) > Rank(current) then incoming
    else current
  }

  /** Browser claims about coverage only ever strengthen the record, never assert compliance coverage,
      and can arrive in any order and any number of times with the same result. */
  lemma CoverageMergeLaws(c: Coverage, a: Coverage, b: Coverage)
    ensures Rank(UnknownCoverage) < Rank(LiveOnly) < Rank(PartialScrollLimit) < Rank(CompleteCurrentPage)
    ensures Rank(CompleteCurrentPage) < Rank(ReconciledCoverage) < Rank(ComplianceVerified)
    ensures Rank(c) <= Rank(MergeCoverage(c, a))
    ensures a != ComplianceVerified ==> Rank(a) <= Rank(MergeCoverage(c, a))
    ensures MergeCoverage(c, a) == c || MergeCoverage(c, a) == a
    ensures c != ComplianceVerified ==> MergeCoverage(c, a) != ComplianceVerified
    ensures MergeCoverage(MergeCoverage(c, a), b) == MergeCoverage(MergeCoverage(c, b), a)
    ensures MergeCoverage(MergeCoverage(c, a), a) == MergeCoverage(c, a)
  {
  }

  function FindConversation(s: Archive, source: string): Option<nat> {
    FirstIndex(s.conversations, (c: Conversation) => c.source == source)
  }

  function AddSource(sources: seq<CaptureSource>, source: CaptureSource): seq<CaptureSource> {
    if source in sources then sources else sources + [source]
  }

  const MAX_URL := 2048

  function CutUrl(url: string): string {
    if |url| <= MAX_URL then url else url[..MAX_URL]
  }

  /** An empty string counts as nothing carried. */
  predicate Carried(text: Option<string>) {
    text.Some? && text.value != ""
  }

  /** Each column carried overwrites the one shown; the creation time is only ever set on creation. */
  function Overwritten(env: Env, shown: Details, d: Details): Details {
    Details(
      if Carried(d.title) then Some(env.clean(d.title.value)) else shown.title,
      if Carried(d.url) then Some(CutUrl(d.url.value)) else shown.url,
      if Carried(d.model) then d.model else shown.model,
      shown.createdAt,
      if d.updatedAt.Some? then d.updatedAt else shown.updatedAt)
  }

  function Touched(env: Env, c: Conversation, d: Details, coverage: Coverage, now: int): Conversation {
    c.(shown := Overwritten(env, c.shown, d),
       coverage := MergeCoverage(c.coverage, coverage),
       user := if c.user.None? then Some(env.user) else c.user,
       lastCapturedAt := now,
       sources := AddSource(c.sources, ChromeExtension))
  }

  function NewConversation(env: Env, source: string, d: Details, coverage: Coverage, now: int): Conversation {
    var shown := Overwritten(env, NO_DETAILS, d).(model := d.model, createdAt := d.createdAt);
    var covered := MergeCoverage(UnknownCoverage, coverage);
    Conversation(source, shown, covered, Some(env.user), [ChromeExtension], 0, true, now)
  }

  function GetOrCreateConversation(env: Env, s: Archive, source: string, d: Details, coverage: Coverage,
                                   now: int)
    : (r: (Archive, nat))
    ensures r.1 < |r.0.conversations| && r.0.conversations[r.1].source == source
    ensures r.0 == s.(conversations := r.0.conversations)
  {
    match FindConversation(s, source)
    case Some(c) =>
      (s.(conversations := s.conversations[c := Touched(env, s.conversations[c], d, coverage, now)]), c)
    case None =>
      (s.(conversations := s.conversations + [NewConversation(env, source, d, coverage, now)]), |s.conversations|)
  }

  // ---------------------------------------------------------------- events and their jobs

  function Enqueue(s: Archive, task: Jobs.Task, key: Jobs.DedupeKey, priority: nat, now: int): Archive {
    s.(queue := Jobs.Enqueue(s.queue, Jobs.Request(task, Some(key), priority, 8), now, now).0)
  }

  /** The raw event and, in the same transaction, the job that will write it to S3. */
  function RecordEvent(s: Archive, conversation: nat, message: Option<nat>, key: string, body: Body,
                       now: int): Archive {
    var e := |s.events|;
    Enqueue(s.(events := s.events + [Event(conversation, message, key, body, None, None)]),
            Jobs.ArchiveRawEvent(e), Jobs.ArchiveKey(e), 50, now)
  }

  function MarkSnapshotStale(s: Archive, c: nat, now: int): Archive
    requires c < |s.conversations|
  {
    Enqueue(s.(conversations := s.conversations[c := s.conversations[c].(snapshotStale := true)]),
            Jobs.BuildSnapshot(c), Jobs.SnapshotKey(c), 200, now)
  }

  // ---------------------------------------------------------------- message identity

  predicate HasContent(versions: seq<Version>, m: nat, hash: Digest) {
    exists v | 0 <= v < |versions| :: versions[v].message == m && versions[v].normalizedHash == hash
  }

  predicate ContentMatch(ms: seq<Message>, vs: seq<Version>, c: nat, role: Role, hash: Digest, m: nat)
    requires m < |ms|
  {
    ms[m].conversation == c && ms[m].role == role && HasContent(vs, m, hash)
  }

  /** The content fallback: among the first `n` messages, the matching one lowest in the transcript. */
  function ByContent(ms: seq<Message>, vs: seq<Version>, c: nat, role: Role, hash: Digest, n: nat): (r: Option<nat>)
    requires n <= |ms|
    ensures r.Some? ==> r.value < n && ContentMatch(ms, vs, c, role, hash, r.value)
    ensures r.Some? ==> forall m | 0 <= m < n && ContentMatch(ms, vs, c, role, hash, m) ::
      ms[r.value].sequenceIndex <= ms[m].sequenceIndex
    ensures r.None? ==> forall m | 0 <= m < n :: !ContentMatch(ms, vs, c, role, hash, m)
  {
    if n == 0 then None
    else
      var best := ByContent(ms, vs, c, role, hash, n - 1);
      if !ContentMatch(ms, vs, c, role, hash, n - 1) then best
      else if best.None? || ms[n - 1].sequenceIndex < ms[best.value].sequenceIndex then Some(n - 1)
      else best
  }

  function BySource(s: Archive, c: nat, source: string): Option<nat> {
    FirstIndex(s.messages, (m: Message) => m.conversation == c && m.source == Some(source))
  }

  function ByFingerprint(s: Archive, c: nat, fp: Fingerprint): Option<nat> {
    FirstIndex(s.messages, (m: Message) => m.conversation == c && m.fingerprint == fp)
  }

  function FindWithoutSource(s: Archive, c: nat, role: Role, fp: Fingerprint, hash: Digest): Option<nat> {
    match ByFingerprint(s, c, fp)
    case Some(m) => Some(m)
    case None => ByContent(s.messages, s.versions, c, role, hash, |s.messages|)
  }

  /** Source id first, then fingerprint, then identical content in the same role. */
  function FindMessage(s: Archive, c: nat, p: Payload, fp: Fingerprint, hash: Digest): Option<nat> {
    if p.source.Some? && BySource(s, c, p.source.value).Some? then BySource(s, c, p.source.value)
    else FindWithoutSource(s, c, p.role, fp, hash)
  }

  function FindVersion(s: Archive, m: nat, hash: Digest): Option<nat> {
    FirstIndex(s.versions, (v: Version) => v.message == m && v.normalizedHash == hash)
  }

  function FindBranch(s: Archive, c: nat, key: string): Option<nat> {
    FirstIndex(s.branches, (b: Branch) => b.conversation == c && b.key == key)
  }

  /** An empty branch key is no branch. */
  function ResolveBranch(s: Archive, c: nat, p: Payload): (r: (Archive, Option<nat>))
    ensures r.0 == s.(branches := r.0.branches)
  {
    match p.branchKey
    case None => (s, None)
    case Some(key) =>
      if key == "" then (s, None) else
      match FindBranch(s, c, key)
      case Some(b) => (s.(branches := s.branches[b := s.branches[b].(selected := p.branchSelected)]), Some(b))
      case None => (s.(branches := s.branches + [Branch(c, key, p.branchSelected)]), Some(|s.branches|))
  }

  // ---------------------------------------------------------------- message rows

  function NewMessage(c: nat, branch: Option<nat>, fp: Fingerprint, p: Payload): Message {
    Message(c, p.source, fp, p.role, branch, p.sequenceIndex, p.sourceCreatedAt, None, 0, p.completion,
      p.hasAttachments)
  }

  /** Late-arriving authoritative data fills gaps; the sequence index always follows the latest capture. */
  function Refreshed(m: Message, branch: Option<nat>, p: Payload): Message {
    m.(source := if p.source.Some? && m.source.None? then p.source else m.source,
       branch := if branch.Some? && m.branch.None? then branch else m.branch,
       sourceCreatedAt := if m.sourceCreatedAt.None? then p.sourceCreatedAt else m.sourceCreatedAt,
       sequenceIndex := p.sequenceIndex,
       hasAttachments := m.hasAttachments || p.hasAttachments)
  }

  function ResolveMessage(s: Archive, c: nat, found: Option<nat>, branch: Option<nat>, fp: Fingerprint, p: Payload)
    : (r: (Archive, nat))
    requires found.Some? ==> found.value < |s.messages|
    ensures r.1 < |r.0.messages| && r.0 == s.(messages := r.0.messages)
  {
    match found
    case Some(m) => (s.(messages := s.messages[m := Refreshed(s.messages[m], branch, p)]), m)
    case None => (s.(messages := s.messages + [NewMessage(c, branch, fp, p)]), |s.messages|)
  }

  // ---------------------------------------------------------------- versions

  const MAX_PARTS := 500

  function KeptParts(p: Payload): seq<Part> {
    if |p.parts| <= MAX_PARTS then p.parts else p.parts[..MAX_PARTS]
  }

  /** The unique index on (version, part_index): a repeated index makes the insert fail. */
  predicate DistinctPartIndexes(parts: seq<Part>) {
    forall i, k | 0 <= i < k < |parts| :: parts[i].index != parts[k].index
  }

  function StoredPart(env: Env, part: Part): Part {
    part.(text := if part.text.Some? && part.text.value != "" then Some(env.clean(part.text.value)) else None)
  }

  function NewVersion(env: Env, m: nat, number: nat, event: nat, p: Payload): Version {
    var kept := KeptParts(p);
    Version(m, number, p.completion, env.clean(p.text), Sha256(p.text), ContentHash(env, p.text),
            p.isEdit || (number > 1 && p.role == User), p.isRegeneration || (number > 1 && p.role == Assistant),
            seq(|kept|, i requires 0 <= i < |kept| => StoredPart(env, kept[i])), event, None)
  }

  function WithVersion(m: Message, version: nat, completion: Completion): Message {
    m.(currentVersion := Some(version), versionCount := m.versionCount + 1,
       completion := if m.completion == Complete then Complete else completion)
  }

  function Counted(c: Conversation, first: bool, now: int): Conversation {
    c.(messageCount := if first then c.messageCount + 1 else c.messageCount, lastCapturedAt := now)
  }

  /** The rows an accepted version writes, before its jobs: version, message, conversation. */
  function AppendRows(env: Env, s: Archive, c: nat, m: nat, p: Payload, now: int): Archive
    requires c < |s.conversations| && m < |s.messages|
  {
    var row := s.messages[m];
    s.(versions := s.versions + [NewVersion(env, m, row.versionCount + 1, |s.events|, p)],
       messages := s.messages[m := WithVersion(row, |s.versions|, p.completion)],
       conversations := s.conversations[c := Counted(s.conversations[c], row.versionCount == 0, now)])
  }

  function SetResult(s: Archive, key: string, result: ResultRef): Archive {
    if key in s.keys then s.(keys := s.keys[key := s.keys[key].(result := result)]) else s
  }

  function AppendVersion(env: Env, s: Archive, c: nat, m: nat, p: Payload, now: int): Archive
    requires c < |s.conversations| && m < |s.messages|
  {
    var v := |s.versions|;
    var s1 := AppendRows(env, s, c, m, p, now);
    var s2 := RecordEvent(s1, c, Some(m), p.key, MessageBody(p), now);
    var s3 := SetResult(s2, p.key, ResultRef(Some(c), Some(m), Some(v)));
    var s4 := MarkSnapshotStale(s3, c, now);
    if p.completion == Partial then Enqueue(s4, Jobs.ReconcilePartial(m), Jobs.ReconcileKey(m), 400, now) else s4
  }

  /** Identical content seen again: a partial version is promoted in place by a complete capture. */
  predicate Promotes(s: Archive, v: nat, p: Payload)
    requires v < |s.versions|
  {
    s.versions[v].completion == Partial && p.completion == Complete
  }

  function Promote(s: Archive, m: nat, v: nat): Archive
    requires m < |s.messages| && v < |s.versions|
  {
    s.(versions := s.versions[v := s.versions[v].(completion := Reconciled)],
       messages := s.messages[m := s.messages[m].(completion := Complete)])
  }

  function SeenAgain(s: Archive, c: nat, m: nat, v: nat, p: Payload, now: int): Archive
    requires c < |s.conversations| && m < |s.messages| && v < |s.versions|
  {
    var ref := ResultRef(Some(c), Some(m), Some(v));
    if Promotes(s, v, p) then MarkSnapshotStale(SetResult(Promote(s, m, v), p.key, ref), c, now)
    else SetResult(s, p.key, ref)
  }

  // ---------------------------------------------------------------- one item

  function ClaimKey(s: Archive, key: string, c: nat, now: int): Archive {
    s.(keys := s.keys[key := KeyRow(now, ResultRef(Some(c), None, None))])
  }

  /** The archive once conversation, key, branch and message row are settled; the content comes next. */
  function Prepare(env: Env, s: Archive, c: nat, p: Payload, now: int): (r: (Archive, nat))
    requires c < |s.conversations|
    ensures r.1 < |r.0.messages| && |r.0.conversations| == |s.conversations|
  {
    var fp := MessageFingerprint(env, c, p.role, p.text, p.sequenceIndex, p.sourceCreatedAt);
    var s1 := ClaimKey(s, p.key, c, now);
    var found := FindMessage(s1, c, p, fp, ContentHash(env, p.text));
    var (s2, branch) := ResolveBranch(s1, c, p);
    ResolveMessage(s2, c, found, branch, fp, p)
  }

  function StoreContent(env: Env, s: Archive, c: nat, m: nat, p: Payload, now: int): (Archive, Outcome)
    requires c < |s.conversations| && m < |s.messages|
    requires FindVersion(s, m, ContentHash(env, p.text)).None? ==> DistinctPartIndexes(KeptParts(p))
  {
    match FindVersion(s, m, ContentHash(env, p.text))
    case Some(v) => (SeenAgain(s, c, m, v, p, now), Duplicate(c, m, v, Promotes(s, v, p)))
    case None => (AppendVersion(env, s, c, m, p, now), Accepted(c, m, |s.versions|))
  }

  /** One delivered item inside its savepoint: a failed insert rolls everything back, key included. */
  function Ingest(env: Env, s: Archive, p: Payload, now: int): (Archive, Outcome) {
    if p.declared != Sha256(p.text) then (s, Rejected)
    else
      var (s1, c) := GetOrCreateConversation(env, s, p.conversation, NO_DETAILS, LiveOnly, now);
      if p.key in s1.keys then (s1, Replay(c, s1.keys[p.key].result))
      else
        var (s2, m) := Prepare(env, s1, c, p, now);
        if FindVersion(s2, m, ContentHash(env, p.text)).None? && !DistinctPartIndexes(KeptParts(p)) then (s, Conflict)
        else StoreContent(env, s2, c, m, p, now)
  }

  // ---------------------------------------------------------------- the other statements of a run

  function UpsertConversation(env: Env, s: Archive, u: Upsert, now: int): Archive {
    var replay := u.key in s.keys;
    var (s1, c) := GetOrCreateConversation(env, s, u.conversation, u.details, u.coverage, now);
    if replay then s1
    else
      var s2 := s1.(keys := s1.keys[u.key := KeyRow(now, ResultRef(Some(c), None, None))]);
      MarkSnapshotStale(RecordEvent(s2, c, None, u.key, UpsertBody(u), now), c, now)
  }

  /** The compliance import: the only writer of compliance coverage. */
  function ImportConversation(s: Archive, source: string, eventTime: Option<int>, now: int): Archive {
    match FindConversation(s, source)
    case Some(c) =>
      s.(conversations := s.conversations[c := s.conversations[c].(
           sources := AddSource(s.conversations[c].sources, ComplianceApi), coverage := ComplianceVerified,
           snapshotStale := true)])
    case None =>
      var shown := NO_DETAILS.(updatedAt := eventTime);
      var row := Conversation(source, shown, ComplianceVerified, None, [ComplianceApi], 0, true, now);
      s.(conversations := s.conversations + [row])
  }

  function PruneKeys(s: Archive, cutoff: int): Archive {
    s.(keys := map k | k in s.keys && s.keys[k].createdAt >= cutoff :: s.keys[k])
  }

  /** The complete version of message `m` with the highest number among the first `n` version rows. */
  function NewestComplete(s: Archive, m: nat, n: nat): (r: Option<nat>)
    requires n <= |s.versions|
    ensures r.Some? ==> r.value < n && s.versions[r.value].message == m && s.versions[r.value].completion == Complete
    ensures r.None? ==> forall v | 0 <= v < n && s.versions[v].message == m :: s.versions[v].completion != Complete
  {
    if n == 0 then None
    else
      var best := NewestComplete(s, m, n - 1);
      var v := s.versions[n - 1];
      if v.message == m && v.completion == Complete
        && (best.None? || s.versions[best.value].number < v.number) then Some(n - 1)
      else best
  }

  function Superseded(v: Version, m: nat): Version {
    if v.message == m && v.completion == Partial then v.(completion := Reconciled) else v
  }

  /** The reconcile job (workers/handlers.py): promote a partial message once a complete version exists. */
  function Reconcile(s: Archive, m: nat): Archive {
    if m >= |s.messages| || s.messages[m].completion == Complete then s
    else
      match NewestComplete(s, m, |s.versions|)
      case None => s
      case Some(v) =>
        var c := s.messages[m].conversation;
        s.(messages := s.messages[m := s.messages[m].(completion := Complete, currentVersion := Some(v))],
           versions := seq(|s.versions|, i requires 0 <= i < |s.versions| => Superseded(s.versions[i], m)),
           conversations := if c < |s.conversations|
             then s.conversations[c := s.conversations[c].(snapshotStale := true)]
                            else s.conversations)
  }
}
