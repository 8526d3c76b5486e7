/** The attachment lifecycle (services/attachments.py): init, direct upload, complete, finalize, expire. */
module Attachments {
  import opened Common
  import opened Bytes
  import Exif

  datatype State = Pending | Quarantine | Clean | Rejected | Expired | MetadataOnly

  /** SHA-256, taken as injective. */
  datatype Sha = Sha256(of: seq<Byte>)

  datatype Stage = InQuarantine | InClean | InCurated

  /** A storage path. */
  datatype Key = Key(stage: Stage, conversation: string, attachment: nat, filename: string)

  datatype Attachment = Attachment(
    conversation: string, clientId: string, owner: Option<string>,
    filename: string, mime: string, size: nat, sha: Sha, metadataOnly: bool,
    state: State, quarantineKey: Option<Key>, presignExpires: Option<int>,
    cleanKey: Option<Key>, curatedKey: Option<Key>, exifStripped: bool,
    detected: Option<string>, verifiedSha: Option<Sha>, verifiedSize: Option<nat>)

  /** Settings and library functions: the allowlist, file name cleaning, suffixes and content sniffing. */
  datatype Env = Env(
    maxBytes: nat, allowed: map<string, set<string>>, zipFamily: set<string>,
    safe: string -> string, suffix: string -> string, detect: (seq<Byte>, string) -> Option<string>)

  datatype World = World(rows: seq<Attachment>, objects: map<Key, seq<Byte>>)

  const EMPTY := World([], map[])

  datatype InitPayload = InitPayload(
    conversation: string, clientId: string, filename: string, mime: string, size: nat, sha: Sha, metadataOnly: bool)

  datatype InitResult =
    | TooLarge | MimeNotAllowed | ExtensionMismatch
    | Duplicate(existing: nat) | Recorded(row: nat) | Upload(row: nat, key: Key)

  /** The order of the checks decides which error a caller sees. */
  function Refusal(env: Env, p: InitPayload): Option<InitResult> {
    if p.size > env.maxBytes then Some(TooLarge)
    else if p.mime !in env.allowed then Some(MimeNotAllowed)
    else if env.suffix(env.safe(p.filename)) !in env.allowed[p.mime] then Some(ExtensionMismatch)
    else None
  }

  function Find(rows: seq<Attachment>, conversation: string, clientId: string): Option<nat> {
    FirstIndex(rows, (a: Attachment) => a.conversation == conversation && a.clientId == clientId)
  }

  predicate Settled(s: State) {
    s == Clean || s == Quarantine || s == MetadataOnly
  }

  function NewRow(p: InitPayload, user: string): Attachment {
    Attachment(p.conversation, p.clientId, Some(user), "", "", 0, p.sha, false, Pending, None, None, None, None, false,
      None, None, None)
  }

  function QuarantineKey(env: Env, p: InitPayload, id: nat): Key {
    Key(InQuarantine, p.conversation, id, env.safe(p.filename))
  }

  /** What init writes over a row, new or not yet settled. */
  function Declared(env: Env, a: Attachment, p: InitPayload, id: nat, expires: int): Attachment {
    var b := a.(filename := env.safe(p.filename), mime := p.mime, size := p.size, sha := p.sha,
      metadataOnly := p.metadataOnly);
    if p.metadataOnly then b.(state := MetadataOnly)
    else b.(quarantineKey := Some(QuarantineKey(env, p, id)), state := Pending, presignExpires := Some(expires))
  }

  function Init(env: Env, w: World, p: InitPayload, user: string, expires: int): (World, InitResult) {
    if Refusal(env, p).Some? then (w, Refusal(env, p).value)
    else
      var found := Find(w.rows, p.conversation, p.clientId);
      if found.Some? && Settled(w.rows[found.value].state) then (w, Duplicate(found.value))
      else
        var id := if found.Some? then found.value else |w.rows|;
        var row := Declared(env, if found.Some? then w.rows[id] else NewRow(p, user), p, id, expires);
        (w.(rows := if found.Some? then w.rows[id := row] else w.rows + [row]),
         if p.metadataOnly then Recorded(id) else Upload(id, QuarantineKey(env, p, id)))
  }

  /** The client's direct upload: presigned URLs exist for quarantine keys only. */
  function Put(w: World, key: Key, data: seq<Byte>): World {
    if key.stage == InQuarantine then w.(objects := w.objects[key := data]) else w
  }

  datatype CompleteResult =
    | NotFound | OwnerMismatch | AlreadyClean | DeclarationChanged | UploadExpired
    | NoUploadKey | ObjectMissing | SizeMismatch | Accepted

  const GRACE := 900
  const PENDING_LIFETIME := 3600

  function CheckUpload(w: World, a: Attachment, user: string, sha: Sha, size: nat, now: int): CompleteResult {
    if a.owner.Some? && a.owner != Some(user) then OwnerMismatch
    else if a.state == Clean then AlreadyClean
    else if a.sha != sha || a.size != size then DeclarationChanged
    else if a.presignExpires.Some? && a.presignExpires.value < now - GRACE then UploadExpired
    else if a.quarantineKey.None? then NoUploadKey
    else if a.quarantineKey.value !in w.objects then ObjectMissing
    else if |w.objects[a.quarantineKey.value]| != a.size then SizeMismatch
    else Accepted
  }

  function Completed(a: Attachment, r: CompleteResult): Attachment {
    match r
    case DeclarationChanged => a.(state := Rejected)
    case SizeMismatch => a.(state := Rejected)
    case UploadExpired => a.(state := Expired)
    case Accepted => a.(state := Quarantine, verifiedSize := Some(a.size))
    case _ => a
  }

  function Complete(w: World, id: nat, user: string, sha: Sha, size: nat, now: int): (World, CompleteResult) {
    if id >= |w.rows| then (w, NotFound)
    else
      var r := CheckUpload(w, w.rows[id], user, sha, size, now);
      (w.(rows := w.rows[id := Completed(w.rows[id], r)]), r)
  }

  datatype FinalizeResult = Gone | Skipped | WrongState | ReadFailed | RejectedBytes | MadeClean

  predicate TypeAgrees(env: Env, detected: Option<string>, declared: string) {
    detected.Some? && (detected.value == declared || (detected.value in env.zipFamily && declared in env.zipFamily))
  }

  function Judge(env: Env, w: World, a: Attachment): FinalizeResult {
    if a.state == Clean then Skipped
    else if a.state != Quarantine || a.quarantineKey.None? then WrongState
    else if a.quarantineKey.value !in w.objects || |w.objects[a.quarantineKey.value]| > env.maxBytes then ReadFailed
    else
      var data := w.objects[a.quarantineKey.value];
      if |data| == a.size && Sha256(data) == a.sha && TypeAgrees(env, env.detect(data, a.mime), a.mime) then MadeClean
      else RejectedBytes
  }

  function KeyFor(stage: Stage, a: Attachment, id: nat): Key {
    Key(stage, a.conversation, id, a.filename)
  }

  function Promoted(env: Env, a: Attachment, id: nat, data: seq<Byte>): Attachment {
    var detected := env.detect(data, a.mime);
    var stripped := Exif.Curated(data, detected) != data;
    a.(state := Clean, cleanKey := Some(KeyFor(InClean, a, id)),
       curatedKey := if stripped then Some(KeyFor(InCurated, a, id)) else None, exifStripped := stripped,
       detected := detected, verifiedSha := Some(Sha256(data)), verifiedSize := Some(|data|))
  }

  /** The finalize handler, as one step. */
  function Finalize(env: Env, w: World, id: nat): (World, FinalizeResult) {
    if id >= |w.rows| then (w, Gone)
    else
      var a := w.rows[id];
      var r := Judge(env, w, a);
      if r == RejectedBytes then (w.(rows := w.rows[id := a.(state := Rejected)]), r)
      else if r != MadeClean then (w, r)
      else
        var data := w.objects[a.quarantineKey.value];
        var curated := Exif.Curated(data, env.detect(data, a.mime));
        var copied := w.objects[KeyFor(InClean, a, id) := data];
        (World(w.rows[id := Promoted(env, a, id, data)],
               if curated != data then copied[KeyFor(InCurated, a, id) := curated] else copied), r)
  }

  function Lapsed(a: Attachment, now: int): Attachment {
    if a.state == Pending && a.presignExpires.Some? && a.presignExpires.value < now - PENDING_LIFETIME
    then a.(state := Expired)
    else a
  }

  function ExpireStale(w: World, now: int): World {
    w.(rows := seq(|w.rows|, i requires 0 <= i < |w.rows| => Lapsed(w.rows[i], now)))
  }

  // ---------------------------------------------------------------- the invariant

  /** The bytes a clean row vouches for. */
  ghost predicate Vouched(objects: map<Key, seq<Byte>>, a: Attachment, id: nat) {
    && a.cleanKey == Some(KeyFor(InClean, a, id)) && a.cleanKey.value in objects
    && a.verifiedSha == Some(a.sha) && a.verifiedSize == Some(a.size)
    && Sha256(objects[a.cleanKey.value]) == a.sha && |objects[a.cleanKey.value]| == a.size
  }

  /** The curated copy is the clean bytes stripped, and there is one exactly when stripping removed something. */
  ghost predicate CuratedFrom(objects: map<Key, seq<Byte>>, a: Attachment, id: nat) {
    && a.cleanKey.Some? && a.cleanKey.value in objects
    && var clean := objects[a.cleanKey.value];
       (a.exifStripped <==> Exif.Curated(clean, a.detected) != clean)
       && (a.exifStripped <==> a.curatedKey.Some?)
       && (a.curatedKey.Some? ==>
             && a.curatedKey.value == KeyFor(InCurated, a, id) && a.curatedKey.value in objects
             && objects[a.curatedKey.value] == Exif.Curated(clean, a.detected))
  }

  ghost predicate RowInv(objects: map<Key, seq<Byte>>, a: Attachment, id: nat) {
    && (a.quarantineKey.Some? ==> a.quarantineKey.value.stage == InQuarantine && a.quarantineKey.value.attachment == id)
    && (a.state == Quarantine ==> a.quarantineKey.Some?)
    && (a.state == Clean ==> Vouched(objects, a, id) && CuratedFrom(objects, a, id))
  }

  ghost predicate RowsInv(w: World) {
    forall i | 0 <= i < |w.rows| :: RowInv(w.objects, w.rows[i], i)
  }

  ghost predicate ClientIdsUnique(rows: seq<Attachment>) {
    forall i, k | 0 <= i < k < |rows| ::
      rows[i].conversation != rows[k].conversation || rows[i].clientId != rows[k].clientId
  }

  ghost predicate Inv(w: World) {
    RowsInv(w) && ClientIdsUnique(w.rows)
  }

  // ---------------------------------------------------------------- steps

  datatype Step =
    | DoInit(payload: InitPayload, user: string, expires: int)
    | DoPut(key: Key, data: seq<Byte>)
    | DoComplete(id: nat, user: string, sha: Sha, size: nat, now: int)
    | DoFinalize(id: nat)
    | DoExpire(now: int)

  function Apply(env: Env, w: World, s: Step): World {
    match s
    case DoInit(p, user, expires) => Init(env, w, p, user, expires).0
    case DoPut(key, data) => Put(w, key, data)
    case DoComplete(id, user, sha, size, now) => Complete(w, id, user, sha, size, now).0
    case DoFinalize(id) => Finalize(env, w, id).0
    case DoExpire(now) => ExpireStale(w, now)
  }

  function Run(env: Env, w: World, steps: seq<Step>): World {
    if steps == [] then w else Apply(env, Run(env, w, steps[..|steps| - 1]), steps[|steps| - 1])
  }

  /** Once a row is clean, nothing about it or its stored bytes changes. */
  ghost predicate KeepsClean(w: World, t: World) {
    |w.rows| <= |t.rows|
    && forall i | 0 <= i < |w.rows| && w.rows[i].state == Clean ::
      t.rows[i] == w.rows[i] && SameObjects(w, t, w.rows[i])
  }

  ghost predicate SameObjects(w: World, t: World, a: Attachment) {
    && (a.cleanKey.Some? && a.cleanKey.value in w.objects ==>
          a.cleanKey.value in t.objects && t.objects[a.cleanKey.value] == w.objects[a.cleanKey.value])
    && (a.curatedKey.Some? && a.curatedKey.value in w.objects ==>
          a.curatedKey.value in t.objects && t.objects[a.curatedKey.value] == w.objects[a.curatedKey.value])
  }

  /** A row that was or is clean keeps its invariant when only objects of other rows or of quarantine change. */
  lemma RowInvMoves(before: map<Key, seq<Byte>>, after: map<Key, seq<Byte>>, a: Attachment, id: nat)
    requires RowInv(before, a, id)
    requires forall k | k in before && k.stage != InQuarantine && k.attachment == id ::
      k in after && after[k] == before[k]
    ensures RowInv(after, a, id)
  {
  }

  lemma InitKeepsRows(env: Env, w: World, p: InitPayload, user: string, expires: int)
    requires Inv(w)
    ensures var t := Init(env, w, p, user, expires).0; Inv(t) && KeepsClean(w, t)
  {
    if Refusal(env, p).None? {
      var found := Find(w.rows, p.conversation, p.clientId);
      var t := Init(env, w, p, user, expires).0;
      var id := if found.Some? then found.value else |w.rows|;
      assert t.objects == w.objects;
      forall i | 0 <= i < |t.rows| ensures RowInv(t.objects, t.rows[i], i) {
        if i != id {
          assert t.rows[i] == w.rows[i];
        }
      }
      assert ClientIdsUnique(t.rows);
    }
  }

  lemma PutKeepsRows(w: World, key: Key, data: seq<Byte>)
    requires Inv(w)
    ensures var t := Put(w, key, data); Inv(t) && KeepsClean(w, t)
  {
    var t := Put(w, key, data);
    forall i | 0 <= i < |t.rows| ensures RowInv(t.objects, t.rows[i], i) {
      RowInvMoves(w.objects, t.objects, w.rows[i], i);
    }
  }

  lemma CompleteKeepsRows(w: World, id: nat, user: string, sha: Sha, size: nat, now: int)
    requires Inv(w)
    ensures var t := Complete(w, id, user, sha, size, now).0; Inv(t) && KeepsClean(w, t)
  {
    if id < |w.rows| {
      var a := w.rows[id];
      CompletedRowInv(w, id, CheckUpload(w, a, user, sha, size, now), user, sha, size, now);
      OneRowChanges(w, id, Completed(a, CheckUpload(w, a, user, sha, size, now)));
    }
  }

  lemma CompletedRowInv(w: World, id: nat, r: CompleteResult, user: string, sha: Sha, size: nat, now: int)
    requires id < |w.rows| && RowInv(w.objects, w.rows[id], id) && r == CheckUpload(w, w.rows[id], user, sha, size, now)
    ensures RowInv(w.objects, Completed(w.rows[id], r), id)
    ensures w.rows[id].state == Clean ==> Completed(w.rows[id], r) == w.rows[id]
  {
  }

  /** A row that is not clean, or stays as it is, is rewritten for the same client id. */
  lemma OneRowChanges(w: World, id: nat, row: Attachment)
    requires Inv(w) && id < |w.rows| && RowInv(w.objects, row, id)
    requires row.conversation == w.rows[id].conversation && row.clientId == w.rows[id].clientId
    requires w.rows[id].state == Clean ==> row == w.rows[id]
    ensures var t := w.(rows := w.rows[id := row]); Inv(t) && KeepsClean(w, t)
  {
  }

  lemma FinalizeKeepsRows(env: Env, w: World, id: nat)
    requires Inv(w)
    ensures var t := Finalize(env, w, id).0; Inv(t) && KeepsClean(w, t)
  {
    var t := Finalize(env, w, id).0;
    if id < |w.rows| {
      FinalizeKeepsOthers(env, w, id);
      FinalizedRowInv(env, w, id);
      assert RowsInv(t) by {
        forall i | 0 <= i < |t.rows| ensures RowInv(t.objects, t.rows[i], i) {
          if i != id {
            RowInvMoves(w.objects, t.objects, w.rows[i], i);
          }
        }
      }
      FinalizeKeepsClean(env, w, id);
    }
  }

  /** Finalizing one row leaves the other rows and their stored objects alone. */
  lemma FinalizeKeepsOthers(env: Env, w: World, id: nat)
    requires id < |w.rows|
    ensures var t := Finalize(env, w, id).0;
      && |t.rows| == |w.rows| && (forall i | 0 <= i < |w.rows| && i != id :: t.rows[i] == w.rows[i])
      && (forall k | k in w.objects && k.attachment != id :: k in t.objects && t.objects[k] == w.objects[k])
      && t.rows[id].conversation == w.rows[id].conversation && t.rows[id].clientId == w.rows[id].clientId
  {
  }

  lemma FinalizedRowInv(env: Env, w: World, id: nat)
    requires id < |w.rows| && RowInv(w.objects, w.rows[id], id)
    ensures var t := Finalize(env, w, id).0; RowInv(t.objects, t.rows[id], id)
  {
  }

  lemma FinalizeKeepsClean(env: Env, w: World, id: nat)
    requires Inv(w) && id < |w.rows|
    ensures KeepsClean(w, Finalize(env, w, id).0)
  {
    var t := Finalize(env, w, id).0;
    FinalizeKeepsOthers(env, w, id);
    forall i | 0 <= i < |w.rows| && w.rows[i].state == Clean
      ensures SameObjects(w, t, w.rows[i]) && t.rows[i] == w.rows[i]
    {
      assert RowInv(w.objects, w.rows[i], i);
    }
  }

  lemma ExpireKeepsRows(w: World, now: int)
    requires Inv(w)
    ensures var t := ExpireStale(w, now); Inv(t) && KeepsClean(w, t)
  {
  }

  lemma StepKeepsInv(env: Env, w: World, s: Step)
    requires Inv(w)
    ensures Inv(Apply(env, w, s)) && KeepsClean(w, Apply(env, w, s))
  {
    match s
    case DoInit(p, user, expires) => InitKeepsRows(env, w, p, user, expires);
    case DoPut(key, data) => PutKeepsRows(w, key, data);
    case DoComplete(id, user, sha, size, now) => CompleteKeepsRows(w, id, user, sha, size, now);
    case DoFinalize(id) => FinalizeKeepsRows(env, w, id);
    case DoExpire(now) => ExpireKeepsRows(w, now);
  }

  // ---------------------------------------------------------------- main results

  lemma {:induction false} RunKeepsInv(env: Env, w: World, steps: seq<Step>)
    requires Inv(w)
    ensures Inv(Run(env, w, steps)) && KeepsClean(w, Run(env, w, steps))
    decreases |steps|
  {
    if steps != [] {
      var n := |steps| - 1;
      RunKeepsInv(env, w, steps[..n]);
      StepKeepsInv(env, Run(env, w, steps[..n]), steps[n]);
      CleanChains(w, Run(env, w, steps[..n]), Run(env, w, steps));
    }
  }

  lemma CleanChains(a: World, b: World, c: World)
    requires Inv(a) && KeepsClean(a, b) && KeepsClean(b, c)
    ensures KeepsClean(a, c)
  {
    forall i | 0 <= i < |a.rows| && a.rows[i].state == Clean
      ensures c.rows[i] == a.rows[i] && SameObjects(a, c, a.rows[i])
    {
      assert b.rows[i] == a.rows[i] && SameObjects(a, b, a.rows[i]);
      assert SameObjects(b, c, b.rows[i]);
    }
  }

  /** In every run, a clean attachment's clean key holds bytes with the declared hash and size. */
  lemma {:induction false} CleanMeansVerified(env: Env, steps: seq<Step>, id: nat)
    requires var w := Run(env, EMPTY, steps); id < |w.rows| && w.rows[id].state == Clean
    ensures Vouched(Run(env, EMPTY, steps).objects, Run(env, EMPTY, steps).rows[id], id)
    ensures CuratedFrom(Run(env, EMPTY, steps).objects, Run(env, EMPTY, steps).rows[id], id)
  {
    RunKeepsInv(env, EMPTY, steps);
    assert RowInv(Run(env, EMPTY, steps).objects, Run(env, EMPTY, steps).rows[id], id);
  }

  /** And it stays so: whatever follows, the row, its declared hash included, and the bytes at its clean key are the
      same. */
  lemma {:induction false} CleanIsForever(env: Env, steps: seq<Step>, more: seq<Step>, id: nat)
    requires var w := Run(env, EMPTY, steps); id < |w.rows| && w.rows[id].state == Clean
    ensures var w := Run(env, EMPTY, steps);
      var t := Run(env, w, more);
      id < |t.rows| && t.rows[id] == w.rows[id] && SameObjects(w, t, w.rows[id]) && Vouched(t.objects, t.rows[id], id)
  {
    CleanMeansVerified(env, steps, id);
    RunKeepsInv(env, EMPTY, steps);
    RunKeepsInv(env, Run(env, EMPTY, steps), more);
  }

  /** A row becomes clean exactly by finalizing a quarantined row whose stored bytes have the declared size and hash and
      a type that agrees with the declared one. */
  lemma OnlyVerifiedBytesBecomeClean(env: Env, w: World, s: Step, id: nat)
    requires Inv(w) && id < |w.rows| && w.rows[id].state != Clean
    ensures var a := w.rows[id];
      Apply(env, w, s).rows[id].state == Clean <==>
        s == DoFinalize(id) && a.state == Quarantine && a.quarantineKey.value in w.objects
        && var data := w.objects[a.quarantineKey.value];
           |data| == a.size <= env.maxBytes && Sha256(data) == a.sha
             && TypeAgrees(env, env.detect(data, a.mime), a.mime)
  {
    assert RowInv(w.objects, w.rows[id], id);
  }
}
