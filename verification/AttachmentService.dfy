/** The attachment services over their mutable rows and objects. */
module AttachmentService {
  import opened Common
  import opened Bytes
  import opened Attachments
  import opened AttachmentJobs
  import Exif
  import Jobs

  class AttachmentTable {
    const env: Env
    var rows: seq<Attachment>
    var objects: map<Key, seq<Byte>>
    var queue: Jobs.Queue

    ghost function View(): World reads this { World(rows, objects) }

    constructor (env: Env)
      ensures View() == EMPTY && queue == Jobs.Queue([], 0) && this.env == env
    {
      this.env := env;
      rows, objects, queue := [], map[], Jobs.Queue([], 0);
    }

    method InitAttachment(p: InitPayload, user: string, expires: int) returns (r: InitResult)
      modifies this`rows
      ensures (View(), r) == Init(env, old(View()), p, user, expires)
    {
      if p.size > env.maxBytes {
        return TooLarge;
      }
      if p.mime !in env.allowed {
        return MimeNotAllowed;
      }
      var safe := env.safe(p.filename);
      if env.suffix(safe) !in env.allowed[p.mime] {
        return ExtensionMismatch;
      }
      var found := Find(rows, p.conversation, p.clientId);
      if found.Some? && Settled(rows[found.value].state) {
        return Duplicate(found.value);
      }
      var id: nat;
      match found {
        case Some(i) => id := i;
        case None =>
          id := |rows|;
          rows := rows + [NewRow(p, user)];
      }
      assert found.None? ==> forall row :: rows[id := row] == old(rows) + [row];
      var row := rows[id].(filename := safe, mime := p.mime, size := p.size, sha := p.sha,
        metadataOnly := p.metadataOnly);
      if p.metadataOnly {
        rows := rows[id := row.(state := MetadataOnly)];
        return Recorded(id);
      }
      var key := Key(InQuarantine, p.conversation, id, safe);
      rows := rows[id := row.(quarantineKey := Some(key), state := Pending, presignExpires := Some(expires))];
      r := Upload(id, key);
    }

    method CompleteAttachment(id: nat, user: string, sha: Sha, size: nat, now: int) returns (r: CompleteResult)
      modifies this`rows, this`queue
      ensures (View(), r) == Complete(old(View()), id, user, sha, size, now)
      ensures queue == if r == Accepted then Jobs.Enqueue(old(queue), FinalizeRequest(id), now, now).0 else old(queue)
    {
      if id >= |rows| {
        return NotFound;
      }
      var a := rows[id];
      assert rows[id := a] == rows;
      if a.owner.Some? && a.owner != Some(user) {
        return OwnerMismatch;
      }
      if a.state == Clean {
        return AlreadyClean;
      }
      if a.sha != sha || a.size != size {
        rows := rows[id := a.(state := Rejected)];
        return DeclarationChanged;
      }
      if a.presignExpires.Some? && a.presignExpires.value < now - GRACE {
        rows := rows[id := a.(state := Expired)];
        return UploadExpired;
      }
      if a.quarantineKey.None? {
        return NoUploadKey;
      }
      if a.quarantineKey.value !in objects {
        return ObjectMissing;
      }
      if |objects[a.quarantineKey.value]| != a.size {
        rows := rows[id := a.(state := Rejected)];
        return SizeMismatch;
      }
      rows := rows[id := a.(state := Quarantine, verifiedSize := Some(|objects[a.quarantineKey.value]|))];
      EnqueueFinalize(id, now);
      r := Accepted;
    }

    /** Nothing when a live job for the attachment is there already. */
    method EnqueueFinalize(id: nat, now: int)
      modifies this`queue
      ensures queue == Jobs.Enqueue(old(queue), FinalizeRequest(id), now, now).0
    {
      var key := Some(Jobs.FinalizeKey(id));
      if !Jobs.Conflicts(queue.jobs, key) {
        var row := Jobs.Job(Jobs.FinalizeAttachment(id), Jobs.Pending, 150, key, 0, 8, now, now, None, None, None);
        queue := queue.(jobs := queue.jobs + [row]);
      }
    }

    method FinalizeAttachment(id: nat) returns (r: FinalizeResult)
      modifies this`rows, this`objects
      ensures (View(), r) == Finalize(env, old(View()), id)
    {
      if id >= |rows| {
        return Gone;
      }
      var a := rows[id];
      if a.state == Clean {
        return Skipped;
      }
      if a.state != Quarantine || a.quarantineKey.None? {
        return WrongState;
      }
      if a.quarantineKey.value !in objects || |objects[a.quarantineKey.value]| > env.maxBytes {
        return ReadFailed;
      }
      var data := objects[a.quarantineKey.value];
      if |data| != a.size || Sha256(data) != a.sha {
        rows := rows[id := a.(state := Rejected)];
        return RejectedBytes;
      }
      var detected := env.detect(data, a.mime);
      if detected.None? || (detected.value != a.mime && !(detected.value in env.zipFamily && a.mime in env.zipFamily)) {
        rows := rows[id := a.(state := Rejected)];
        return RejectedBytes;
      }
      objects := objects[KeyFor(InClean, a, id) := data];
      var curated, stripped := Exif.StripMetadata(data, detected);
      var curatedKey := None;
      if stripped {
        curatedKey := Some(KeyFor(InCurated, a, id));
        objects := objects[KeyFor(InCurated, a, id) := curated];
      }
      rows := rows[id := a.(state := Clean, cleanKey := Some(KeyFor(InClean, a, id)), curatedKey := curatedKey,
        exifStripped := stripped, detected := detected, verifiedSha := Some(Sha256(data)),
        verifiedSize := Some(|data|))];
      r := MadeClean;
    }

    method ExpireStalePending(now: int) returns (count: nat)
      modifies this`rows
      ensures View() == ExpireStale(old(View()), now)
      ensures count == |set i | 0 <= i < |old(rows)| && Lapsed(old(rows)[i], now) != old(rows)[i]|
    {
      count := 0;
      var i := 0;
      ghost var lapsed: set<int> := {};
      while i < |rows|
        invariant 0 <= i <= |rows| == |old(rows)|
        invariant forall k | 0 <= k < |rows| :: rows[k] == if k < i then Lapsed(old(rows)[k], now) else old(rows)[k]
        invariant lapsed == set k | 0 <= k < i && Lapsed(old(rows)[k], now) != old(rows)[k]
        invariant count == |lapsed|
      {
        var a := rows[i];
        if a.state == Pending && a.presignExpires.Some? && a.presignExpires.value < now - PENDING_LIFETIME {
          rows := rows[i := a.(state := Expired)];
          count := count + 1;
          lapsed := lapsed + {i};
        }
        i := i + 1;
      }
    }
  }
}
