/** What every attachment request answers, when, and what it writes, in the columns of the row.

    For init, completion, finalization and the sweep: the exact condition of each answer, the row and the objects
    afterwards, and then what follows for owners, for the finalize job, and for an upload that goes all the way. */
module AttachmentAnswers {
  import opened Common
  import opened Bytes
  import opened Attachments
  import AttachmentJobs
  import Jpeg
  import Jobs
  import JobRuns
  import Png

  // ---------------------------------------------------------------- completion

  /** The caller is the one whose upload it is; a row without an owner is anyone's. */
  predicate MayComplete(a: Attachment, user: string) {
    a.owner.None? || a.owner.value == user
  }

  /** Fifteen minutes of grace after the upload window. */
  predicate InTime(a: Attachment, now: int) {
    a.presignExpires.None? || now <= a.presignExpires.value + 900
  }

  predicate Agrees(a: Attachment, sha: Sha, size: nat) {
    a.sha == sha && a.size == size
  }

  predicate IsUploaded(w: World, a: Attachment) {
    a.quarantineKey.Some? && a.quarantineKey.value in w.objects
  }

  /** The request names its own unfinished row as declared, in time, and the declared number of bytes is there. */
  predicate Completes(w: World, id: nat, user: string, sha: Sha, size: nat, now: int) {
    && id < |w.rows| && MayComplete(w.rows[id], user) && w.rows[id].state != Clean && Agrees(w.rows[id], sha, size)
    && InTime(w.rows[id], now) && IsUploaded(w, w.rows[id])
    && |w.objects[w.rows[id].quarantineKey.value]| == w.rows[id].size
  }

  /** Every answer to a completion has exactly one condition; the first that applies decides. */
  lemma CompletionAnswers(w: World, id: nat, user: string, sha: Sha, size: nat, now: int)
    ensures var r := Complete(w, id, user, sha, size, now).1;
      && (r == NotFound <==> id >= |w.rows|)
      && (r == Accepted <==> Completes(w, id, user, sha, size, now))
      && (id < |w.rows| ==>
            var a := w.rows[id];
            && (r == OwnerMismatch <==> !MayComplete(a, user))
            && (r == AlreadyClean <==> MayComplete(a, user) && a.state == Clean)
            && (r == DeclarationChanged <==> MayComplete(a, user) && a.state != Clean && !Agrees(a, sha, size))
            && (MayComplete(a, user) && a.state != Clean && Agrees(a, sha, size) ==>
                  && (r == UploadExpired <==> !InTime(a, now))
                  && (r == NoUploadKey <==> InTime(a, now) && a.quarantineKey.None?)
                  && (r == ObjectMissing <==> InTime(a, now) && a.quarantineKey.Some? && !IsUploaded(w, a))
                  && (r == SizeMismatch <==> InTime(a, now) && IsUploaded(w, a)
                                             && |w.objects[a.quarantineKey.value]| != a.size)))
  {
  }

  /** What a completion writes: nothing outside its row, and there only the state that its answer calls for. */
  lemma CompletionWrites(w: World, id: nat, user: string, sha: Sha, size: nat, now: int)
    ensures var (t, r) := Complete(w, id, user, sha, size, now);
      && t.objects == w.objects && |t.rows| == |w.rows|
      && (forall i | 0 <= i < |w.rows| && i != id :: t.rows[i] == w.rows[i])
      && (id < |w.rows| ==>
            var a, b := w.rows[id], t.rows[id];
            && (r == Accepted ==> b == a.(state := Quarantine, verifiedSize := Some(a.size)))
            && (r == DeclarationChanged || r == SizeMismatch ==> b == a.(state := Rejected))
            && (r == UploadExpired ==> b == a.(state := Expired))
            && (r in {OwnerMismatch, AlreadyClean, NoUploadKey, ObjectMissing} ==> b == a))
  {
  }

  /** A row enters quarantine exactly by such a completion. */
  lemma OnlyCompletedUploadsAreQuarantined(env: Env, w: World, s: Step, id: nat)
    requires id < |w.rows| && w.rows[id].state != Quarantine
    ensures id < |Apply(env, w, s).rows|
    ensures Apply(env, w, s).rows[id].state == Quarantine <==>
      s.DoComplete? && s.id == id && Completes(w, id, s.user, s.sha, s.size, s.now)
  {
    if s.DoComplete? {
      CompletionAnswers(w, s.id, s.user, s.sha, s.size, s.now);
      CompletionWrites(w, s.id, s.user, s.sha, s.size, s.now);
    }
  }

  /** Nobody but its owner completes an attachment: for anyone else no row, object or job changes. */
  lemma OthersCompleteNothing(env: Env, s: AttachmentJobs.Site, id: nat, user: string, sha: Sha, size: nat, now: int)
    requires id < |s.world.rows| && s.world.rows[id].owner.Some? && s.world.rows[id].owner != Some(user)
    ensures AttachmentJobs.Next(env, s, AttachmentJobs.Serve(DoComplete(id, user, sha, size, now))) == s
  {
    CompletionAnswers(s.world, id, user, sha, size, now);
    var t := Complete(s.world, id, user, sha, size, now).0;
    assert t.rows == s.world.rows;
  }

  /** Every attachment of a run is owned by whoever first asked for it, and stays so. */
  lemma {:induction false} OwnersStay(env: Env, w: World, steps: seq<Step>, id: nat)
    requires id < |w.rows|
    ensures id < |Run(env, w, steps).rows| && Run(env, w, steps).rows[id].owner == w.rows[id].owner
    decreases |steps|
  {
    if steps != [] {
      var n := |steps| - 1;
      OwnersStay(env, w, steps[..n], id);
      OwnerAfterStep(env, Run(env, w, steps[..n]), steps[n], id);
    }
  }

  lemma OwnerAfterStep(env: Env, w: World, s: Step, id: nat)
    requires id < |w.rows|
    ensures id < |Apply(env, w, s).rows| && Apply(env, w, s).rows[id].owner == w.rows[id].owner
  {
  }

  /** An accepted completion leaves a finalization pending or running: its own new job, or the live one it finds. */
  lemma AcceptedQueuesFinalization(env: Env, s: AttachmentJobs.Site, id: nat, user: string, sha: Sha, size: nat,
                                   now: int)
    requires Completes(s.world, id, user, sha, size, now)
    ensures var q := s.jobs.queue;
      var r := AttachmentJobs.Next(env, s, AttachmentJobs.Serve(DoComplete(id, user, sha, size, now))).jobs.queue;
      if exists j | 0 <= j < |q.jobs| ::
        q.jobs[j].dedupe == Some(Jobs.FinalizeKey(id)) && q.jobs[j].status in {Jobs.Pending, Jobs.Running}
      then r == q
      else r == q.(jobs := q.jobs + [
        Jobs.Job(Jobs.FinalizeAttachment(id), Jobs.Pending, 150, Some(Jobs.FinalizeKey(id)), 0, 8, now, now, None, None,
                 None)])
  {
    CompletionAnswers(s.world, id, user, sha, size, now);
    Jobs.EnqueueExactly(s.jobs.queue, AttachmentJobs.FinalizeRequest(id), now, now);
  }

  // ---------------------------------------------------------------- init

  predicate Names(a: Attachment, p: InitPayload) {
    a.conversation == p.conversation && a.clientId == p.clientId
  }

  /** Every refusal, in order: too many bytes, a type not allowed, an extension that does not go with the type. */
  lemma InitRefusals(env: Env, w: World, p: InitPayload, user: string, expires: int)
    ensures var (t, r) := Init(env, w, p, user, expires);
      && (r == TooLarge <==> p.size > env.maxBytes)
      && (r == MimeNotAllowed <==> p.size <= env.maxBytes && p.mime !in env.allowed)
      && (r == ExtensionMismatch <==>
            p.size <= env.maxBytes && p.mime in env.allowed && env.suffix(env.safe(p.filename)) !in env.allowed[p.mime])
      && (r in {TooLarge, MimeNotAllowed, ExtensionMismatch} ==> t == w)
  {
  }

  /** The declared columns, whoever asked first and whatever was declared before. */
  predicate DeclaredAs(env: Env, p: InitPayload, a: Attachment) {
    && Names(a, p) && a.filename == env.safe(p.filename) && a.mime == p.mime && a.size == p.size && a.sha == p.sha
    && a.metadataOnly == p.metadataOnly
  }

  /** Not refused, and the client id not yet known: a new row at the end, owned by the caller. */
  lemma InitAddsRow(env: Env, w: World, p: InitPayload, user: string, expires: int)
    requires forall i | 0 <= i < |w.rows| :: !Names(w.rows[i], p)
    ensures var (t, r) := Init(env, w, p, user, expires);
      r !in {TooLarge, MimeNotAllowed, ExtensionMismatch} ==>
        && t.objects == w.objects && |t.rows| == |w.rows| + 1 && t.rows[..|w.rows|] == w.rows
        && DeclaredAs(env, p, t.rows[|w.rows|]) && t.rows[|w.rows|].owner == Some(user)
        && Issued(env, p, |w.rows|, expires, t.rows[|w.rows|], r)
        && (p.metadataOnly ==> t.rows[|w.rows|].quarantineKey.None? && t.rows[|w.rows|].presignExpires.None?)
        && Unverified(t.rows[|w.rows|])
  {
    assert Find(w.rows, p.conversation, p.clientId).None?;
  }

  predicate Unverified(a: Attachment) {
    a.cleanKey.None? && a.curatedKey.None? && !a.exifStripped && a.detected.None? && a.verifiedSha.None?
    && a.verifiedSize.None?
  }

  /** Bytes are asked for, at the row's own key, unless only metadata is to be recorded. */
  predicate Issued(env: Env, p: InitPayload, id: nat, expires: int, a: Attachment, r: InitResult) {
    if p.metadataOnly then a.state == MetadataOnly && r == Recorded(id)
    else
      var key := Key(InQuarantine, p.conversation, id, env.safe(p.filename));
      a.state == Pending && a.quarantineKey == Some(key) && a.presignExpires == Some(expires) && r == Upload(id, key)
  }

  /** Not refused, and the client id known: what is clean, in quarantine or recorded is answered as it is; anything else
      is declared anew, for the same owner. */
  lemma InitFindsRow(env: Env, w: World, p: InitPayload, user: string, expires: int, i: nat)
    requires ClientIdsUnique(w.rows) && i < |w.rows| && Names(w.rows[i], p)
    ensures var (t, r) := Init(env, w, p, user, expires);
      r !in {TooLarge, MimeNotAllowed, ExtensionMismatch} ==>
        if w.rows[i].state in {Clean, Quarantine, MetadataOnly} then t == w && r == Duplicate(i)
        else
          && t.objects == w.objects && |t.rows| == |w.rows|
          && (forall k | 0 <= k < |w.rows| && k != i :: t.rows[k] == w.rows[k])
          && DeclaredAs(env, p, t.rows[i]) && t.rows[i].owner == w.rows[i].owner
          && Issued(env, p, i, expires, t.rows[i], r) && SameVerdict(w.rows[i], t.rows[i])
  {
    assert Find(w.rows, p.conversation, p.clientId).Some?;
    assert Find(w.rows, p.conversation, p.clientId) == Some(i);
  }

  predicate SameVerdict(a: Attachment, b: Attachment) {
    b.cleanKey == a.cleanKey && b.curatedKey == a.curatedKey && b.exifStripped == a.exifStripped
    && b.detected == a.detected && b.verifiedSha == a.verifiedSha && b.verifiedSize == a.verifiedSize
  }

  // ---------------------------------------------------------------- finalization and expiry

  /** The sniffed type is the declared one, or both are of the ZIP family. */
  predicate TypeFits(env: Env, data: seq<Byte>, mime: string) {
    var found := env.detect(data, mime);
    found.Some? && (found.value == mime || (found.value in env.zipFamily && mime in env.zipFamily))
  }

  /** The bytes have the declared size, hash and type. */
  predicate Passes(env: Env, a: Attachment, data: seq<Byte>) {
    |data| == a.size && a.sha == Sha256(data) && TypeFits(env, data, a.mime)
  }

  /** Every answer of a finalization has exactly one condition. */
  lemma FinalizationAnswers(env: Env, w: World, id: nat)
    ensures var r := Finalize(env, w, id).1;
      && (r == Gone <==> id >= |w.rows|)
      && (id < |w.rows| ==>
            var a := w.rows[id];
            var readable := IsUploaded(w, a) && |w.objects[a.quarantineKey.value]| <= env.maxBytes;
            var waiting := a.state == Quarantine && a.quarantineKey.Some?;
            && (r == Skipped <==> a.state == Clean)
            && (r == WrongState <==> a.state != Clean && !waiting)
            && (r == ReadFailed <==> waiting && !readable)
            && (r == RejectedBytes <==>
                  waiting && readable && !Passes(env, a, w.objects[a.quarantineKey.value]))
            && (r == MadeClean <==> waiting && readable && Passes(env, a, w.objects[a.quarantineKey.value])))
  {
  }

  /** What stripping for display leaves of the bytes, by the type found in them. */
  function ForDisplay(data: seq<Byte>, found: Option<string>): seq<Byte> {
    if found == Some("image/jpeg") then Jpeg.Strip(data)
    else if found == Some("image/png") then Png.Strip(data)
    else data
  }

  /** What a finalization writes: bytes that pass are copied to the row's clean key, with a stripped copy beside them
      exactly if stripping removes something; bytes that do not reject the row; nothing else is ever written. */
  lemma FinalizationWrites(env: Env, w: World, id: nat)
    ensures var (t, r) := Finalize(env, w, id);
      && (r !in {RejectedBytes, MadeClean} ==> t == w)
      && (r == RejectedBytes ==> t == w.(rows := w.rows[id := w.rows[id].(state := Rejected)]))
      && (r == MadeClean ==>
            var a, data := w.rows[id], w.objects[w.rows[id].quarantineKey.value];
            var found := env.detect(data, a.mime);
            var display := ForDisplay(data, found);
            var cleanKey := Key(InClean, a.conversation, id, a.filename);
            var curatedKey := Key(InCurated, a.conversation, id, a.filename);
            && t.rows == w.rows[id := a.(state := Clean, cleanKey := Some(cleanKey),
                 curatedKey := if display != data then Some(curatedKey) else None, exifStripped := display != data,
                 detected := found, verifiedSha := Some(a.sha), verifiedSize := Some(a.size))]
            && t.objects == if display != data then w.objects[cleanKey := data][curatedKey := display]
                            else w.objects[cleanKey := data])
  {
    if id < |w.rows| {
      FinalizationAnswers(env, w, id);
    }
  }

  /** A finalization's job ends as its answer says: the lock's holder marks it done, buries it, or, when the read
      failed, has it tried again after the delay while attempts are left. Without the lock nothing happens to the job.
      */
  lemma FinalizationSettles(env: Env, s: AttachmentJobs.Site, job: nat, token: nat, delay: int, at: int)
    requires job < |s.jobs.queue.jobs| && s.jobs.queue.jobs[job].task.FinalizeAttachment?
    ensures var q, a := s.jobs.queue, s.jobs.queue.jobs[job];
      var r := Finalize(env, s.world, a.task.attachment).1;
      var t := AttachmentJobs.Next(env, s, AttachmentJobs.Handle(job, token, delay, at)).jobs.queue;
      if a.lockToken != Some(token) then t == q
      else
        && Jobs.OnlyRowMoves(q, job, t)
        && (r in {Skipped, RejectedBytes, MadeClean} ==> Jobs.FreedAs(a, Jobs.Succeeded, a.runAfter, t.jobs[job]))
        && (r in {Gone, WrongState} ==> Jobs.FreedAs(a, Jobs.Dead, a.runAfter, t.jobs[job]))
        && (r == ReadFailed ==>
              if a.attempts < a.maxAttempts then Jobs.FreedAs(a, Jobs.Pending, at + delay, t.jobs[job])
              else Jobs.FreedAs(a, Jobs.Failed, a.runAfter, t.jobs[job]))
  {
    var r := Finalize(env, s.world, s.jobs.queue.jobs[job].task.attachment).1;
    Jobs.CompletionExactly(s.jobs.queue, job, token);
    Jobs.FailureExactly(s.jobs.queue, job, token, r == ReadFailed, delay, at);
  }

  // ---------------------------------------------------------------- the whole way

  /** The row is the caller's own and as declared, at its own upload key, where `data` has been uploaded. */
  predicate Uploaded(env: Env, w: World, id: nat, p: InitPayload, user: string, expires: int, data: seq<Byte>) {
    && id < |w.rows| && DeclaredAs(env, p, w.rows[id]) && w.rows[id].owner == Some(user)
    && w.rows[id].presignExpires == Some(expires)
    && w.rows[id].quarantineKey == Some(Key(InQuarantine, p.conversation, id, env.safe(p.filename)))
    && w.rows[id].quarantineKey.value in w.objects && w.objects[w.rows[id].quarantineKey.value] == data
  }

  lemma InitThenPut(env: Env, w: World, p: InitPayload, user: string, expires: int, data: seq<Byte>)
    requires (forall i | 0 <= i < |w.rows| :: !Names(w.rows[i], p)) && !p.metadataOnly
    requires Init(env, w, p, user, expires).1 !in {TooLarge, MimeNotAllowed, ExtensionMismatch}
    ensures var id, key := |w.rows|, Key(InQuarantine, p.conversation, |w.rows|, env.safe(p.filename));
      var t := Apply(env, Apply(env, w, DoInit(p, user, expires)), DoPut(key, data));
      Uploaded(env, t, id, p, user, expires, data) && t.rows[id].state == Pending
  {
    InitAddsRow(env, w, p, user, expires);
  }

  lemma UploadedThenCompleted(env: Env, w: World, id: nat, p: InitPayload, user: string, expires: int, data: seq<Byte>,
                              now: int)
    requires Uploaded(env, w, id, p, user, expires, data) && w.rows[id].state == Pending
    requires |data| == p.size && now <= expires + 900
    ensures Complete(w, id, user, p.sha, p.size, now).1 == Accepted
    ensures var t := Complete(w, id, user, p.sha, p.size, now).0;
      Uploaded(env, t, id, p, user, expires, data) && t.rows[id].state == Quarantine
  {
    CompletionAnswers(w, id, user, p.sha, p.size, now);
    CompletionWrites(w, id, user, p.sha, p.size, now);
  }

  lemma CompletedThenFinalized(env: Env, w: World, id: nat, p: InitPayload, user: string, expires: int, data: seq<Byte>)
    requires Uploaded(env, w, id, p, user, expires, data) && w.rows[id].state == Quarantine
    requires |data| == p.size <= env.maxBytes && Sha256(data) == p.sha && TypeFits(env, data, p.mime)
    ensures IsCleanWith(env, Finalize(env, w, id).0, id, p, data)
  {
    FinalizationAnswers(env, w, id);
    FinalizationWrites(env, w, id);
  }

  predicate IsCleanWith(env: Env, t: World, id: nat, p: InitPayload, data: seq<Byte>) {
    && id < |t.rows| && t.rows[id].state == Clean
    && t.rows[id].cleanKey == Some(Key(InClean, p.conversation, id, env.safe(p.filename)))
    && t.rows[id].cleanKey.value in t.objects && t.objects[t.rows[id].cleanKey.value] == data
  }

  /** A new attachment whose owner uploads what was declared, and completes in time, ends up clean, with exactly the
      bytes that were uploaded. */
  lemma DeclaredUploadBecomesClean(env: Env, w: World, p: InitPayload, user: string, expires: int, data: seq<Byte>,
                                   now: int)
    requires (forall i | 0 <= i < |w.rows| :: !Names(w.rows[i], p)) && !p.metadataOnly
    requires Init(env, w, p, user, expires).1 !in {TooLarge, MimeNotAllowed, ExtensionMismatch}
    requires |data| == p.size && Sha256(data) == p.sha && TypeFits(env, data, p.mime) && now <= expires + 900
    ensures var id, key := |w.rows|, Key(InQuarantine, p.conversation, |w.rows|, env.safe(p.filename));
      var uploaded := Apply(env, Apply(env, w, DoInit(p, user, expires)), DoPut(key, data));
      var completed := Apply(env, uploaded, DoComplete(id, user, p.sha, p.size, now));
      && Complete(uploaded, id, user, p.sha, p.size, now).1 == Accepted
      && IsCleanWith(env, Apply(env, completed, DoFinalize(id)), id, p, data)
  {
    var id, key := |w.rows|, Key(InQuarantine, p.conversation, |w.rows|, env.safe(p.filename));
    var uploaded := Apply(env, Apply(env, w, DoInit(p, user, expires)), DoPut(key, data));
    InitThenPut(env, w, p, user, expires, data);
    UploadedThenCompleted(env, uploaded, id, p, user, expires, data, now);
    InitRefusals(env, w, p, user, expires);
    CompletedThenFinalized(env, Complete(uploaded, id, user, p.sha, p.size, now).0, id, p, user, expires, data);
  }

  /** A sweep expires exactly the pending rows whose upload window closed more than an hour ago, and writes nothing
      else. */
  lemma SweepExpiresExactly(w: World, now: int)
    ensures var t := ExpireStale(w, now);
      && t.objects == w.objects && |t.rows| == |w.rows|
      && forall i | 0 <= i < |w.rows| ::
        var a := w.rows[i];
        if a.state == Pending && a.presignExpires.Some? && a.presignExpires.value + 3600 < now
        then t.rows[i] == a.(state := Expired) else t.rows[i] == a
  {
  }
}
