/** The ingestion service over mutable tables. Each method performs one statement group of services/ingest.py in
    place and is proved to compute the corresponding function of Ingestion.dfy, about which the properties are
    proved. */
module IngestService {
  import opened Common
  import opened Identity
  import opened Ingestion
  import opened ArchiveInvariant
  import ArchiveSteps
  import opened ExactlyOnce
  import opened NewestFirst
  import Jobs

  class Session {
    const env: Env
    var conversations: seq<Conversation>
    var branches: seq<Branch>
    var messages: seq<Message>
    var versions: seq<Version>
    var events: seq<Event>
    var keys: map<string, KeyRow>
    var queue: Jobs.Queue

    ghost function State(): Archive reads this {
      Archive(conversations, branches, messages, versions, events, keys, queue)
    }

    constructor (env: Env)
      ensures State() == EMPTY && this.env == env
    {
      this.env := env;
      conversations, branches, messages, versions, events := [], [], [], [], [];
      keys := map[];
      queue := Jobs.Queue([], 0);
    }

    method EnqueueJob(task: Jobs.Task, key: Jobs.DedupeKey, priority: nat, now: int)
      modifies this`queue
      ensures State() == Enqueue(old(State()), task, key, priority, now)
    {
      if !Jobs.Conflicts(queue.jobs, Some(key)) {
        var row := Jobs.Job(task, Jobs.Pending, priority, Some(key), 0, 8, now, now, None, None, None);
        queue := queue.(jobs := queue.jobs + [row]);
      }
    }

    method GetOrCreate(source: string, d: Details, coverage: Coverage, now: int) returns (c: nat)
      modifies this`conversations
      ensures (State(), c) == GetOrCreateConversation(env, old(State()), source, d, coverage, now)
    {
      var found := FirstIndex(conversations, (c: Conversation) => c.source == source);
      match found {
        case Some(i) =>
          Touch(i, d, coverage, now);
          c := i;
        case None =>
          c := |conversations|;
          conversations := conversations + [NewConversation(env, source, d, coverage, now)];
      }
    }

    method Overwrite(shown: Details, d: Details) returns (after: Details)
      ensures after == Overwritten(env, shown, d)
    {
      after := shown;
      if Carried(d.title) {
        after := after.(title := Some(env.clean(d.title.value)));
      }
      if Carried(d.url) {
        after := after.(url := Some(CutUrl(d.url.value)));
      }
      if Carried(d.model) {
        after := after.(model := d.model);
      }
      if d.updatedAt.Some? {
        after := after.(updatedAt := d.updatedAt);
      }
    }

    method Touch(c: nat, d: Details, coverage: Coverage, now: int)
      requires c < |conversations|
      modifies this`conversations
      ensures conversations == old(conversations)[c := Touched(env, old(conversations)[c], d, coverage, now)]
    {
      var row := conversations[c];
      var shown := Overwrite(row.shown, d);
      row := row.(shown := shown);
      row := row.(coverage := MergeCoverage(row.coverage, coverage));
      if row.user.None? {
        row := row.(user := Some(env.user));
      }
      row := row.(lastCapturedAt := now);
      if ChromeExtension !in row.sources {
        row := row.(sources := row.sources + [ChromeExtension]);
      }
      conversations := conversations[c := row];
    }

    /** None when the key is newly claimed, else what is stored under it. */
    method ClaimIdempotency(key: string, c: nat, now: int) returns (replay: Option<ResultRef>)
      modifies this`keys
      ensures key in old(keys) ==> replay == Some(old(keys)[key].result) && keys == old(keys)
      ensures key !in old(keys) ==> replay == None && State() == ClaimKey(old(State()), key, c, now)
    {
      if key in keys {
        return Some(keys[key].result);
      }
      keys := keys[key := KeyRow(now, ResultRef(Some(c), None, None))];
      return None;
    }

    method UpdateIdempotencyResult(key: string, result: ResultRef)
      modifies this`keys
      ensures State() == SetResult(old(State()), key, result)
    {
      if key in keys {
        keys := keys[key := keys[key].(result := result)];
      }
    }

    method MarkStale(c: nat, now: int)
      requires c < |conversations|
      modifies this`conversations, this`queue
      ensures State() == MarkSnapshotStale(old(State()), c, now)
    {
      conversations := conversations[c := conversations[c].(snapshotStale := true)];
      EnqueueJob(Jobs.BuildSnapshot(c), Jobs.SnapshotKey(c), 200, now);
    }

    method RecordCaptureEvent(c: nat, m: Option<nat>, key: string, body: Body, now: int) returns (e: nat)
      modifies this`events, this`queue
      ensures State() == RecordEvent(old(State()), c, m, key, body, now) && e == |old(events)|
    {
      e := |events|;
      events := events + [Event(c, m, key, body, None, None)];
      EnqueueJob(Jobs.ArchiveRawEvent(e), Jobs.ArchiveKey(e), 50, now);
    }

    method BranchRow(c: nat, p: Payload) returns (b: Option<nat>)
      modifies this`branches
      ensures (State(), b) == ResolveBranch(old(State()), c, p)
    {
      if p.branchKey.None? || p.branchKey.value == "" {
        return None;
      }
      var key := p.branchKey.value;
      var found := FirstIndex(branches, (b: Branch) => b.conversation == c && b.key == key);
      match found {
        case Some(i) => branches := branches[i := branches[i].(selected := p.branchSelected)];
        case None => branches := branches + [Branch(c, key, p.branchSelected)];
      }
      return if found.Some? then found else Some(|branches| - 1);
    }

    method FindMessageRow(c: nat, p: Payload, fp: Fingerprint, hash: Digest) returns (found: Option<nat>)
      ensures found == FindMessage(State(), c, p, fp, hash)
    {
      if p.source.Some? {
        found := FirstIndex(messages, (m: Message) => m.conversation == c && m.source == Some(p.source.value));
        if found.Some? {
          return;
        }
      }
      found := FirstIndex(messages, (m: Message) => m.conversation == c && m.fingerprint == fp);
      if found.None? {
        found := ByContent(messages, versions, c, p.role, hash, |messages|);
      }
    }

    method MessageRow(c: nat, found: Option<nat>, branch: Option<nat>, fp: Fingerprint, p: Payload) returns (m: nat)
      requires found.Some? ==> found.value < |messages|
      modifies this`messages
      ensures (State(), m) == ResolveMessage(old(State()), c, found, branch, fp, p)
    {
      if found.None? {
        m := |messages|;
        messages := messages + [NewMessage(c, branch, fp, p)];
        return;
      }
      m := found.value;
      var row := messages[m];
      if p.source.Some? && row.source.None? {
        row := row.(source := p.source);
      }
      if branch.Some? && row.branch.None? {
        row := row.(branch := branch);
      }
      if p.sourceCreatedAt.Some? && row.sourceCreatedAt.None? {
        row := row.(sourceCreatedAt := p.sourceCreatedAt);
      }
      if p.sequenceIndex != row.sequenceIndex {
        row := row.(sequenceIndex := p.sequenceIndex);
      }
      if p.hasAttachments {
        row := row.(hasAttachments := true);
      }
      messages := messages[m := row];
    }

    method SeeAgain(c: nat, m: nat, v: nat, p: Payload, now: int) returns (reconciled: bool)
      requires c < |conversations| && m < |messages| && v < |versions|
      modifies this
      ensures State() == SeenAgain(old(State()), c, m, v, p, now)
      ensures reconciled == Promotes(old(State()), v, p)
    {
      reconciled := versions[v].completion == Partial && p.completion == Complete;
      if reconciled {
        versions := versions[v := versions[v].(completion := Reconciled)];
        messages := messages[m := messages[m].(completion := Complete)];
      }
      UpdateIdempotencyResult(p.key, ResultRef(Some(c), Some(m), Some(v)));
      if reconciled {
        MarkStale(c, now);
      }
    }

    method AppendNewVersion(c: nat, m: nat, p: Payload, now: int) returns (v: nat)
      requires c < |conversations| && m < |messages|
      modifies this
      ensures State() == AppendVersion(env, old(State()), c, m, p, now) && v == |old(versions)|
    {
      v := AppendVersionRows(c, m, p, now);
      var _ := RecordCaptureEvent(c, Some(m), p.key, MessageBody(p), now);
      UpdateIdempotencyResult(p.key, ResultRef(Some(c), Some(m), Some(v)));
      MarkStale(c, now);
      if p.completion == Partial {
        EnqueueJob(Jobs.ReconcilePartial(m), Jobs.ReconcileKey(m), 400, now);
      }
    }

    /** The version, its message's pointers and its conversation's count. */
    method AppendVersionRows(c: nat, m: nat, p: Payload, now: int) returns (v: nat)
      requires c < |conversations| && m < |messages|
      modifies this`versions, this`messages, this`conversations
      ensures State() == AppendRows(env, old(State()), c, m, p, now) && v == |old(versions)|
    {
      var number := messages[m].versionCount + 1;
      v := |versions|;
      versions := versions + [NewVersion(env, m, number, |events|, p)];
      var row := messages[m].(currentVersion := Some(v), versionCount := number);
      if p.completion == Complete {
        row := row.(completion := Complete);
      } else if row.completion != Complete {
        row := row.(completion := p.completion);
      }
      messages := messages[m := row];
      if number == 1 {
        conversations := conversations[c := conversations[c].(messageCount := conversations[c].messageCount + 1)];
      }
      conversations := conversations[c := conversations[c].(lastCapturedAt := now)];
    }

    /** Ingest one item. When an exception strikes, after the statement group that `point` counts to, the tables are
        left in whatever state they had reached: nothing is promised about them then, and the caller rolls back. The
        same holds when an insert fails. */
    method IngestMessage(p: Payload, now: int, fault: Fault, point: nat) returns (o: Outcome)
      modifies this
      ensures o.Struck? <==> !fault.NoFault?
      ensures fault.NoFault? ==> o == Ingest(env, old(State()), p, now).1
      ensures fault.NoFault? && !o.Conflict? ==> State() == Ingest(env, old(State()), p, now).0
    {
      var strikes := !fault.NoFault?;
      if p.declared != Sha256(p.text) {
        return if strikes then Struck else Rejected;
      }
      var c := GetOrCreate(p.conversation, NO_DETAILS, LiveOnly, now);
      if strikes && point == 0 {
        return Struck;
      }
      var fp := MessageFingerprint(env, c, p.role, p.text, p.sequenceIndex, p.sourceCreatedAt);
      var replay := ClaimIdempotency(p.key, c, now);
      if strikes && point == 1 {
        return Struck;
      }
      if replay.Some? {
        return if strikes then Struck else Replay(c, replay.value);
      }
      var found := FindMessageRow(c, p, fp, ContentHash(env, p.text));
      var branch := BranchRow(c, p);
      if strikes && point == 2 {
        return Struck;
      }
      var m := MessageRow(c, found, branch, fp, p);
      if strikes && point == 3 {
        return Struck;
      }
      o := StoreVersion(c, m, p, now);
      if strikes {
        o := Struck;
      }
    }

    /** The last group: content seen again, a failed insert, or a new version. */
    method StoreVersion(c: nat, m: nat, p: Payload, now: int) returns (o: Outcome)
      requires c < |conversations| && m < |messages|
      modifies this
      ensures FindVersion(old(State()), m, ContentHash(env, p.text)).Some? || DistinctPartIndexes(KeptParts(p)) ==>
        (State(), o) == StoreContent(env, old(State()), c, m, p, now)
      ensures FindVersion(old(State()), m, ContentHash(env, p.text)).None? && !DistinctPartIndexes(KeptParts(p)) ==>
        o == Conflict
    {
      var found := FirstIndex(versions, (v: Version) => v.message == m && v.normalizedHash == ContentHash(env, p.text));
      if found.Some? {
        var reconciled := SeeAgain(c, m, found.value, p, now);
        return Duplicate(c, m, found.value, reconciled);
      }
      if !DistinctPartIndexes(KeptParts(p)) {
        return Conflict;
      }
      var v := AppendNewVersion(c, m, p, now);
      return Accepted(c, m, v);
    }

    method Restore(s: Archive)
      modifies this
      ensures State() == s
    {
      conversations, branches, messages, versions := s.conversations, s.branches, s.messages, s.versions;
      events, keys, queue := s.events, s.keys, s.queue;
    }

    /** Each item runs inside a savepoint; a struck or conflicting item is rolled back and reported, and a policy
        error rolls back the whole request. */
    method IngestMessageBatch(items: seq<Item>, now: int) returns (statuses: seq<ItemStatus>, aborted: bool)
      modifies this
      ensures aborted <==> IngestBatch(env, old(State()), items, now).BatchAborted?
      ensures !aborted ==> IngestBatch(env, old(State()), items, now) == BatchDone(State(), statuses)
      ensures aborted ==> State() == old(State())
    {
      var request := Archive(conversations, branches, messages, versions, events, keys, queue);
      statuses := [];
      var k := 0;
      while k < |items|
        invariant 0 <= k <= |items| && request == old(State())
        invariant IngestBatch(env, request, items[..k], now) == BatchDone(State(), statuses)
      {
        var savepoint := Archive(conversations, branches, messages, versions, events, keys, queue);
        var item := items[k];
        var o := IngestMessage(item.payload, now, item.fault, item.point);
        assert items[..k + 1][..k] == items[..k];
        match item.fault {
          case PolicyFault =>
            RolledBackItemsLeaveNoTrace(env, request, items, now);
            Restore(request);
            return [], true;
          case ValidationFault =>
            Restore(savepoint);
            statuses := statuses + [Invalid];
          case InternalFault =>
            Restore(savepoint);
            statuses := statuses + [Retryable];
          case NoFault =>
            if o.Conflict? {
              FailedItemsChangeNothing(env, savepoint, item.payload, now);
              Restore(savepoint);
              statuses := statuses + [WriteConflict];
            } else {
              statuses := statuses + [Settled(o)];
            }
        }
        k := k + 1;
      }
      assert items[..k] == items;
      aborted := false;
    }

    method Upsert(u: Upsert, now: int) returns (c: nat, duplicate: bool)
      modifies this
      ensures State() == UpsertConversation(env, old(State()), u, now)
      ensures duplicate <==> u.key in old(keys)
      ensures c < |conversations| && conversations[c].source == u.conversation
    {
      duplicate := u.key in keys;
      if !duplicate {
        keys := keys[u.key := KeyRow(now, ResultRef(None, None, None))];
      }
      c := GetOrCreate(u.conversation, u.details, u.coverage, now);
      if !duplicate {
        RecordUpsert(c, u, now);
      }
    }

    /** The statements of an upsert that is not a replay. */
    method RecordUpsert(c: nat, u: Upsert, now: int)
      requires c < |conversations|
      modifies this
      ensures var s := SetResult(old(State()), u.key, ResultRef(Some(c), None, None));
        State() == MarkSnapshotStale(RecordEvent(s, c, None, u.key, UpsertBody(u), now), c, now)
    {
      UpdateIdempotencyResult(u.key, ResultRef(Some(c), None, None));
      var _ := RecordCaptureEvent(c, None, u.key, UpsertBody(u), now);
      MarkStale(c, now);
    }

    /** The reconcile job. In every archive ingestion can produce it returns without a change. */
    method ReconcilePartial(m: nat) returns (reconciled: bool)
      modifies this
      ensures State() == Reconcile(old(State()), m)
      ensures Inv(old(State())) ==> State() == old(State()) && !reconciled
    {
      reconciled := false;
      ghost var before := State();
      if m < |messages| && messages[m].completion != Complete {
        var rows := VersionsDescending(versions, m, |versions|);
        DescendingAreRows(versions, m, |versions|);
        var complete := FindComplete(rows);
        FirstCompleteIsNewest(before, m, |versions|);
        if complete.Some? {
          PromoteTo(m, complete.value, rows);
          reconciled := true;
        }
      }
      if Inv(before) {
        ArchiveSteps.ReconcileChangesNothing(before, m);
      }
    }

    /** The reconcile job's updates: message, its partial versions, its conversation. */
    method PromoteTo(m: nat, complete: nat, rows: seq<nat>)
      requires m < |messages| && messages[m].completion != Complete
      requires forall v: nat :: v in rows <==> v < |versions| && versions[v].message == m
      requires NewestComplete(State(), m, |versions|) == Some(complete)
      modifies this
      ensures State() == Reconcile(old(State()), m)
    {
      messages := messages[m := messages[m].(completion := Complete, currentVersion := Some(complete))];
      Supersede(rows, m);
      var c := messages[m].conversation;
      if c < |conversations| {
        conversations := conversations[c := conversations[c].(snapshotStale := true)];
      }
    }

    /** The first complete version among rows read newest first. */
    method FindComplete(rows: seq<nat>) returns (complete: Option<nat>)
      requires forall i | 0 <= i < |rows| :: rows[i] < |versions|
      ensures complete == FirstComplete(versions, rows)
    {
      var i := 0;
      while i < |rows|
        invariant 0 <= i <= |rows|
        invariant FirstComplete(versions, rows) == FirstComplete(versions, rows[i..])
      {
        if versions[rows[i]].completion == Complete {
          return Some(rows[i]);
        }
        assert rows[i..][1..] == rows[i + 1..];
        i := i + 1;
      }
      complete := None;
    }

    /** Marks the partial ones among a message's versions as reconciled. */
    method Supersede(rows: seq<nat>, m: nat)
      requires forall v: nat :: v in rows <==> v < |versions| && versions[v].message == m
      modifies this`versions
      ensures versions == seq(|old(versions)|, i requires 0 <= i < |old(versions)| => Superseded(old(versions)[i], m))
    {
      var i := 0;
      while i < |rows|
        invariant 0 <= i <= |rows| && |versions| == |old(versions)|
        invariant forall v | 0 <= v < |versions| ::
          versions[v] == if v in rows[..i] then Superseded(old(versions)[v], m) else old(versions)[v]
      {
        var v := rows[i];
        assert v in rows;
        assert rows[..i + 1] == rows[..i] + [v];
        if versions[v].completion == Partial {
          versions := versions[v := versions[v].(completion := Reconciled)];
        }
        i := i + 1;
      }
      assert rows[..i] == rows;
    }
  }
}
