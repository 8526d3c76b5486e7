/** From the delivery to the store: what was sent is what is archived. */
module OutboxDelivery {
  import opened Common
  import opened Identity
  import opened Ingestion
  import opened ArchiveInvariant
  import opened Outbox
  import ArchiveRuns
  import ArchiveSteps
  import IngestEffects
  import OutboxRuns
  import StatementEffects

  /** Event `e` names what it recorded: a conversation, perhaps a message, the key and the body as sent. */
  ghost predicate Recorded(s: Archive, e: nat, c: nat, m: Option<nat>, key: string, body: Body) {
    && e < |s.events| && s.events[e].conversation == c && s.events[e].message == m
    && s.events[e].idempotencyKey == key && s.events[e].body == body
  }

  lemma RecordedStays(env: Env, s: World, step: Step, e: nat, c: nat, m: Option<nat>, key: string, body: Body)
    requires Inv(s.archive) && Recorded(s.archive, e, c, m, key, body)
    ensures Recorded(Apply(env, s, step).archive, e, c, m, key, body)
  {
    match step
    case Transact(a) => RecordedStaysInArchive(env, s.archive, a, e, c, m, key, body);
    case CommitDone(token, at) => SettlingKeepsColumns(env, s, step);
    case _ => OthersKeepEvents(env, s, step);
  }

  /** The columns of an event that the archive handler does not write. */
  ghost predicate SameColumns(a: Event, b: Event) {
    b == a.(rawKey := b.rawKey, archivedAt := b.archivedAt)
  }

  lemma SettlingKeepsColumns(env: Env, s: World, step: Step)
    requires step.CommitDone?
    ensures var es, fs := s.archive.events, Apply(env, s, step).archive.events;
      |fs| == |es| && forall i | 0 <= i < |es| :: SameColumns(es[i], fs[i])
  {
  }

  lemma OthersKeepEvents(env: Env, s: World, step: Step)
    requires !step.Transact? && !step.CommitDone?
    ensures Apply(env, s, step).archive.events == s.archive.events
  {
  }

  lemma RecordedStaysInArchive(env: Env, s: Archive, a: ArchiveRuns.Action, e: nat, c: nat, m: Option<nat>, key: string,
                               body: Body)
    requires Inv(s) && Recorded(s, e, c, m, key, body)
    ensures Recorded(ArchiveRuns.Act(env, s, a), e, c, m, key, body)
  {
    if a.ReconcileJob? {
      ArchiveSteps.ReconcileChangesNothing(s, a.message);
    }
    ArchiveRuns.ActExtends(env, s, a);
    assert ArchiveRuns.EventGrows(s.events[e], ArchiveRuns.Act(env, s, a).events[e]);
  }

  lemma {:induction false} RecordedForever(env: Env, s: World, steps: seq<Step>, e: nat, c: nat, m: Option<nat>,
                                           key: string, body: Body)
    requires WorldInv(s) && Recorded(s.archive, e, c, m, key, body)
    ensures WorldInv(Run(env, s, steps)) && Recorded(Run(env, s, steps).archive, e, c, m, key, body)
    decreases |steps|
  {
    if steps != [] {
      var n := |steps| - 1;
      RecordedForever(env, s, steps[..n], e, c, m, key, body);
      OutboxRuns.StepKeepsInv(env, Run(env, s, steps[..n]), steps[n]);
      RecordedStays(env, Run(env, s, steps[..n]), steps[n], e, c, m, key, body);
    }
  }

  /** Whenever there is an object for the event it is this one, and once the event is archived there is. */
  ghost predicate StoredAs(t: World, e: nat, c: nat, m: Option<nat>, key: string, body: Body) {
    && e < |t.archive.events|
    && (RawEventKey(e) in t.store ==> t.store[RawEventKey(e)] == Document(e, c, m, key, body))
    && (t.archive.events[e].archivedAt.Some? ==> RawEventKey(e) in t.store)
  }

  lemma RecordedIsStored(t: World, e: nat, c: nat, m: Option<nat>, key: string, body: Body)
    requires WorldInv(t) && Recorded(t.archive, e, c, m, key, body)
    ensures StoredAs(t, e, c, m, key, body)
  {
  }

  /** The event of an accepted delivery, in whatever state of whatever run follows, is stored as exactly the payload
      that was sent, under its key, conversation and message. */
  lemma {:induction false} AcceptedIsStoredAsSent(env: Env, before: seq<Step>, p: Payload, now: int, after: seq<Step>)
    ensures var s := Run(env, START, before);
      var o := Ingest(env, s.archive, p, now).1;
      var t := Run(env, Apply(env, s, Transact(ArchiveRuns.Deliver(p, now))), after);
      p.key !in s.archive.keys && o.Accepted? ==>
        StoredAs(t, |s.archive.events|, o.conversation, Some(o.message), p.key, MessageBody(p))
  {
    OutboxRuns.RunKeepsInv(env, before);
    var s := Run(env, START, before);
    if p.key !in s.archive.keys && Ingest(env, s.archive, p, now).1.Accepted? {
      StoredAfterDelivery(env, s, p, now, after);
    }
  }

  lemma StoredAfterDelivery(env: Env, s: World, p: Payload, now: int, after: seq<Step>)
    requires WorldInv(s) && p.key !in s.archive.keys && Ingest(env, s.archive, p, now).1.Accepted?
    ensures var o := Ingest(env, s.archive, p, now).1;
      var t := Run(env, Apply(env, s, Transact(ArchiveRuns.Deliver(p, now))), after);
      StoredAs(t, |s.archive.events|, o.conversation, Some(o.message), p.key, MessageBody(p))
  {
    var o := Ingest(env, s.archive, p, now).1;
    var e, step := |s.archive.events|, Transact(ArchiveRuns.Deliver(p, now));
    OutboxRuns.StepKeepsInv(env, s, step);
    AcceptedIsRecorded(env, s.archive, p, now);
    RecordedForever(env, Apply(env, s, step), after, e, o.conversation, Some(o.message), p.key, MessageBody(p));
    RecordedIsStored(Run(env, Apply(env, s, step), after), e, o.conversation, Some(o.message), p.key, MessageBody(p));
  }

  lemma AcceptedIsRecorded(env: Env, s: Archive, p: Payload, now: int)
    requires Inv(s) && p.key !in s.keys && Ingest(env, s, p, now).1.Accepted?
    ensures var (t, o) := Ingest(env, s, p, now);
      Recorded(t, |s.events|, o.conversation, Some(o.message), p.key, MessageBody(p))
  {
    IngestEffects.AcceptedWrites(env, s, p, now);
  }

  /** So is a conversation upsert under a fresh key. */
  lemma {:induction false} UpsertIsStoredAsSent(env: Env, before: seq<Step>, u: Upsert, now: int, after: seq<Step>,
                                                c: nat)
    requires var s := Run(env, START, before).archive;
      u.key !in s.keys && (StatementEffects.KnownAs(s, c, u.conversation)
                           || (StatementEffects.Unknown(s, u.conversation) && c == |s.conversations|))
    ensures var s := Run(env, START, before);
      var t := Run(env, Apply(env, s, Transact(ArchiveRuns.DeliverUpsert(u, now))), after);
      StoredAs(t, |s.archive.events|, c, None, u.key, UpsertBody(u))
  {
    var s := Run(env, START, before);
    var e, step := |s.archive.events|, Transact(ArchiveRuns.DeliverUpsert(u, now));
    OutboxRuns.RunKeepsInv(env, before);
    OutboxRuns.StepKeepsInv(env, s, step);
    StatementEffects.UpsertWrites(env, s.archive, u, now, c);
    RecordedForever(env, Apply(env, s, step), after, e, c, None, u.key, UpsertBody(u));
    RecordedIsStored(Run(env, Apply(env, s, step), after), e, c, None, u.key, UpsertBody(u));
  }
}
