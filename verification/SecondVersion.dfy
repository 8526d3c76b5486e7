/** Why re-delivery safety stops at source ids: a run in which content stored once is stored again as a second
    version.

    The second delivery repeats the first one's text under another source id and is a duplicate; the third gives that
    id to new text, and with it a message of its own; the fourth repeats the second, is led there by the id, and finds
    its text missing. */
module SecondVersion {
  import opened Common
  import opened Identity
  import opened Ingestion
  import opened ArchiveInvariant
  import ArchiveSteps
  import ArchiveRuns
  import opened Deduplication
  import IngestEffects

  function Said(key: string, source: string, text: string): Payload {
    Payload(key, "conversation", Some(source), User, 0, text, Sha256(text), [], Complete, false, false, None, false,
      None, false)
  }

  /** One conversation holding exactly these messages' sources and contents, one version each. */
  ghost predicate Holds(env: Env, s: Archive, sources: seq<string>, texts: seq<string>) {
    && |s.conversations| == 1 && s.conversations[0].source == "conversation"
    && |sources| == |texts| == |s.messages| == |s.versions|
    && forall m | 0 <= m < |sources| :: Row(env, s, m, sources[m], texts[m])
  }

  ghost predicate Row(env: Env, s: Archive, m: nat, source: string, text: string) {
    && m < |s.messages| && m < |s.versions|
    && s.messages[m].conversation == 0 && s.messages[m].source == Some(source)
    && s.messages[m].fingerprint == FingerprintOf(env, 0, Said("", source, text))
    && s.versions[m].message == m && s.versions[m].normalizedHash == ContentHash(env, text)
  }

  /** The first delivery of all: one row in each table. */
  lemma FirstWrites(env: Env, s: Archive, p: Payload)
    requires |s.conversations| == |s.messages| == |s.versions| == 0 && p.key !in s.keys
    requires p.declared == Sha256(p.text) && p.parts == []
    ensures var t := Ingest(env, s, p, 0).0;
      && IngestEffects.VersionWritten(env, s, t, 0, 0, 0, p) && IngestEffects.MessageWritten(env, s, t, 0, 0, 0, p)
      && IngestEffects.ConversationWritten(s, t, 0, p.conversation, true, 0) && t.keys.Keys == s.keys.Keys + {p.key}
  {
    assert Recognised(env, s, p).None?;
    LaterAccepted(env, s, p);
    IngestEffects.AcceptedRows(env, s, p, 0);
  }

  lemma First(env: Env, source: string, text: string)
    ensures Holds(env, Ingest(env, EMPTY, Said("delivery-1", source, text), 0).0, [source], [text])
    ensures Ingest(env, EMPTY, Said("delivery-1", source, text), 0).0.keys.Keys == {"delivery-1"}
  {
    var p := Said("delivery-1", source, text);
    FirstWrites(env, EMPTY, p);
    FirstRow(env, EMPTY, Ingest(env, EMPTY, p, 0).0, source, p);
  }

  lemma FirstRow(env: Env, s: Archive, t: Archive, source: string, p: Payload)
    requires p.source == Some(source) && |s.conversations| == |s.messages| == |s.versions| == 0
    requires IngestEffects.VersionWritten(env, s, t, 0, 0, 0, p) && IngestEffects.MessageWritten(env, s, t, 0, 0, 0, p)
    requires IngestEffects.ConversationWritten(s, t, 0, "conversation", true, 0)
    requires FingerprintOf(env, 0, p) == FingerprintOf(env, 0, Said("", source, p.text))
    ensures Holds(env, t, [source], [p.text])
  {
    assert Row(env, t, 0, source, p.text);
  }

  /** The same text under another source id is recognised by its fingerprint; the row keeps its own source id. */
  lemma Again(env: Env, s: Archive, key: string, source: string, other: string, text: string)
    requires Recognisable(s) && Holds(env, s, [source], [text]) && source != other && key !in s.keys
    ensures var (t, o) := Ingest(env, s, Said(key, other, text), 0);
      o.Duplicate? && Holds(env, t, [source], [text]) && t.keys.Keys == s.keys.Keys + {key}
  {
    var p := Said(key, other, text);
    assert Row(env, s, 0, [source][0], [text][0]);
    assert FindConversation(s, "conversation") == Some(0);
    assert BySource(s, 0, other).None?;
    assert ByFingerprint(s, 0, FingerprintOf(env, 0, p)) == Some(0);
    assert HasContent(s.versions, 0, ContentHash(env, text));
    PreparedRow(env, s, p, 0);
    RowsWrittenExactly(env, s, p, 0);
    assert Ingest(env, s, p, 0).1.Duplicate?;
    IngestEffects.DuplicateRows(env, s, p, 0);
  }

  lemma LaterAccepted(env: Env, s: Archive, p: Payload)
    requires Recognisable(s) && p.declared == Sha256(p.text) && p.parts == [] && p.key !in s.keys
    requires Recognised(env, s, p).None?
    ensures Ingest(env, s, p, 0).1.Accepted? && Ingest(env, s, p, 0).1.message == |s.messages|
  {
    PreparedRow(env, s, p, 0);
    RowsWrittenExactly(env, s, p, 0);
  }

  lemma OtherIsUnknown(env: Env, s: Archive, source: string, text: string, p: Payload)
    requires Holds(env, s, [source], [text]) && p.source.Some? && p.source.value != source
    requires p.conversation == "conversation"
    requires env.normalize(text) != env.normalize(p.text)
    ensures Recognised(env, s, p).None? && FindConversation(s, "conversation") == Some(0)
  {
    assert Row(env, s, 0, [source][0], [text][0]);
    assert BySource(s, 0, p.source.value).None?;
    assert ByFingerprint(s, 0, FingerprintOf(env, 0, p)).None?;
    assert !HasContent(s.versions, 0, ContentHash(env, p.text));
  }

  /** Other text under that source id is a new message. */
  lemma Later(env: Env, s: Archive, key: string, source: string, other: string, text: string, more: string)
    requires Recognisable(s) && Holds(env, s, [source], [text])
    requires source != other && key !in s.keys && env.normalize(text) != env.normalize(more)
    ensures var t := Ingest(env, s, Said(key, other, more), 0).0;
      Holds(env, t, [source, other], [text, more]) && t.keys.Keys == s.keys.Keys + {key}
  {
    var p := Said(key, other, more);
    OtherIsAccepted(env, s, source, text, p);
    OtherIsWritten(env, s, source, text, p);
  }

  lemma OtherIsAccepted(env: Env, s: Archive, source: string, text: string, p: Payload)
    requires Recognisable(s) && Holds(env, s, [source], [text]) && p.source.Some? && p.source.value != source
    requires env.normalize(text) != env.normalize(p.text) && p.conversation == "conversation"
    requires p.declared == Sha256(p.text) && p.parts == [] && p.key !in s.keys
    ensures var o := Ingest(env, s, p, 0).1; o.Accepted? && o.conversation == 0 && o.message == 1
  {
    OtherIsUnknown(env, s, source, text, p);
    LaterAccepted(env, s, p);
  }

  lemma OtherIsWritten(env: Env, s: Archive, source: string, text: string, p: Payload)
    requires Recognisable(s) && Holds(env, s, [source], [text]) && p.source.Some? && p.conversation == "conversation"
    requires p.key !in s.keys && FingerprintOf(env, 0, p) == FingerprintOf(env, 0, Said("", p.source.value, p.text))
    requires var o := Ingest(env, s, p, 0).1; o.Accepted? && o.conversation == 0 && o.message == 1
    ensures var t := Ingest(env, s, p, 0).0;
      Holds(env, t, [source, p.source.value], [text, p.text]) && t.keys.Keys == s.keys.Keys + {p.key}
  {
    IngestEffects.AcceptedRows(env, s, p, 0);
    var (t, o) := Ingest(env, s, p, 0);
    SecondRow(env, s, t, source, text, p, o.version);
  }

  lemma SecondRow(env: Env, s: Archive, t: Archive, source: string, text: string, p: Payload, v: nat)
    requires Holds(env, s, [source], [text]) && p.source.Some?
    requires IngestEffects.VersionWritten(env, s, t, 0, 1, v, p) && IngestEffects.MessageWritten(env, s, t, 0, 1, v, p)
    requires IngestEffects.ConversationWritten(s, t, 0, "conversation", true, 0)
    requires FingerprintOf(env, 0, p) == FingerprintOf(env, 0, Said("", p.source.value, p.text))
    ensures Holds(env, t, [source, p.source.value], [text, p.text])
  {
    assert Row(env, s, 0, [source][0], [text][0]);
    assert t.messages[0] == s.messages[0] && t.versions[0] == t.versions[..1][0];
    assert Row(env, t, 0, source, text) && Row(env, t, 1, p.source.value, p.text);
  }

  lemma Overridden(env: Env, s: Archive, key: string, source: string, other: string, text: string, more: string)
    requires Recognisable(s) && Holds(env, s, [source, other], [text, more])
    requires source != other && key !in s.keys && env.normalize(text) != env.normalize(more)
    ensures |Ingest(env, s, Said(key, other, text), 0).0.versions| == |s.versions| + 1
  {
    var p := Said(key, other, text);
    assert Row(env, s, 0, [source, other][0], [text, more][0]) && Row(env, s, 1, [source, other][1], [text, more][1]);
    assert FindConversation(s, "conversation") == Some(0);
    assert BySource(s, 0, other) == Some(1);
    assert !HasContent(s.versions, 1, ContentHash(env, text));
    RowsWrittenExactly(env, s, p, 0);
  }

  lemma StaysRecognisable(env: Env, s: Archive, p: Payload)
    requires Inv(s)
    ensures Inv(Ingest(env, s, p, 0).0) && Recognisable(Ingest(env, s, p, 0).0)
  {
    ArchiveSteps.IngestKeepsInv(env, s, p, 0);
  }

  lemma ChainIsRecognisable(env: Env, p: Payload, q: Payload, r: Payload, s1: Archive, s2: Archive, s3: Archive)
    requires s1 == Ingest(env, EMPTY, p, 0).0 && s2 == Ingest(env, s1, q, 0).0 && s3 == Ingest(env, s2, r, 0).0
    ensures Recognisable(s1) && Recognisable(s2) && Recognisable(s3)
  {
    ArchiveRuns.EmptyInv();
    StaysRecognisable(env, EMPTY, p);
    StaysRecognisable(env, s1, q);
    StaysRecognisable(env, s2, r);
  }

  /** A payload stored once as a duplicate comes back under a fresh key and becomes a second version, because its source
      id has meanwhile been given to a message with other text. */
  lemma RedeliveryCanAddVersion(env: Env, source: string, other: string, text: string, more: string)
    requires source != other && env.normalize(text) != env.normalize(more)
    ensures var p := Said("delivery-2", other, text);
      var s1 := Ingest(env, EMPTY, Said("delivery-1", source, text), 0).0;
      var s2 := Ingest(env, s1, p, 0).0;
      var s3 := Ingest(env, s2, Said("delivery-3", other, more), 0).0;
      Stored(env, s1, p, 0) && |Ingest(env, s3, p.(key := "delivery-4"), 0).0.versions| == |s3.versions| + 1
  {
    var p, q := Said("delivery-2", other, text), Said("delivery-3", other, more);
    var s1 := Ingest(env, EMPTY, Said("delivery-1", source, text), 0).0;
    var s2 := Ingest(env, s1, p, 0).0;
    var s3 := Ingest(env, s2, q, 0).0;
    ChainIsRecognisable(env, Said("delivery-1", source, text), p, q, s1, s2, s3);
    First(env, source, text);
    AgainAt(env, s1, s2, source, other, text);
    FromSecond(env, s2, s3, source, other, text, more);
  }

  lemma AgainAt(env: Env, s1: Archive, s2: Archive, source: string, other: string, text: string)
    requires Recognisable(s1) && Holds(env, s1, [source], [text]) && s1.keys.Keys == {"delivery-1"} && source != other
    requires s2 == Ingest(env, s1, Said("delivery-2", other, text), 0).0
    ensures Stored(env, s1, Said("delivery-2", other, text), 0) && Holds(env, s2, [source], [text])
    ensures "delivery-3" !in s2.keys
    ensures "delivery-4" !in s2.keys
  {
    Again(env, s1, "delivery-2", source, other, text);
  }

  lemma FromSecond(env: Env, s2: Archive, s3: Archive, source: string, other: string, text: string, more: string)
    requires source != other && env.normalize(text) != env.normalize(more)
    requires Recognisable(s2) && Recognisable(s3) && s3 == Ingest(env, s2, Said("delivery-3", other, more), 0).0
    requires Holds(env, s2, [source], [text]) && "delivery-3" !in s2.keys && "delivery-4" !in s2.keys
    ensures |Ingest(env, s3, Said("delivery-4", other, text), 0).0.versions| == |s3.versions| + 1
  {
    Later(env, s2, "delivery-3", source, other, text, more);
    FromThird(env, s3, source, other, text, more, s2.keys.Keys);
  }

  lemma FromThird(env: Env, s3: Archive, source: string, other: string, text: string, more: string, keys: set<string>)
    requires source != other && env.normalize(text) != env.normalize(more)
    requires Recognisable(s3) && Holds(env, s3, [source, other], [text, more])
    requires s3.keys.Keys == keys + {"delivery-3"} && "delivery-4" !in keys
    ensures |Ingest(env, s3, Said("delivery-4", other, text), 0).0.versions| == |s3.versions| + 1
  {
    Overridden(env, s3, "delivery-4", source, other, text, more);
  }
}
