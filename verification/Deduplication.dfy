/** Re-delivery under a key the archive no longer knows: no second message row, and a second version only
    where a source id overrides what the content says.

    What an item is recognised as, and what it is answered, are first stated on the archive as it was before the item
    came, column by column. */
module Deduplication {
  import opened Common
  import opened Identity
  import opened Ingestion
  import opened ArchiveInvariant
  import opened ArchiveSteps
  import opened ArchiveRuns

  function FingerprintOf(env: Env, c: nat, p: Payload): Fingerprint {
    MessageFingerprint(env, c, p.role, p.text, p.sequenceIndex, p.sourceCreatedAt)
  }

  /** Message `m` identifies payload `p` by at least one of the three layers. */
  ghost predicate Identifies(env: Env, s: Archive, c: nat, p: Payload, m: nat) {
    && c < |s.conversations| && s.conversations[c].source == p.conversation
    && m < |s.messages| && s.messages[m].conversation == c
    && (|| (p.source.Some? && s.messages[m].source == p.source)
        || s.messages[m].fingerprint == FingerprintOf(env, c, p)
        || (s.messages[m].role == p.role && HasContent(s.versions, m, ContentHash(env, p.text))))
  }

  /** Whatever an item was stored under identifies it from then on. */
  lemma StoredIsIdentified(env: Env, s: Archive, p: Payload, now: int)
    requires Linked(|s.conversations|, s.messages, s.versions)
    ensures var (t, o) := Ingest(env, s, p, now);
      o.Accepted? || o.Duplicate? ==> Identifies(env, t, o.conversation, p, o.message)
  {
    if p.declared == Sha256(p.text) {
      var (s1, c) := GetOrCreateConversation(env, s, p.conversation, NO_DETAILS, LiveOnly, now);
      assert Linked(|s1.conversations|, s1.messages, s1.versions);
      if p.key !in s1.keys {
        PreparedIdentifies(env, s1, c, p, now);
        var (s2, m) := Prepare(env, s1, c, p, now);
        match FindVersion(s2, m, ContentHash(env, p.text))
        case Some(v) =>
          SeenAgainExtends(s2, c, m, v, p, now);
          IdentityPersists(env, s2, SeenAgain(s2, c, m, v, p, now), c, p, m);
        case None =>
          AppendVersionExtends(env, s2, c, m, p, now);
          IdentityPersists(env, s2, AppendVersion(env, s2, c, m, p, now), c, p, m);
      }
    }
  }

  lemma PreparedIdentifies(env: Env, s: Archive, c: nat, p: Payload, now: int)
    requires Linked(|s.conversations|, s.messages, s.versions) && c < |s.conversations|
    requires s.conversations[c].source == p.conversation
    ensures Identifies(env, Prepare(env, s, c, p, now).0, c, p, Prepare(env, s, c, p, now).1)
  {
    FoundInConversation(ClaimKey(s, p.key, c, now), c, p, FingerprintOf(env, c, p), ContentHash(env, p.text));
  }

  lemma IdentityPersists(env: Env, s: Archive, t: Archive, c: nat, p: Payload, m: nat)
    requires Extends(s, t) && Identifies(env, s, c, p, m)
    ensures Identifies(env, t, c, p, m)
  {
    assert ConversationGrows(s.conversations[c], t.conversations[c]);
    assert MessageGrows(s.messages[m], t.messages[m]);
    if HasContent(s.versions, m, ContentHash(env, p.text)) {
      var v :| 0 <= v < |s.versions| && s.versions[v].message == m
        && s.versions[v].normalizedHash == ContentHash(env, p.text);
      assert VersionGrows(s.versions[v], t.versions[v]);
    }
  }

  lemma IdentifiedIsFound(env: Env, s: Archive, c: nat, p: Payload, m: nat)
    requires Identifies(env, s, c, p, m)
    ensures FindMessage(s, c, p, FingerprintOf(env, c, p), ContentHash(env, p.text)).Some?
  {
    if s.messages[m].fingerprint == FingerprintOf(env, c, p) {
      assert ByFingerprint(s, c, FingerprintOf(env, c, p)).Some?;
    } else if s.messages[m].role == p.role && HasContent(s.versions, m, ContentHash(env, p.text)) {
      assert ContentMatch(s.messages, s.versions, c, p.role, ContentHash(env, p.text), m);
    } else {
      assert BySource(s, c, p.source.value).Some?;
    }
  }

  /** Without a deciding source id, the message found always holds the content already. */
  lemma FoundWithoutSourceHoldsContent(env: Env, s: Archive, c: nat, p: Payload)
    requires HoldsOwnContent(s.messages, s.versions) && AllVersioned(s.messages)
    ensures var found := FindWithoutSource(s, c, p.role, FingerprintOf(env, c, p), ContentHash(env, p.text));
      found.Some? ==> HasContent(s.versions, found.value, ContentHash(env, p.text))
  {
  }

  /** The message an item would be recognised as, from what the archive holds before it arrives. */
  function Recognised(env: Env, s: Archive, p: Payload): Option<nat> {
    match FindConversation(s, p.conversation)
    case None => None
    case Some(c) => FindMessage(s, c, p, FingerprintOf(env, c, p), ContentHash(env, p.text))
  }

  /** Recognised by source id, on a message that lacks the delivered content. */
  predicate SourceOverridesContent(env: Env, s: Archive, p: Payload) {
    match FindConversation(s, p.conversation)
    case None => false
    case Some(c) =>
      && p.source.Some? && BySource(s, c, p.source.value).Some?
      && !HasContent(s.versions, BySource(s, c, p.source.value).value, ContentHash(env, p.text))
  }

  // ---------------------------------------------------------------- recognition, column by column

  ghost predicate MatchesSource(s: Archive, c: nat, p: Payload, m: nat) {
    m < |s.messages| && s.messages[m].conversation == c && p.source.Some? && s.messages[m].source == p.source
  }

  ghost predicate MatchesFingerprint(env: Env, s: Archive, c: nat, p: Payload, m: nat) {
    && m < |s.messages| && s.messages[m].conversation == c
    && s.messages[m].fingerprint == MessageFingerprint(env, c, p.role, p.text, p.sequenceIndex, p.sourceCreatedAt)
  }

  /** A version of the message has the same normalised text, and the roles agree. */
  ghost predicate MatchesContent(env: Env, s: Archive, c: nat, p: Payload, m: nat) {
    && m < |s.messages| && s.messages[m].conversation == c && s.messages[m].role == p.role
    && exists v | 0 <= v < |s.versions| ::
         s.versions[v].message == m && s.versions[v].normalizedHash == Sha256(env.normalize(p.text))
  }

  /** The source id decides before the fingerprint and the fingerprint before the content; of several messages with the
      content the one lowest in the transcript is taken; where nothing matches, nothing is recognised. */
  lemma RecognisedExactly(env: Env, s: Archive, c: nat, p: Payload)
    requires ConversationsUnique(s.conversations)
    requires c < |s.conversations| && s.conversations[c].source == p.conversation
    ensures var r := Recognised(env, s, p);
      if exists m: nat :: MatchesSource(s, c, p, m) then r.Some? && MatchesSource(s, c, p, r.value)
      else if exists m: nat :: MatchesFingerprint(env, s, c, p, m)
      then r.Some? && MatchesFingerprint(env, s, c, p, r.value)
      else if exists m: nat :: MatchesContent(env, s, c, p, m) then r.Some? && LowestMatch(env, s, c, p, r.value)
      else r.None?
  {
    assert FindConversation(s, p.conversation) == Some(c);
    LookupBySource(s, c, p);
    LookupByFingerprint(env, s, c, p);
    LookupByContent(env, s, c, p);
  }

  ghost predicate LowestMatch(env: Env, s: Archive, c: nat, p: Payload, m: nat) {
    && MatchesContent(env, s, c, p, m)
    && forall k: nat | MatchesContent(env, s, c, p, k) :: s.messages[m].sequenceIndex <= s.messages[k].sequenceIndex
  }

  lemma LookupBySource(s: Archive, c: nat, p: Payload)
    ensures p.source.Some? ==>
      var r := BySource(s, c, p.source.value);
      && (r.Some? <==> exists m: nat :: MatchesSource(s, c, p, m))
      && (r.Some? ==> MatchesSource(s, c, p, r.value))
    ensures p.source.None? ==> !exists m: nat :: MatchesSource(s, c, p, m)
  {
    if p.source.Some? && BySource(s, c, p.source.value).Some? {
      assert MatchesSource(s, c, p, BySource(s, c, p.source.value).value);
    }
  }

  lemma LookupByFingerprint(env: Env, s: Archive, c: nat, p: Payload)
    ensures var r := ByFingerprint(s, c, FingerprintOf(env, c, p));
      && (r.Some? <==> exists m: nat :: MatchesFingerprint(env, s, c, p, m))
      && (r.Some? ==> MatchesFingerprint(env, s, c, p, r.value))
  {
    var r := ByFingerprint(s, c, FingerprintOf(env, c, p));
    if r.Some? {
      assert MatchesFingerprint(env, s, c, p, r.value);
    }
  }

  lemma LookupByContent(env: Env, s: Archive, c: nat, p: Payload)
    ensures var r := ByContent(s.messages, s.versions, c, p.role, ContentHash(env, p.text), |s.messages|);
      && (r.Some? <==> exists m: nat :: MatchesContent(env, s, c, p, m))
      && (r.Some? ==> LowestMatch(env, s, c, p, r.value))
  {
    var hash := ContentHash(env, p.text);
    var r := ByContent(s.messages, s.versions, c, p.role, hash, |s.messages|);
    assert forall m: nat | m < |s.messages| ::
      MatchesContent(env, s, c, p, m) <==> ContentMatch(s.messages, s.versions, c, p.role, hash, m);
    if r.Some? {
      assert MatchesContent(env, s, c, p, r.value);
    }
  }

  /** In the archive that `Ingest` works on, the lookup finds what it would have found before. */
  lemma LookupUnaffected(env: Env, s: Archive, p: Payload, now: int)
    requires Linked(|s.conversations|, s.messages, s.versions)
    ensures
      var (s1, c) := GetOrCreateConversation(env, s, p.conversation, NO_DETAILS, LiveOnly, now);
      FindMessage(ClaimKey(s1, p.key, c, now), c, p, FingerprintOf(env, c, p), ContentHash(env, p.text))
        == Recognised(env, s, p)
  {
    var (s1, c) := GetOrCreateConversation(env, s, p.conversation, NO_DETAILS, LiveOnly, now);
    if FindConversation(s, p.conversation).None? {
      assert forall m | 0 <= m < |s.messages| :: s.messages[m].conversation != c;
    }
  }

  lemma PreparedRow(env: Env, s: Archive, p: Payload, now: int)
    requires Linked(|s.conversations|, s.messages, s.versions)
    ensures
      var (s1, c) := GetOrCreateConversation(env, s, p.conversation, NO_DETAILS, LiveOnly, now);
      var (s2, m) := Prepare(env, s1, c, p, now);
      && s2.versions == s.versions
      && (Recognised(env, s, p).Some? ==> m == Recognised(env, s, p).value < |s.messages| == |s2.messages|)
      && (Recognised(env, s, p).None? ==> m == |s.messages| && |s2.messages| == |s.messages| + 1)
  {
    var (s1, c) := GetOrCreateConversation(env, s, p.conversation, NO_DETAILS, LiveOnly, now);
    LookupUnaffected(env, s, p, now);
    FoundInConversation(ClaimKey(s1, p.key, c, now), c, p, FingerprintOf(env, c, p), ContentHash(env, p.text));
  }

  lemma StoreContentRows(env: Env, s: Archive, c: nat, m: nat, p: Payload, now: int)
    requires c < |s.conversations| && m < |s.messages|
    requires FindVersion(s, m, ContentHash(env, p.text)).None? ==> DistinctPartIndexes(KeptParts(p))
    ensures var (t, o) := StoreContent(env, s, c, m, p, now);
      && |t.messages| == |s.messages|
      && |t.versions| == |s.versions| + (if HasContent(s.versions, m, ContentHash(env, p.text)) then 0 else 1)
      && (if HasContent(s.versions, m, ContentHash(env, p.text)) then o.Duplicate? else o.Accepted?)
      && o.message == m && o.conversation == c
  {
    var found := FindVersion(s, m, ContentHash(env, p.text));
    if found.Some? {
      assert HasContent(s.versions, m, ContentHash(env, p.text));
    }
  }

  /** Exactly when a delivery under a fresh key writes a message row, and exactly when it writes a version:
      a second version of an existing message is only ever written because a source id overrode its content. */
  lemma RowsWrittenExactly(env: Env, s: Archive, p: Payload, now: int)
    requires Linked(|s.conversations|, s.messages, s.versions) && HoldsOwnContent(s.messages, s.versions)
    requires AllVersioned(s.messages)
    requires p.declared == Sha256(p.text) && p.key !in s.keys
    ensures var t := Ingest(env, s, p, now).0;
      && (|t.messages| > |s.messages| <==> DistinctPartIndexes(KeptParts(p)) && Recognised(env, s, p).None?)
      && (|t.versions| > |s.versions| <==>
           (DistinctPartIndexes(KeptParts(p)) && (Recognised(env, s, p).None? || SourceOverridesContent(env, s, p))))
      && |s.messages| <= |t.messages| <= |s.messages| + 1 && |s.versions| <= |t.versions| <= |s.versions| + 1
  {
    var (s1, c) := GetOrCreateConversation(env, s, p.conversation, NO_DETAILS, LiveOnly, now);
    var (s2, m) := Prepare(env, s1, c, p, now);
    var hash := ContentHash(env, p.text);
    PreparedRow(env, s, p, now);
    FoundWithoutSourceHoldsContent(env, s, c, p);
    var found := FindVersion(s2, m, hash);
    if found.Some? {
      assert HasContent(s2.versions, m, hash);
    }
    if found.Some? || DistinctPartIndexes(KeptParts(p)) {
      StoreContentRows(env, s2, c, m, p, now);
    }
  }

  /** Of the parts that are kept, the first 500, two have the same index. */
  ghost predicate RepeatsPartIndex(p: Payload) {
    exists i, k | 0 <= i < k < |p.parts| && k < 500 :: p.parts[i].index == p.parts[k].index
  }

  /** The message an item would be recognised as has a version with its content. */
  ghost predicate ContentIsHeld(env: Env, s: Archive, p: Payload) {
    && Recognised(env, s, p).Some?
    && exists v | 0 <= v < |s.versions| ::
         s.versions[v].message == Recognised(env, s, p).value
         && s.versions[v].normalizedHash == Sha256(env.normalize(p.text))
  }

  /** Every answer to a delivery has exactly one condition: a wrong declared hash, a claimed key, content already held,
      a repeated part index, or none of these. */
  lemma OutcomeExactly(env: Env, s: Archive, p: Payload, now: int)
    requires Linked(|s.conversations|, s.messages, s.versions)
    ensures var o := Ingest(env, s, p, now).1;
      var unseen := p.declared == Sha256(p.text) && p.key !in s.keys;
      && (o.Rejected? <==> p.declared != Sha256(p.text))
      && (o.Replay? <==> p.declared == Sha256(p.text) && p.key in s.keys)
      && (o.Duplicate? <==> unseen && ContentIsHeld(env, s, p))
      && (o.Conflict? <==> unseen && !ContentIsHeld(env, s, p) && RepeatsPartIndex(p))
      && (o.Accepted? <==> unseen && !ContentIsHeld(env, s, p) && !RepeatsPartIndex(p))
  {
    if p.declared == Sha256(p.text) && p.key !in s.keys {
      var (s1, c) := GetOrCreateConversation(env, s, p.conversation, NO_DETAILS, LiveOnly, now);
      var (s2, m) := Prepare(env, s1, c, p, now);
      PreparedRow(env, s, p, now);
      HeldIsFound(env, s, s2, m, p);
      RepeatedIndex(p);
    }
  }

  lemma HeldIsFound(env: Env, s: Archive, u: Archive, m: nat, p: Payload)
    requires Linked(|s.conversations|, s.messages, s.versions) && u.versions == s.versions
    requires Recognised(env, s, p).Some? ==> m == Recognised(env, s, p).value < |s.messages|
    requires Recognised(env, s, p).None? ==> m == |s.messages|
    ensures FindVersion(u, m, ContentHash(env, p.text)).Some? <==> ContentIsHeld(env, s, p)
  {
  }

  lemma RepeatedIndex(p: Payload)
    ensures RepeatsPartIndex(p) <==> !DistinctPartIndexes(KeptParts(p))
  {
    var kept := KeptParts(p);
    assert forall i | 0 <= i < |kept| :: kept[i] == p.parts[i];
  }

  /** The item ends up in the archive, newly or as content already there. */
  predicate Stored(env: Env, s: Archive, p: Payload, now: int) {
    var o := Ingest(env, s, p, now).1;
    o.Accepted? || o.Duplicate?
  }

  /** The part of the invariant that recognition rests on. */
  ghost predicate Recognisable(s: Archive) {
    Linked(|s.conversations|, s.messages, s.versions) && HoldsOwnContent(s.messages, s.versions)
      && AllVersioned(s.messages)
  }

  /** What was stored once is recognised after any further run, under whatever key it comes back. */
  lemma StaysRecognised(env: Env, s: Archive, p: Payload, now: int, actions: seq<Action>, key: string)
    requires Inv(s)
    ensures var t := Run(env, Act(env, s, Deliver(p, now)), actions);
      Stored(env, s, p, now) ==> Recognised(env, t, p.(key := key)).Some? && Recognisable(t)
  {
    if Stored(env, s, p, now) {
      var (s1, o) := Ingest(env, s, p, now);
      var t := Run(env, s1, actions);
      StoredIsIdentified(env, s, p, now);
      IngestKeepsInv(env, s, p, now);
      RunExtends(env, s1, actions);
      RunKeepsInv(env, s1, actions);
      IdentityPersists(env, s1, t, o.conversation, p, o.message);
      assert Identifies(env, t, o.conversation, p.(key := key), o.message);
      RecognisedWhenIdentified(env, t, o.conversation, p.(key := key), o.message);
    }
  }

  lemma KnownKeyWritesNoRow(env: Env, s: Archive, p: Payload, now: int)
    requires p.key in s.keys
    ensures Ingest(env, s, p, now).0.messages == s.messages && Ingest(env, s, p, now).0.versions == s.versions
  {
  }

  /** A delivery of `p` now writes no message row, and writes a version exactly when its key is unknown and a
      source id overrides the content; without a source id, an unknown key is answered `Duplicate`. */
  ghost predicate DeliveredSafely(env: Env, s: Archive, p: Payload, now: int) {
    var (u, o) := Ingest(env, s, p, now);
    && |u.messages| == |s.messages|
    && (|u.versions| > |s.versions| <==>
         (p.key !in s.keys && DistinctPartIndexes(KeptParts(p)) && SourceOverridesContent(env, s, p)))
    && (p.source.None? && p.key !in s.keys ==> o.Duplicate?)
  }

  /** Duplicate safety without keys. After an item has been stored, and after any further run with any
      pruning, the same payload under any key at all is delivered safely: never a second message row, and
      for a payload without a source id never a second version. */
  lemma RedeliveryIsSafe(env: Env, s: Archive, p: Payload, now: int, actions: seq<Action>, key: string, later: int)
    requires Inv(s)
    ensures Stored(env, s, p, now) ==>
      DeliveredSafely(env, Run(env, Act(env, s, Deliver(p, now)), actions), p.(key := key), later)
  {
    if Stored(env, s, p, now) {
      StaysRecognised(env, s, p, now, actions, key);
      StoredWasIntact(env, s, p, now);
      RedeliveryStep(env, Run(env, Act(env, s, Deliver(p, now)), actions), p.(key := key), later);
    }
  }

  lemma StoredWasIntact(env: Env, s: Archive, p: Payload, now: int)
    requires Stored(env, s, p, now)
    ensures p.declared == Sha256(p.text)
  {
  }

  lemma RedeliveryStep(env: Env, s: Archive, p: Payload, now: int)
    requires Recognisable(s)
    requires p.declared == Sha256(p.text) && Recognised(env, s, p).Some?
    ensures DeliveredSafely(env, s, p, now)
  {
    if p.key in s.keys {
      KnownKeyWritesNoRow(env, s, p, now);
    } else {
      RowsWrittenExactly(env, s, p, now);
      if p.source.None? {
        SourcelessIsDuplicate(env, s, p, now);
      }
    }
  }

  lemma RecognisedWhenIdentified(env: Env, s: Archive, c: nat, p: Payload, m: nat)
    requires ConversationsUnique(s.conversations) && Identifies(env, s, c, p, m)
    ensures Recognised(env, s, p).Some?
  {
    assert FindConversation(s, p.conversation) == Some(c);
    IdentifiedIsFound(env, s, c, p, m);
  }

  lemma SourcelessIsDuplicate(env: Env, s: Archive, p: Payload, now: int)
    requires Linked(|s.conversations|, s.messages, s.versions) && HoldsOwnContent(s.messages, s.versions)
    requires AllVersioned(s.messages)
    requires p.declared == Sha256(p.text) && p.key !in s.keys && p.source.None? && Recognised(env, s, p).Some?
    ensures var (u, o) := Ingest(env, s, p, now);
      o.Duplicate? && o.version < |s.versions| == |u.versions|
        && u.versions == s.versions[o.version := u.versions[o.version]]
  {
    var (s1, c) := GetOrCreateConversation(env, s, p.conversation, NO_DETAILS, LiveOnly, now);
    var (s2, m) := Prepare(env, s1, c, p, now);
    PreparedRow(env, s, p, now);
    FoundWithoutSourceHoldsContent(env, s, c, p);
    assert HasContent(s2.versions, m, ContentHash(env, p.text));
    assert FindVersion(s2, m, ContentHash(env, p.text)).Some?;
    SeenAgainTouchesOneVersion(s2, c, m, FindVersion(s2, m, ContentHash(env, p.text)).value, p, now);
  }

  lemma SeenAgainTouchesOneVersion(s: Archive, c: nat, m: nat, v: nat, p: Payload, now: int)
    requires c < |s.conversations| && m < |s.messages| && v < |s.versions|
    ensures var t := SeenAgain(s, c, m, v, p, now);
      |t.versions| == |s.versions| && t.versions == s.versions[v := t.versions[v]]
  {
  }
}
