/** The identity functions ingestion rests on (core/crypto.py). */
module Identity {
  import opened Common

  /** A digest is a constructor applied to what was hashed, so equal digests mean equal preimages. */
  datatype Digest = Sha256(preimage: string)

  datatype Role = User | Assistant | Tool | System

  /** Text normalisation and cleaning are whatever functions the environment supplies. */
  datatype Env = Env(normalize: string -> string, clean: string -> string, user: nat)

  function ContentHash(env: Env, text: string): Digest {
    Sha256(env.normalize(text))
  }

  const BUCKET_SECONDS := 300
  const NEIGHBORHOOD := 5

  function TimestampBucket(ts: Option<int>): int {
    match ts
    case None => 0
    case Some(epoch) => epoch - epoch % BUCKET_SECONDS
  }

  datatype Fingerprint = Fingerprint(
    conversation: nat, role: Role, content: Digest, sequenceBucket: int, timeBucket: int)

  function MessageFingerprint(env: Env, conversation: nat, role: Role, text: string, sequenceIndex: nat,
                              createdAt: Option<int>): Fingerprint {
    Fingerprint(conversation, role, ContentHash(env, text), sequenceIndex / NEIGHBORHOOD, TimestampBucket(createdAt))
  }

  /** The moment a capture is bucketed by: a missing timestamp counts as the epoch. */
  function Moment(ts: Option<int>): int {
    match ts
    case None => 0
    case Some(epoch) => epoch
  }

  ghost predicate SameRun(i: int, k: int, length: nat) {
    exists n: int :: length * n <= i < length * n + length && length * n <= k < length * n + length
  }

  lemma PositionsAgree(i: int, k: int)
    ensures i / NEIGHBORHOOD == k / NEIGHBORHOOD <==> SameRun(i, k, NEIGHBORHOOD)
  {
    var n := i / NEIGHBORHOOD;
    assert NEIGHBORHOOD * n <= i < NEIGHBORHOOD * n + NEIGHBORHOOD;
  }

  lemma MomentsAgree(t: Option<int>, u: Option<int>)
    ensures TimestampBucket(t) == TimestampBucket(u) <==> SameRun(Moment(t), Moment(u), BUCKET_SECONDS)
  {
    var w := Moment(t) / BUCKET_SECONDS;
    assert BUCKET_SECONDS * w <= Moment(t) < BUCKET_SECONDS * w + BUCKET_SECONDS;
  }

  /** Two captures fingerprint alike exactly when they agree on conversation, role and normalised text, fall in the
      same run of five positions, and carry timestamps in the same aligned five-minute window, where a capture
      without a timestamp counts as taken at the epoch. */
  lemma FingerprintsAgree(env: Env, c: nat, r: Role, a: string, i: nat, t: Option<int>,
                          d: nat, q: Role, b: string, k: nat, u: Option<int>)
    ensures
      MessageFingerprint(env, c, r, a, i, t) == MessageFingerprint(env, d, q, b, k, u) <==>
      && c == d && r == q && env.normalize(a) == env.normalize(b)
      && SameRun(i, k, 5) && SameRun(Moment(t), Moment(u), 300)
  {
    PositionsAgree(i, k);
    MomentsAgree(t, u);
  }
}
