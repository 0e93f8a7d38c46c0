/** Runs of the broker: uploads in the order in which they reach the nonce store, with the cleaner's ticks between. */
module BrokerRuns {
  import opened Wrappers
  import opened Text
  import opened Clock
  import opened Chunker
  import opened Manifest
  import opened Broker
  import Claims

  datatype Event = Handle(u: Upload) | Sweep(at: nat)

  type Run = seq<Event>

  function TimeOf(e: Event): nat {
    if e.Sweep? then e.at else e.u.now
  }

  ghost function ClaimEvent(cfg: Config, e: Event): Claims.Event {
    if e.Sweep? then Claims.Clean(e.at) else ClaimOf(cfg, e.u)
  }

  ghost function ClaimsOf(cfg: Config, run: Run): (trace: Claims.Trace)
    ensures |trace| == |run| && forall i | 0 <= i < |run| :: trace[i] == ClaimEvent(cfg, run[i])
  {
    seq(|run|, i requires 0 <= i < |run| => ClaimEvent(cfg, run[i]))
  }

  /** Events come in time order, and every upload reaches the store at most the lag after its intent was checked. */
  ghost predicate Timely(run: Run, lag: nat) {
    && (forall i, j | 0 <= i <= j < |run| :: TimeOf(run[i]) <= TimeOf(run[j]))
    && (forall e <- run | e.Handle? :: e.u.checkedAt <= e.u.now <= e.u.checkedAt + lag)
  }

  lemma TimelyIsOrdered(cfg: Config, run: Run, lag: nat)
    requires Timely(run, lag)
    ensures Claims.Ordered(ClaimsOf(cfg, run))
  {
    forall i, j | 0 <= i <= j < |run| ensures ClaimsOf(cfg, run)[i].now <= ClaimsOf(cfg, run)[j].now {
      assert TimeOf(run[i]) <= TimeOf(run[j]);
    }
  }

  ghost predicate ConsumedAt(cfg: Config, run: Run, i: nat)
    requires i < |run|
  {
    run[i].Handle? && Claims.GrantedAt(ClaimsOf(cfg, run), i)
  }

  /** As HandleUploadManifest decides it. */
  ghost predicate PinnedAt(cfg: Config, run: Run, i: nat)
    requires i < |run|
  {
    && ConsumedAt(cfg, run, i) && Authorized(cfg, run[i].u)
    && Acceptable(cfg, run[i].u.request.value.manifest, run[i].u.request.value.intent) && run[i].u.cid.Some?
  }

  lemma ConsumedIsAuthorized(cfg: Config, run: Run, i: nat)
    requires i < |run| && ConsumedAt(cfg, run, i)
    ensures Authorized(cfg, run[i].u)
  {
  }

  /** The first upload a broker sees is pinned exactly when it is a POST within the cap, signed by the creator it names and in
      time, with a manifest that decodes and passes the validator, and the pinning service takes it. */
  lemma FirstUploadIsPinnedExactlyWhen(cfg: Config, u: Upload, intent: UploadIntent, signature: string, raw: seq<Byte>)
    requires u.request == Some(Request(intent, signature, raw))
    ensures
      var signer, maxBytes := cfg.recover(intent, TrimSpace(signature)), cfg.maxManifestMB * 1024 * 1024;
      PinnedAt(cfg, [Handle(u)], 0) <==>
        && u.post && u.bodySize <= maxBytes + 1024 * 1024
        && TrimSpace(signature) != "" && intent.creator != "" && u.checkedAt < (intent.deadline + 1) * SECOND
        && signer.Some? && ToLower(signer.value) == ToLower(intent.creator) && TrimSpace(signer.value) != ""
        && raw != [] && cfg.decode(raw).Some? && BrokerAccepts(raw, cfg.decode(raw).value, intent, maxBytes, cfg.sha)
        && u.cid.Some?
  {
    UnixBounds(u.checkedAt);
    NonceHasNoSpace(intent);
    var trace := ClaimsOf(cfg, [Handle(u)]);
    assert trace[..0] == [] && trace[0] == ClaimOf(cfg, u);
    assert ConsumedAt(cfg, [Handle(u)], 0) <==> ClaimOf(cfg, u).eligible;
  }

  // ----- one intent, one key -----

  lemma LowerKeepsSpaces(c: char)
    ensures IsSpace(LowerChar(c)) == IsSpace(c)
  {
  }

  lemma {:induction false} TrimLeftOfLower(s: string)
    ensures TrimLeft(ToLower(s)) == ToLower(TrimLeft(s))
  {
    if s != "" {
      LowerKeepsSpaces(s[0]);
      assert ToLower(s)[1..] == ToLower(s[1..]);
      TrimLeftOfLower(s[1..]);
    }
  }

  lemma {:induction false} TrimRightOfLower(s: string)
    ensures TrimRight(ToLower(s)) == ToLower(TrimRight(s))
  {
    if s != "" {
      LowerKeepsSpaces(s[|s| - 1]);
      assert ToLower(s)[..|s| - 1] == ToLower(s[..|s| - 1]);
      TrimRightOfLower(s[..|s| - 1]);
    }
  }

  lemma CleanOfEqualFold(a: string, b: string)
    requires ToLower(a) == ToLower(b)
    ensures Clean(a) == Clean(b)
  {
    TrimLeftOfLower(a);
    TrimLeftOfLower(b);
    TrimRightOfLower(TrimLeft(a));
    TrimRightOfLower(TrimLeft(b));
  }

  /** Both uploads carry an intent, of one creator and with one nonce. */
  predicate SameNonce(u: Upload, v: Upload) {
    && u.request.Some? && v.request.Some?
    && ToLower(u.request.value.intent.creator) == ToLower(v.request.value.intent.creator)
    && Nonce(u.request.value.intent) == Nonce(v.request.value.intent)
  }

  lemma SameNonceSameKey(cfg: Config, u: Upload, v: Upload)
    requires Authorized(cfg, u) && Authorized(cfg, v) && SameNonce(u, v)
    ensures ClaimOf(cfg, u).key == ClaimOf(cfg, v).key
  {
    CleanOfEqualFold(Signer(cfg, u), Signer(cfg, v));
  }

  // ----- at most once -----

  /** Two consumptions of one creator's nonce are a lifetime apart, and the second was checked before its deadline passed. */
  lemma ConsumedTwiceIsFarApart(cfg: Config, run: Run, lag: nat, i: nat, j: nat)
    requires Timely(run, lag) && i < j < |run| && ConsumedAt(cfg, run, i) && ConsumedAt(cfg, run, j)
    requires SameNonce(run[i].u, run[j].u)
    ensures run[i].u.now + cfg.nonceTTL <= run[j].u.now
    ensures run[j].u.now < (run[j].u.request.value.intent.deadline + 1) * SECOND + lag
  {
    ConsumedIsAuthorized(cfg, run, i);
    ConsumedIsAuthorized(cfg, run, j);
    SameNonceSameKey(cfg, run[i].u, run[j].u);
    TimelyIsOrdered(cfg, run, lag);
    Claims.GrantsAreSpaced(ClaimsOf(cfg, run), i, j);
    UnixBounds(run[j].u.checkedAt);
    assert run[j] in run;
  }

  /** Two uploads of the run. */
  predicate Uploads(run: Run, i: nat, j: nat) {
    i < j < |run| && run[i].Handle? && run[j].Handle?
  }

  /** Of all intents of one creator with one nonce, whatever else they say, none is pinned after another one was, if its
      deadline, plus the lag, falls before the nonce entry of that one expires. */
  lemma NonceIsPinnedAtMostOnce(cfg: Config, run: Run, lag: nat, i: nat, j: nat)
    requires Timely(run, lag) && Uploads(run, i, j) && SameNonce(run[i].u, run[j].u)
    requires (run[j].u.request.value.intent.deadline + 1) * SECOND + lag <= run[i].u.now + cfg.nonceTTL
    ensures !(PinnedAt(cfg, run, i) && PinnedAt(cfg, run, j))
  {
    if PinnedAt(cfg, run, i) && PinnedAt(cfg, run, j) {
      ConsumedTwiceIsFarApart(cfg, run, lag, i, j);
    }
  }

  /** Two uploads of the run that carry one intent. */
  predicate SameIntent(run: Run, i: nat, j: nat) {
    && Uploads(run, i, j) && run[i].u.request.Some? && run[j].u.request.Some?
    && run[i].u.request.value.intent == run[j].u.request.value.intent
  }

  /** So an intent whose deadline, plus the lag, falls before its nonce entry expires is pinned at most once. */
  lemma IntentIsPinnedAtMostOnce(cfg: Config, run: Run, lag: nat, i: nat, j: nat)
    requires Timely(run, lag) && SameIntent(run, i, j)
    requires (run[i].u.request.value.intent.deadline + 1) * SECOND + lag <= run[i].u.now + cfg.nonceTTL
    ensures !(PinnedAt(cfg, run, i) && PinnedAt(cfg, run, j))
  {
    NonceIsPinnedAtMostOnce(cfg, run, lag, i, j);
  }

  /** With the defaults, a deadline one hour after signing and a lifetime of 24 hours, no lag under 22 hours matters. */
  lemma DefaultIntentIsPinnedOnce(cfg: Config, run: Run, lag: nat, i: nat, j: nat, signedAt: nat)
    requires Timely(run, lag) && SameIntent(run, i, j)
    requires cfg.nonceTTL == 24 * HOUR && lag <= 22 * HOUR
    requires run[i].u.request.value.intent.deadline == Unix(signedAt) + 3600 && signedAt <= run[i].u.now
    ensures !(PinnedAt(cfg, run, i) && PinnedAt(cfg, run, j))
  {
    UnixBounds(signedAt);
    IntentIsPinnedAtMostOnce(cfg, run, lag, i, j);
  }

  /** On every run, what is pinned under one signed manifest hash is one manifest, byte for byte. */
  lemma OneManifestIsPinnedForOneHash(cfg: Config, run: Run, i: nat, j: nat)
    requires CollisionFree(cfg.sha) && i < |run| && j < |run| && PinnedAt(cfg, run, i) && PinnedAt(cfg, run, j)
    requires run[i].u.request.value.intent.manifestHash == run[j].u.request.value.intent.manifestHash
    ensures run[i].u.request.value.manifest == run[j].u.request.value.manifest
  {
    var a, b, cap := run[i].u.request.value, run[j].u.request.value, cfg.maxManifestMB * 1024 * 1024;
    OneManifestForOneHash(
      a.manifest, cfg.decode(a.manifest).value, a.intent, cap, b.manifest, cfg.decode(b.manifest).value, b.intent, cap, cfg.sha);
  }

  // ----- one signed digest -----

  const WORD_SIZE := 0x1_0000_0000_0000_0000_0000_0000_0000_0000_0000_0000_0000_0000_0000_0000_0000_0000

  function NonceValue(intent: UploadIntent): int {
    if intent.nonce.Some? then intent.nonce.value else 0
  }

  /** The 32 bytes of a nonce that are signed: its magnitude, cut to 256 bits. */
  function WordOf(n: int): nat {
    (if n < 0 then -n else n) % WORD_SIZE
  }

  /** A nonce that is a 256-bit word, as the signed type declares it. */
  predicate ProperNonce(n: int) {
    0 <= n < WORD_SIZE
  }

  lemma NonceIsItsValue(a: UploadIntent, b: UploadIntent)
    ensures Nonce(a) == Nonce(b) <==> NonceValue(a) == NonceValue(b)
  {
    assert Decimal(0) == "0";
    var x, y := NonceValue(a), NonceValue(b);
    var p, q := Decimal(if x < 0 then -x else x), Decimal(if y < 0 then -y else y);
    assert p[0] in p && q[0] in q;
    assert Nonce(a) == (if x < 0 then "-" + p else p) && Nonce(b) == (if y < 0 then "-" + q else q);
    if Nonce(a) == Nonce(b) {
      assert x < 0 <==> y < 0;
      assert p == (if x < 0 then Nonce(a)[1..] else Nonce(a)) && q == (if y < 0 then Nonce(b)[1..] else Nonce(b));
      DecimalInjective(if x < 0 then -x else x, if y < 0 then -y else y);
    }
  }

  lemma ProperWord(n: int)
    requires ProperNonce(n)
    ensures WordOf(n) == n
  {
  }

  /** For such nonces the signed word and the text in the nonce key determine each other. */
  lemma ProperNonceIsItsWord(a: UploadIntent, b: UploadIntent)
    requires ProperNonce(NonceValue(a)) && ProperNonce(NonceValue(b))
    ensures WordOf(NonceValue(a)) == WordOf(NonceValue(b)) <==> Nonce(a) == Nonce(b)
  {
    ProperWord(NonceValue(a));
    ProperWord(NonceValue(b));
    NonceIsItsValue(a, b);
  }

  /** What the digest is made from. */
  datatype SignedFields = SignedFields(
    creator: string, modelId: string, totalSize: Uint64, chunkCount: Uint32, manifestHash: string, nonceWord: nat, deadline: int)

  function SignedOf(intent: UploadIntent): SignedFields {
    SignedFields(intent.creator, intent.modelId, intent.totalSize, intent.chunkCount, intent.manifestHash,
      WordOf(NonceValue(intent)), intent.deadline)
  }

  /** The signer of a signature depends on what the digest is made from and on nothing else of the intent. */
  ghost predicate RecoversFromSigned(recover: Recover) {
    forall a, b, signature | SignedOf(a) == SignedOf(b) :: recover(a, signature) == recover(b, signature)
  }

  /** What the digest covers is the same, and so every signature recovers to the same signer. */
  ghost predicate SameDigest(cfg: Config, a: UploadIntent, b: UploadIntent) {
    && WordOf(NonceValue(a)) == WordOf(NonceValue(b)) && a.deadline == b.deadline
    && forall signature :: cfg.recover(a, signature) == cfg.recover(b, signature)
  }

  /** Both uploads carry an intent, and one signature over one digest. */
  ghost predicate SameSignature(cfg: Config, u: Upload, v: Upload) {
    && u.request.Some? && v.request.Some?
    && TrimSpace(u.request.value.signature) == TrimSpace(v.request.value.signature)
    && SameDigest(cfg, u.request.value.intent, v.request.value.intent)
  }

  function NonceOf(u: Upload): int {
    if u.request.Some? then NonceValue(u.request.value.intent) else 0
  }

  /** Two uploads that are authorized by one signature over one digest are pinned once, however else they are written, when
      their nonces are proper and the deadline falls before the nonce entry expires. */
  lemma SignatureIsPinnedAtMostOnce(cfg: Config, run: Run, lag: nat, i: nat, j: nat)
    requires Timely(run, lag) && Uploads(run, i, j) && SameSignature(cfg, run[i].u, run[j].u)
    requires ProperNonce(NonceOf(run[i].u)) && ProperNonce(NonceOf(run[j].u))
    requires (run[j].u.request.value.intent.deadline + 1) * SECOND + lag <= run[i].u.now + cfg.nonceTTL
    ensures !(PinnedAt(cfg, run, i) && PinnedAt(cfg, run, j))
  {
    if PinnedAt(cfg, run, i) && PinnedAt(cfg, run, j) {
      ProperNonceIsItsWord(run[i].u.request.value.intent, run[j].u.request.value.intent);
      assert SameNonce(run[i].u, run[j].u);
      NonceIsPinnedAtMostOnce(cfg, run, lag, i, j);
    }
  }

  // ----- and exactly then -----

  ghost predicate PinnedTwice(cfg: Config, u: Upload, run: Run, i: nat, j: nat)
    requires i < j < |run|
  {
    && run[i] == Handle(u) && PinnedAt(cfg, run, i) && PinnedAt(cfg, run, j)
    && run[j].u.request.value.intent == u.request.value.intent
  }

  ghost predicate PinnedAgain(cfg: Config, u: Upload, lag: nat, run: Run) {
    Timely(run, lag) && exists i: nat, j: nat | i < j < |run| :: PinnedTwice(cfg, u, run, i, j)
  }

  /** The latest check that still finds the intent in time, with the nonce consumed once its first entry has expired. */
  ghost function LastRepeat(cfg: Config, u: Upload): Upload
    requires Authorized(cfg, u) && 0 <= cfg.nonceTTL
  {
    UnixBounds(u.checkedAt);
    var last := (u.request.value.intent.deadline + 1) * SECOND - 1;
    u.(checkedAt := last, now := if last < u.now + cfg.nonceTTL then u.now + cfg.nonceTTL else last)
  }

  lemma RepeatIsAuthorized(cfg: Config, u: Upload)
    requires Authorized(cfg, u) && 0 <= cfg.nonceTTL
    ensures Authorized(cfg, LastRepeat(cfg, u)) && u.checkedAt <= LastRepeat(cfg, u).checkedAt
    ensures ClaimOf(cfg, LastRepeat(cfg, u)) == ClaimOf(cfg, u).(now := LastRepeat(cfg, u).now)
  {
    UnixBounds(u.checkedAt);
    var later, deadline := LastRepeat(cfg, u), u.request.value.intent.deadline;
    UnixBounds(later.checkedAt);
    assert later.checkedAt < (deadline + 1) * SECOND;
    assert Unix(later.checkedAt) <= deadline;
  }

  lemma RepeatIsPinned(cfg: Config, u: Upload, lag: nat)
    requires 0 <= cfg.nonceTTL && PinnedAt(cfg, [Handle(u)], 0) && u.checkedAt <= u.now <= u.checkedAt + lag
    requires u.now + cfg.nonceTTL < (u.request.value.intent.deadline + 1) * SECOND + lag
    ensures PinnedAgain(cfg, u, lag, [Handle(u), Handle(LastRepeat(cfg, u))])
  {
    RepeatIsAuthorized(cfg, u);
    var first, second := Handle(u), Handle(LastRepeat(cfg, u));
    var run := [first, second];
    var trace := ClaimsOf(cfg, run);
    assert ClaimsOf(cfg, [first])[..0] == [] && trace[..0] == [];
    assert trace[..1] == [ClaimOf(cfg, u)] && trace[..1][..0] == [];
    assert PinnedAt(cfg, run, 0);
    assert PinnedTwice(cfg, u, run, 0, 1);
  }

  /** An intent that was pinned can be pinned again, on some run, exactly when the deadline plus the lag comes after the
      moment its nonce entry expires. */
  lemma IntentCanBePinnedAgainExactlyWhen(cfg: Config, u: Upload, lag: nat)
    requires 0 <= cfg.nonceTTL && PinnedAt(cfg, [Handle(u)], 0) && u.checkedAt <= u.now <= u.checkedAt + lag
    ensures (exists run: Run :: PinnedAgain(cfg, u, lag, run))
      <==> u.now + cfg.nonceTTL < (u.request.value.intent.deadline + 1) * SECOND + lag
  {
    if run: Run :| PinnedAgain(cfg, u, lag, run) {
      var i: nat, j: nat :| i < j < |run| && PinnedTwice(cfg, u, run, i, j);
      ConsumedTwiceIsFarApart(cfg, run, lag, i, j);
    }
    if u.now + cfg.nonceTTL < (u.request.value.intent.deadline + 1) * SECOND + lag {
      RepeatIsPinned(cfg, u, lag);
    }
  }

  // ----- which nonces keep a signature to one manifest -----

  ghost predicate SignedTwice(cfg: Config, u: Upload, run: Run, i: nat, j: nat)
    requires i < j < |run|
  {
    && run[i] == Handle(u) && PinnedAt(cfg, run, i) && PinnedAt(cfg, run, j)
    && SameSignature(cfg, u, run[j].u)
  }

  /** A broker that admits these nonces only pins two uploads of one signature. */
  ghost predicate SignaturePinnedAgain(cfg: Config, u: Upload, lag: nat, admits: int -> bool, run: Run) {
    && Timely(run, lag) && (forall e <- run | e.Handle? :: admits(NonceOf(e.u)))
    && exists i: nat, j: nat | i < j < |run| :: SignedTwice(cfg, u, run, i, j)
  }

  /** Another admitted nonce is signed as the same word. */
  ghost predicate WordIsShared(admits: int -> bool, n: int) {
    exists m: int :: admits(m) && m != n && WordOf(m) == WordOf(n)
  }

  function WithNonce(u: Upload, n: int): Upload
    requires u.request.Some?
  {
    u.(request := Some(u.request.value.(intent := u.request.value.intent.(nonce := Some(n)))))
  }

  lemma TailOfJoined(head: string, tail: string)
    ensures Joined(head, tail)[|head| + 1..] == tail
  {
  }

  lemma OtherNonceIsAuthorized(cfg: Config, u: Upload, n: int)
    requires RecoversFromSigned(cfg.recover) && Authorized(cfg, u)
    requires n != NonceOf(u) && WordOf(n) == WordOf(NonceOf(u))
    ensures
      var v := WithNonce(u, n);
      && Authorized(cfg, v) && SameSignature(cfg, u, v) && ClaimOf(cfg, v).key != ClaimOf(cfg, u).key
      && (ClaimOf(cfg, u).eligible ==> ClaimOf(cfg, v).eligible)
  {
    var v := WithNonce(u, n);
    var a, b := u.request.value.intent, v.request.value.intent;
    assert SignedOf(a) == SignedOf(b);
    assert forall signature :: cfg.recover(a, signature) == cfg.recover(b, signature);
    NonceIsItsValue(a, b);
    NonceHasNoSpace(a);
    NonceHasNoSpace(b);
    var head := Clean(Signer(cfg, u));
    TailOfJoined(head, Nonce(a));
    TailOfJoined(head, Nonce(b));
  }

  lemma BothArePinned(cfg: Config, u: Upload, v: Upload)
    requires PinnedAt(cfg, [Handle(u)], 0) && Authorized(cfg, v) && ClaimOf(cfg, v).eligible
    requires ClaimOf(cfg, v).key != ClaimOf(cfg, u).key
    requires Acceptable(cfg, v.request.value.manifest, v.request.value.intent) && v.cid.Some?
    ensures PinnedAt(cfg, [Handle(u), Handle(v)], 0) && PinnedAt(cfg, [Handle(u), Handle(v)], 1)
  {
    assert ConsumedAt(cfg, [Handle(u)], 0);
    Claims.DifferentKeysAreGranted(ClaimOf(cfg, u), ClaimOf(cfg, v));
    assert ClaimsOf(cfg, [Handle(u), Handle(v)]) == [ClaimOf(cfg, u), ClaimOf(cfg, v)];
  }

  lemma OtherNonceIsPinned(cfg: Config, u: Upload, lag: nat, admits: int -> bool, n: int)
    requires RecoversFromSigned(cfg.recover) && PinnedAt(cfg, [Handle(u)], 0) && u.checkedAt <= u.now <= u.checkedAt + lag
    requires admits(NonceOf(u)) && admits(n) && n != NonceOf(u) && WordOf(n) == WordOf(NonceOf(u))
    ensures SignaturePinnedAgain(cfg, u, lag, admits, [Handle(u), Handle(WithNonce(u, n))])
  {
    OtherNonceIsAuthorized(cfg, u, n);
    assert ConsumedAt(cfg, [Handle(u)], 0);
    BothArePinned(cfg, u, WithNonce(u, n));
    assert SignedTwice(cfg, u, [Handle(u), Handle(WithNonce(u, n))], 0, 1);
  }

  /** The signature of a pinned upload can be pinned again, on some run whose nonces are all admitted, exactly when the
      deadline plus the lag comes after the moment its nonce entry expires, or another admitted nonce has its word. */
  lemma SignatureCanBePinnedAgainExactlyWhen(cfg: Config, u: Upload, lag: nat, admits: int -> bool)
    requires RecoversFromSigned(cfg.recover) && admits(NonceOf(u))
    requires 0 <= cfg.nonceTTL && PinnedAt(cfg, [Handle(u)], 0) && u.checkedAt <= u.now <= u.checkedAt + lag
    ensures (exists run: Run :: SignaturePinnedAgain(cfg, u, lag, admits, run))
      <==> u.now + cfg.nonceTTL < (u.request.value.intent.deadline + 1) * SECOND + lag || WordIsShared(admits, NonceOf(u))
  {
    if run: Run :| SignaturePinnedAgain(cfg, u, lag, admits, run) {
      PinnedAgainForAReason(cfg, u, lag, admits, run);
    }
    if u.now + cfg.nonceTTL < (u.request.value.intent.deadline + 1) * SECOND + lag {
      RepeatKeepsSignature(cfg, u, lag, admits);
    } else if WordIsShared(admits, NonceOf(u)) {
      var n: int :| admits(n) && n != NonceOf(u) && WordOf(n) == WordOf(NonceOf(u));
      OtherNonceIsPinned(cfg, u, lag, admits, n);
    }
  }

  lemma PinnedAgainForAReason(cfg: Config, u: Upload, lag: nat, admits: int -> bool, run: Run)
    requires u.request.Some? && SignaturePinnedAgain(cfg, u, lag, admits, run)
    ensures u.now + cfg.nonceTTL < (u.request.value.intent.deadline + 1) * SECOND + lag || WordIsShared(admits, NonceOf(u))
  {
    var i: nat, j: nat :| i < j < |run| && SignedTwice(cfg, u, run, i, j);
    var v := run[j].u;
    assert run[j] in run;
    NonceIsItsValue(u.request.value.intent, v.request.value.intent);
    if NonceOf(u) != NonceOf(v) {
      assert admits(NonceOf(v));
    } else {
      ConsumedIsAuthorized(cfg, run, i);
      ConsumedIsAuthorized(cfg, run, j);
      assert SameNonce(u, v);
      ConsumedTwiceIsFarApart(cfg, run, lag, i, j);
    }
  }

  lemma RepeatKeepsSignature(cfg: Config, u: Upload, lag: nat, admits: int -> bool)
    requires 0 <= cfg.nonceTTL && PinnedAt(cfg, [Handle(u)], 0) && u.checkedAt <= u.now <= u.checkedAt + lag && admits(NonceOf(u))
    requires u.now + cfg.nonceTTL < (u.request.value.intent.deadline + 1) * SECOND + lag
    ensures SignaturePinnedAgain(cfg, u, lag, admits, [Handle(u), Handle(LastRepeat(cfg, u))])
  {
    RepeatIsPinned(cfg, u, lag);
    var run := [Handle(u), Handle(LastRepeat(cfg, u))];
    var i: nat, j: nat :| i < j < |run| && PinnedTwice(cfg, u, run, i, j);
    assert i == 0 && j == 1;
    assert SignedTwice(cfg, u, run, 0, 1);
  }

  lemma ProperWordIsNotShared(n: int)
    requires ProperNonce(n)
    ensures !WordIsShared(ProperNonce, n)
  {
    forall m: int | ProperNonce(m) ensures WordOf(m) == m {
      ProperWord(m);
    }
  }

  /** With 256-bit nonces that is a question of the deadline alone, as it is for the intent itself. */
  lemma ProperNoncesPinSignatureOnceExactlyWhen(cfg: Config, u: Upload, lag: nat)
    requires RecoversFromSigned(cfg.recover) && ProperNonce(NonceOf(u))
    requires 0 <= cfg.nonceTTL && PinnedAt(cfg, [Handle(u)], 0) && u.checkedAt <= u.now <= u.checkedAt + lag
    ensures (exists run: Run :: SignaturePinnedAgain(cfg, u, lag, ProperNonce, run))
      <==> u.now + cfg.nonceTTL < (u.request.value.intent.deadline + 1) * SECOND + lag
  {
    ProperWordIsNotShared(NonceOf(u));
    SignatureCanBePinnedAgainExactlyWhen(cfg, u, lag, ProperNonce);
  }

  lemma NextOfWord(n: int)
    ensures WordOf(n) == WordOf(if n < 0 then n - WORD_SIZE else n + WORD_SIZE)
  {
  }

  predicate AnyNonce(n: int) {
    true
  }

  /** As the code admits every nonce, the range is what is missing: no deadline and no lifetime keeps a signature to one
      manifest without it. */
  lemma SignatureNeedsNonceRange(cfg: Config, u: Upload, lag: nat)
    requires RecoversFromSigned(cfg.recover)
    requires 0 <= cfg.nonceTTL && PinnedAt(cfg, [Handle(u)], 0) && u.checkedAt <= u.now <= u.checkedAt + lag
    ensures exists run: Run :: SignaturePinnedAgain(cfg, u, lag, AnyNonce, run)
  {
    var n := NonceOf(u);
    NextOfWord(n);
    var m := if n < 0 then n - WORD_SIZE else n + WORD_SIZE;
    assert AnyNonce(m) && WordIsShared(AnyNonce, n);
    SignatureCanBePinnedAgainExactlyWhen(cfg, u, lag, AnyNonce);
  }

  // ----- the nonce store over a run -----

  ghost predicate AddressesHaveNoColon(cfg: Config) {
    forall intent, s :: cfg.recover(intent, s).Some? ==> ':' !in Clean(cfg.recover(intent, s).value)
  }

  /** Upload i consumed the nonce of this signer and still holds it. */
  ghost predicate UsedAt(cfg: Config, run: Run, i: nat, signer: string, nonce: string, now: nat)
    requires i < |run|
  {
    && ConsumedAt(cfg, run, i) && Authorized(cfg, run[i].u)
    && Clean(Signer(cfg, run[i].u)) == Clean(signer) && Nonce(run[i].u.request.value.intent) == nonce
    && now < run[i].u.now + cfg.nonceTTL
  }

  lemma {:induction false} NonceHasNoSpace(intent: UploadIntent)
    ensures TrimSpace(Nonce(intent)) == Nonce(intent) != ""
  {
    var s := Nonce(intent);
    assert !IsSpace(s[0]) && !IsSpace(s[|s| - 1]) by {
      if intent.nonce.Some? {
        var d := if intent.nonce.value < 0 then Decimal(-intent.nonce.value) else Decimal(intent.nonce.value);
        assert s[|s| - 1] == d[|d| - 1];
        assert d[0] in d && d[|d| - 1] in d;
      }
    }
  }

  lemma UsedExactlyWhenHeld(cfg: Config, run: Run, i: nat, j: nat)
    requires AddressesHaveNoColon(cfg) && i < j < |run| && run[j].Handle? && Authorized(cfg, run[j].u)
    ensures Claims.HoldsAt(ClaimsOf(cfg, run)[..j], i, ClaimOf(cfg, run[j].u).key, run[j].u.now)
      <==> UsedAt(cfg, run, i, Signer(cfg, run[j].u), Nonce(run[j].u.request.value.intent), run[j].u.now)
  {
    var trace := ClaimsOf(cfg, run);
    assert trace[..j][..i] == trace[..i];
    if ConsumedAt(cfg, run, i) {
      ConsumedIsAuthorized(cfg, run, i);
      var u, v := run[i].u, run[j].u;
      NonceHasNoSpace(u.request.value.intent);
      NonceHasNoSpace(v.request.value.intent);
      NonceKeysAreDistinct(Signer(cfg, u), Nonce(u.request.value.intent), Signer(cfg, v), Nonce(v.request.value.intent));
    }
  }

  /** An authorized upload gets past the nonce gate exactly when no earlier upload of its signer used the nonce within the
      lifetime, whatever was cleaned between and whatever other signers and nonces did. */
  lemma ConsumedExactlyWhenUnused(cfg: Config, run: Run, lag: nat, j: nat)
    requires Timely(run, lag) && AddressesHaveNoColon(cfg) && j < |run|
    requires run[j].Handle? && Authorized(cfg, run[j].u) && Clean(Signer(cfg, run[j].u)) != ""
    ensures ConsumedAt(cfg, run, j)
      <==> !exists i: nat | i < j :: UsedAt(cfg, run, i, Signer(cfg, run[j].u), Nonce(run[j].u.request.value.intent), run[j].u.now)
  {
    var trace, v := ClaimsOf(cfg, run), run[j].u;
    var key, before := ClaimOf(cfg, v).key, trace[..j];
    NonceHasNoSpace(v.request.value.intent);
    TimelyIsOrdered(cfg, run, lag);
    assert before != [] ==> before[j - 1] == trace[j - 1];
    Claims.TakenExactlyWhileHeld(before, key, v.now);
    forall i: nat | i < j
      ensures Claims.HoldsAt(before, i, key, v.now)
        <==> UsedAt(cfg, run, i, Signer(cfg, v), Nonce(v.request.value.intent), v.now)
    {
      UsedExactlyWhenHeld(cfg, run, i, j);
    }
    if Claims.Held(before, key, v.now) {
      var i: nat :| i < j && Claims.HoldsAt(before, i, key, v.now);
      assert UsedAt(cfg, run, i, Signer(cfg, v), Nonce(v.request.value.intent), v.now);
    }
    if i: nat :| i < j && UsedAt(cfg, run, i, Signer(cfg, v), Nonce(v.request.value.intent), v.now) {
      assert Claims.HoldsAt(before, i, key, v.now);
    }
  }
}
