/** The upload broker: a manifest is pinned for a signed intent whose nonce nobody has used. Signature recovery, JSON
    decoding and SHA-256 are parameters. */
module Broker {
  import opened Wrappers
  import opened Text
  import opened Clock
  import opened Chunker
  import opened Manifest
  import Claims

  // ----- the nonce store -----

  datatype NonceError = EmptyCreatorOrNonce | Reused

  function NonceKey(creator: string, nonce: string): string {
    Joined(Clean(creator), TrimSpace(nonce))
  }

  predicate Consumable(creator: string, nonce: string) {
    Clean(creator) != "" && TrimSpace(nonce) != ""
  }

  ghost function NonceClaim(creator: string, nonce: string, ttl: int, now: nat): Claims.Event {
    Claims.Claim(NonceKey(creator, nonce), ttl, now, Consumable(creator, nonce))
  }

  class MemoryNonceStore {
    var entries: Claims.Entries

    constructor ()
      ensures entries == map[]
    {
      entries := map[];
    }

    method ConsumeNonce(creator: string, nonce: string, ttl: int, now: nat) returns (r: Result<(), NonceError>)
      modifies this
      ensures var e := NonceClaim(creator, nonce, ttl, now);
        && r.Success? == Claims.Granted(old(entries), e) && entries == Claims.After(old(entries), e)
        && (r == Failure(EmptyCreatorOrNonce) <==> Clean(creator) == "" || TrimSpace(nonce) == "")
    {
      var cleanCreator, cleanNonce := Clean(creator), TrimSpace(nonce);
      if cleanCreator == "" || cleanNonce == "" {
        return Failure(EmptyCreatorOrNonce);
      }
      var key := Joined(cleanCreator, cleanNonce);
      if key in entries && now < entries[key] {
        return Failure(Reused);
      }
      entries := entries[key := now + ttl];
      return Success(());
    }

    /** One tick of the background cleaner: exactly the entries past their expiry go. */
    method CleanExpired(now: nat)
      modifies this
      ensures entries == Claims.After(old(entries), Claims.Clean(now))
    {
      var keys := entries.Keys;
      while keys != {}
        invariant keys <= old(entries).Keys
        invariant entries == map k | k in old(entries) && (k in keys || now <= old(entries)[k]) :: old(entries)[k]
        decreases |keys|
      {
        var key :| key in keys;
        keys := keys - {key};
        if now > entries[key] {
          entries := entries - {key};
        }
      }
    }
  }

  /** Two nonces share a key exactly when creator and nonce are the same up to case and space, for creators that
      have no ':' in them, as addresses do not. */
  lemma NonceKeysAreDistinct(a: string, x: string, b: string, y: string)
    requires ':' !in Clean(a) && ':' !in Clean(b)
    ensures NonceKey(a, x) == NonceKey(b, y) <==> Clean(a) == Clean(b) && TrimSpace(x) == TrimSpace(y)
  {
    if NonceKey(a, x) == NonceKey(b, y) {
      JoinedInjective(Clean(a), TrimSpace(x), Clean(b), TrimSpace(y));
    }
  }

  lemma ColonInCreatorMixesKeys()
    ensures NonceKey("a:b", "c") == NonceKey("a", "b:c") && Clean("a:b") != Clean("a")
  {
    assert Clean("a:b") == "a:b" && TrimSpace("b:c") == "b:c" && Clean("a") == "a" && TrimSpace("c") == "c";
  }

  // ----- a request to the broker -----

  type Recover = (UploadIntent, string) -> Option<string>

  type Decode = seq<Byte> -> Option<ChunkManifest>

  datatype Request = Request(intent: UploadIntent, signature: string, manifest: seq<Byte>)

  /** A call of the upload endpoint: the request unless its JSON is malformed, when the intent is checked, when the nonce
      is consumed, and the content id if pinning works. */
  datatype Upload = Upload(post: bool, bodySize: nat, request: Option<Request>, checkedAt: nat, now: nat, cid: Option<string>)

  datatype Config = Config(nonceTTL: int, maxManifestMB: int, recover: Recover, decode: Decode, sha: Digest)

  datatype IntentError = NoCreator | Expired | BadSignature | WrongSigner(signer: string, creator: string)

  predicate Contains(s: string, part: string) {
    part <= s || (s != "" && Contains(s[1..], part))
  }

  lemma {:induction false} ContainsExactly(s: string, part: string)
    ensures Contains(s, part) <==> exists i: nat :: StandsAt(s, part, i)
  {
    if part <= s {
      assert StandsAt(s, part, 0);
    }
    if s != "" {
      ContainsExactly(s[1..], part);
      if i: nat :| StandsAt(s[1..], part, i) {
        assert s[1..][i..i + |part|] == s[i + 1..i + 1 + |part|];
        assert StandsAt(s, part, i + 1);
      }
      if i: nat :| StandsAt(s, part, i) && i > 0 {
        assert s[1..][i - 1..i - 1 + |part|] == s[i..i + |part|];
        assert StandsAt(s[1..], part, i - 1);
      }
    }
    if StandsAt(s, part, 0) {
      assert part == s[..|part|];
    }
  }

  predicate StandsAt(s: string, part: string, i: nat) {
    i + |part| <= |s| && s[i..i + |part|] == part
  }

  /** The server tells an expired intent by the word in the error text, which only one other text can contain. */
  predicate ReadsAsExpired(e: IntentError) {
    e == Expired || (e.WrongSigner? && Contains("signer " + e.signer + " does not match creator " + e.creator, "expired"))
  }

  /** A wrong signer reads as expired exactly when the message that names it and the creator has the word somewhere. */
  lemma WrongSignerReadsAsExpired(signer: string, creator: string)
    ensures ReadsAsExpired(WrongSigner(signer, creator))
      <==> exists i: nat :: StandsAt("signer " + signer + " does not match creator " + creator, "expired", i)
    ensures ReadsAsExpired(Expired) && !ReadsAsExpired(NoCreator) && !ReadsAsExpired(BadSignature)
  {
    ContainsExactly("signer " + signer + " does not match creator " + creator, "expired");
  }

  datatype Response =
    | MethodNotAllowed | UnreadableBody | InvalidRequest | MissingSignature | Unauthorized(error: IntentError) | IntentExpired
    | NonceConsumed | NonceFailed | MissingManifest | InvalidManifestJson | ManifestRejected(reason: ManifestError)
    | PinningFailed | Pinned(cid: string, modelId: string, totalSize: Uint64, chunkCount: Uint32)

  function Nonce(intent: UploadIntent): string {
    match intent.nonce
    case None => "0"
    case Some(n) => if n < 0 then "-" + Decimal(-n) else Decimal(n)
  }

  /** The intent is in time, and the signature recovers to the creator it declares. */
  predicate Verified(recover: Recover, intent: UploadIntent, signature: string, checkedAt: nat) {
    && intent.creator != "" && Unix(checkedAt) <= intent.deadline
    && var signer := recover(intent, signature);
    && signer.Some? && ToLower(signer.value) == ToLower(intent.creator)
  }

  method VerifyUploadIntent(recover: Recover, intent: UploadIntent, signature: string, checkedAt: nat)
    returns (r: Result<string, IntentError>)
    ensures r.Success? <==> Verified(recover, intent, signature, checkedAt)
    ensures r.Success? ==> Some(r.value) == recover(intent, signature)
    ensures r.Failure? && r.error.WrongSigner? ==> Some(r.error.signer) == recover(intent, signature) && r.error.creator == intent.creator
    ensures r == Failure(BadSignature) ==> recover(intent, signature).None?
    ensures r.Success? ==> ToLower(r.value) == ToLower(intent.creator) && checkedAt < (intent.deadline + 1) * SECOND
    ensures r.Failure? && r.error.WrongSigner? ==> ToLower(r.error.signer) != ToLower(intent.creator)
    ensures r == Failure(NoCreator) <==> intent.creator == ""
    ensures r == Failure(Expired) <==> intent.creator != "" && (intent.deadline + 1) * SECOND <= checkedAt
  {
    UnixBounds(checkedAt);
    if intent.creator == "" {
      return Failure(NoCreator);
    }
    if Unix(checkedAt) > intent.deadline {
      return Failure(Expired);
    }
    var signer := recover(intent, signature);
    if signer.None? {
      return Failure(BadSignature);
    }
    if ToLower(signer.value) != ToLower(intent.creator) {
      return Failure(WrongSigner(signer.value, intent.creator));
    }
    return Success(signer.value);
  }

  predicate Readable(cfg: Config, u: Upload) {
    u.post && u.bodySize <= (cfg.maxManifestMB + 1) * 1024 * 1024 && u.request.Some?
  }

  /** The request carries a signature that verifies for its intent. */
  predicate Authorized(cfg: Config, u: Upload) {
    && Readable(cfg, u)
    && var signature := TrimSpace(u.request.value.signature);
    && signature != "" && Verified(cfg.recover, u.request.value.intent, signature, u.checkedAt)
  }

  function Signer(cfg: Config, u: Upload): string {
    if Authorized(cfg, u) then cfg.recover(u.request.value.intent, TrimSpace(u.request.value.signature)).value else ""
  }

  /** What the upload asks of the nonce store. */
  ghost function ClaimOf(cfg: Config, u: Upload): Claims.Event {
    var nonce := if u.request.Some? then Nonce(u.request.value.intent) else "";
    NonceClaim(Signer(cfg, u), nonce, cfg.nonceTTL, u.now).(eligible := Authorized(cfg, u) && Consumable(Signer(cfg, u), nonce))
  }

  /** The manifest decodes and satisfies the validator against the intent. */
  predicate Acceptable(cfg: Config, raw: seq<Byte>, intent: UploadIntent) {
    && raw != [] && cfg.decode(raw).Some?
    && BrokerAccepts(raw, cfg.decode(raw).value, intent, cfg.maxManifestMB * 1024 * 1024, cfg.sha)
  }

  /** What reached the pinning service, with the intent and signature it came with. */
  datatype Pin = Pin(raw: seq<Byte>, intent: UploadIntent, signature: string)

  ghost predicate GoodPin(cfg: Config, pin: Pin) {
    && Acceptable(cfg, pin.raw, pin.intent)
    && var signer := cfg.recover(pin.intent, pin.signature);
    signer.Some? && ToLower(signer.value) == ToLower(pin.intent.creator)
  }

  /** Its bytes are those whose hash was signed, its signature is the creator's, and the model is the signed one. */
  lemma GoodPinIsSigned(cfg: Config, pin: Pin)
    requires GoodPin(cfg, pin)
    ensures Hex(cfg.sha(pin.raw)) == BareForm(pin.intent.manifestHash)
    ensures cfg.recover(pin.intent, pin.signature).Some?
    ensures ToLower(cfg.recover(pin.intent, pin.signature).value) == ToLower(pin.intent.creator)
    ensures cfg.decode(pin.raw).Some? && SumSizes(cfg.decode(pin.raw).value.chunks) == pin.intent.totalSize
  {
  }

  ghost predicate Decodes32BitSizes(cfg: Config) {
    forall raw :: cfg.decode(raw).Some? ==> NarrowSizes(cfg.decode(raw).value.chunks)
  }

  class Server {
    const cfg: Config
    const nonces: MemoryNonceStore
    var pins: seq<Pin>

    constructor (cfg: Config, nonces: MemoryNonceStore)
      ensures this.cfg == cfg && this.nonces == nonces && pins == [] && Valid()
    {
      this.cfg, this.nonces, this.pins := cfg, nonces, [];
    }

    /** Every manifest ever pinned satisfies the validator against the intent its creator signed. */
    ghost predicate Valid()
      reads this
    {
      forall p <- pins :: GoodPin(cfg, p)
    }

    /** An upload is pinned exactly when it is authorized, its nonce was free, its manifest is acceptable and the pinning
        service takes it. An authorized upload spends its nonce whatever becomes of the manifest. */
    method HandleUploadManifest(u: Upload) returns (r: Response)
      requires Decodes32BitSizes(cfg) && Valid()
      modifies this`pins, nonces
      ensures Valid()
      ensures nonces.entries == Claims.After(old(nonces.entries), ClaimOf(cfg, u))
      ensures
        var granted := Claims.Granted(old(nonces.entries), ClaimOf(cfg, u));
        && (r.Pinned? <==> granted && Acceptable(cfg, u.request.value.manifest, u.request.value.intent) && u.cid.Some?)
        && (r == NonceConsumed <==> ClaimOf(cfg, u).eligible && !granted)
      ensures
        if r.Pinned? then
          var intent := u.request.value.intent;
          && r == Pinned(u.cid.value, intent.modelId, intent.totalSize, intent.chunkCount)
          && pins == old(pins) + [Pin(u.request.value.manifest, intent, TrimSpace(u.request.value.signature))]
        else pins == old(pins)
      ensures
        var tooLong := u.bodySize > (cfg.maxManifestMB + 1) * 1024 * 1024;
        && (r == MethodNotAllowed <==> !u.post)
        && (r == UnreadableBody <==> u.post && tooLong)
        && (r == InvalidRequest <==> u.post && !tooLong && u.request.None?)
        && (r == MissingSignature <==> u.post && !tooLong && u.request.Some? && TrimSpace(u.request.value.signature) == "")
      ensures
        var granted := Claims.Granted(old(nonces.entries), ClaimOf(cfg, u));
        && (r == MissingManifest <==> granted && u.request.value.manifest == [])
        && (r == InvalidManifestJson <==> granted && u.request.value.manifest != [] && cfg.decode(u.request.value.manifest).None?)
        && (r == PinningFailed <==> granted && Acceptable(cfg, u.request.value.manifest, u.request.value.intent) && u.cid.None?)
      ensures Readable(cfg, u) && TrimSpace(u.request.value.signature) != "" && u.request.value.intent.creator != "" ==>
        var intent := u.request.value.intent;
        var late := (intent.deadline + 1) * SECOND <= u.checkedAt;
        var signer := cfg.recover(intent, TrimSpace(u.request.value.signature));
        r == IntentExpired <==> late || (!Authorized(cfg, u) && signer.Some? && ReadsAsExpired(WrongSigner(signer.value, intent.creator)))
    {
      if !u.post {
        return MethodNotAllowed;
      }
      var maxBytes := (cfg.maxManifestMB + 1) * 1024 * 1024;
      if u.bodySize > maxBytes {
        return UnreadableBody;
      }
      if u.request.None? {
        return InvalidRequest;
      }
      var req := u.request.value;
      var cleanSig := TrimSpace(req.signature);
      if cleanSig == "" {
        return MissingSignature;
      }
      var recovered := VerifyUploadIntent(cfg.recover, req.intent, cleanSig, u.checkedAt);
      if recovered.Failure? {
        return if ReadsAsExpired(recovered.error) then IntentExpired else Unauthorized(recovered.error);
      }
      var consumed := nonces.ConsumeNonce(recovered.value, Nonce(req.intent), cfg.nonceTTL, u.now);
      if consumed.Failure? {
        return if consumed.error == Reused then NonceConsumed else NonceFailed;
      }
      if |req.manifest| == 0 {
        return MissingManifest;
      }
      var manifest := cfg.decode(req.manifest);
      if manifest.None? {
        return InvalidManifestJson;
      }
      var valid := ValidateForBroker(req.manifest, manifest.value, req.intent, cfg.maxManifestMB * 1024 * 1024, cfg.sha);
      if valid.Failure? {
        return ManifestRejected(valid.error);
      }
      if u.cid.None? {
        return PinningFailed;
      }
      pins := pins + [Pin(req.manifest, req.intent, cleanSig)];
      return Pinned(u.cid.value, req.intent.modelId, req.intent.totalSize, req.intent.chunkCount);
    }
  }
}
