/** The six-stage seal chain: how it is made and what verifying it establishes. */
module SealChain {
  import opened Wrappers
  import opened Hashing
  import opened Kinds
  import opened Jwt

  datatype Stage = Caoni | Shenfu1 | Shenfu2 | Shenfu3 | Shenfu4 | Pizhun

  const STAGE_ORDER: seq<Stage> := [Caoni, Shenfu1, Shenfu2, Shenfu3, Shenfu4, Pizhun]

  /** What each stage records; `Foreign` is any other object a stored seal may carry, `Empty` is {}. */
  datatype StagePayload =
    | Drafted(documentHash: string, draftedBy: string)
    | Schema(schemaMerkleRoot: string)
    | Timed(unixTimestamp: int, lamportClock: int)
    | Capability(token: string)
    | Route(routeCommitment: string)
    | Imperial(imperialCommitment: string, required: int, provided: int)
    | Foreign(capability: Option<string>, json: string)
    | Empty

  datatype SealInput = SealInput(
    messageId: string, stage: Stage, prevHash: string, payload: StagePayload, createdAt: int)

  datatype SealId = SealId(messageId: string, stage: Stage, createdAt: int)

  datatype SealRecord = SealRecord(
    sealId: SealId, messageId: string, stage: Stage, prevHash: string, hash: string, signature: string,
    createdAt: int, payload: Option<StagePayload>)

  datatype Provenance =
    | Human(yubikeyAttestation: string)
    | Agent(serviceAccount: string, mtlsFingerprint: string)

  datatype SealContext = SealContext(
    draftPrivateKey: string, draftPublicKey: Option<string>,
    masterPrivateKey: string, masterPublicKey: Option<string>,
    capabilitySecret: string, lamportClock: int, routeKey: string,
    provenance: Option<Provenance>, imperialSignatures: seq<string>, thresholdOverrides: map<string, int>)

  /**
   * The foreign code. `seal`, `document` and `fields` are digests of JSON text; `sign` and `verify` are
   * Ed25519 and answer None where a malformed key or signature makes them throw.
   */
  datatype Crypto = Crypto(
    digest: string -> string,
    seal: SealInput -> string,
    document: Payload -> string,
    fields: set<string> -> string,
    iso: int -> string,
    publicKey: string -> string,
    sign: (string, string) -> Option<string>,
    verify: (string, string, string) -> Option<bool>,
    codec: Codec)

  /** A signature verifies under the public key of the key that made it. */
  ghost predicate SignaturesVerify(c: Crypto) {
    forall hash, key :: c.sign(hash, key).Some? ==>
      c.verify(c.sign(hash, key).value, hash, c.publicKey(key)) == Some(true)
  }

  datatype SealError = InsufficientImperialAuthority | SigningFailed

  // ----- Thresholds -----

  const DEFAULT_THRESHOLDS: map<string, int> := map["ti_definition" := 3, "edict" := 1]

  function RequiredSignatures(genre: string, overrides: map<string, int>): int {
    var merged := DEFAULT_THRESHOLDS + overrides;
    if genre in merged then merged[genre] else 1
  }

  predicate EnoughSignatures(message: Message, context: SealContext) {
    |context.imperialSignatures| >= RequiredSignatures(message.genre, context.thresholdOverrides)
  }

  /** An override decides for its genre; otherwise a type definition needs three signatures and anything else one. */
  lemma ThresholdOf(genre: string, overrides: map<string, int>)
    ensures genre in overrides ==> RequiredSignatures(genre, overrides) == overrides[genre]
    ensures genre !in overrides ==>
              RequiredSignatures(genre, overrides) == if genre == "ti_definition" then 3 else 1
  {
  }

  // ----- Stages -----

  function CapabilityClaims(message: Message, nowMs: int): Object {
    map["sub" := Text(message.actor.id),
        "clearance" := Text(message.actor.role),
        "aud" := Text("wenyan-pipeline"),
        "iss" := Text("wenyan-seal"),
        "iat" := Number(nowMs / 1000),
        "exp" := Number(nowMs / 1000 + 300)]
  }

  function PayloadForStage(c: Crypto, stage: Stage, message: Message, context: SealContext, nowMs: int): StagePayload {
    match stage
    case Caoni => Drafted(c.document(message.payload), message.actor.id)
    case Shenfu1 => Schema(c.fields(message.payload.keys))
    case Shenfu2 => Timed(nowMs / 1000, context.lamportClock)
    case Shenfu3 => Capability(EncodeCapability(c.codec, CapabilityClaims(message, nowMs), context.capabilitySecret))
    case Shenfu4 => Route(c.digest(context.routeKey))
    case Pizhun =>
      Imperial(c.digest(message.id + ":" + context.routeKey + ":" + c.iso(nowMs)),
               RequiredSignatures(message.genre, context.thresholdOverrides), |context.imperialSignatures|)
  }

  function SignStage(c: Crypto, hash: string, stage: Stage, context: SealContext): Option<string> {
    if stage == Caoni then c.sign(hash, context.draftPrivateKey)
    else if stage == Pizhun then c.sign(hash, context.masterPrivateKey)
    else Some(c.digest(hash + ":" + context.capabilitySecret))
  }

  predicate ProvenancePresent(context: SealContext) {
    match context.provenance
    case None => true
    case Some(Human(attestation)) => |attestation| > 0
    case Some(Agent(account, fingerprint)) => |fingerprint| > 0 && |account| > 0
  }

  function VerifyStageSignature(c: Crypto, seal: SealRecord, stage: Stage, context: SealContext): Option<bool> {
    if stage == Caoni then
      match c.verify(seal.signature, seal.hash, context.draftPublicKey.GetOr(c.publicKey(context.draftPrivateKey)))
      case None => None
      case Some(ok) => Some(ok && ProvenancePresent(context))
    else if stage == Pizhun then
      c.verify(seal.signature, seal.hash, context.masterPublicKey.GetOr(c.publicKey(context.masterPrivateKey)))
    else Some(seal.signature == c.digest(seal.hash + ":" + context.capabilitySecret))
  }

  // ----- Creating -----

  function MakeSeal(c: Crypto, stage: Stage, message: Message, context: SealContext, prevHash: string, nowMs: int):
    Result<SealRecord, SealError>
  {
    if stage == Pizhun && !EnoughSignatures(message, context) then Failure(InsufficientImperialAuthority) else
      var payload := PayloadForStage(c, stage, message, context, nowMs);
      var hash := c.seal(SealInput(message.id, stage, prevHash, payload, nowMs));
      match SignStage(c, hash, stage, context)
      case None => Failure(SigningFailed)
      case Some(signature) =>
        Success(SealRecord(SealId(message.id, stage, nowMs), message.id, stage, prevHash, hash, signature, nowMs,
                           Some(payload)))
  }

  /** The seals of the stages from `k` on; `clock` is the time each stage reads. */
  function ChainFrom(c: Crypto, message: Message, context: SealContext, prevHash: string, clock: nat -> int, k: nat):
    (r: Result<seq<SealRecord>, SealError>)
    requires k <= 6
    ensures r.Success? ==> |r.value| == 6 - k
    decreases 6 - k
  {
    if k == 6 then Success([]) else
      match MakeSeal(c, STAGE_ORDER[k], message, context, prevHash, clock(k))
      case Failure(e) => Failure(e)
      case Success(seal) => Prepend([seal], ChainFrom(c, message, context, seal.hash, clock, k + 1))
  }

  function Prepend(seals: seq<SealRecord>, r: Result<seq<SealRecord>, SealError>): Result<seq<SealRecord>, SealError> {
    match r
    case Failure(e) => Failure(e)
    case Success(rest) => Success(seals + rest)
  }

  lemma PrependNone(r: Result<seq<SealRecord>, SealError>)
    ensures Prepend([], r) == r
  {
    if r.Success? { assert [] + r.value == r.value; }
  }

  lemma PrependOne(seals: seq<SealRecord>, seal: SealRecord, r: Result<seq<SealRecord>, SealError>)
    ensures Prepend(seals, Prepend([seal], r)) == Prepend(seals + [seal], r)
  {
    if r.Success? { assert seals + ([seal] + r.value) == seals + [seal] + r.value; }
  }

  function NewChain(c: Crypto, message: Message, context: SealContext, clock: nat -> int):
    Result<seq<SealRecord>, SealError>
  {
    ChainFrom(c, message, context, "GENESIS", clock, 0)
  }

  lemma ChainStep(c: Crypto, message: Message, context: SealContext, prevHash: string, clock: nat -> int, k: nat,
                  seals: seq<SealRecord>, seal: SealRecord)
    requires k < 6 && MakeSeal(c, STAGE_ORDER[k], message, context, prevHash, clock(k)) == Success(seal)
    ensures Prepend(seals, ChainFrom(c, message, context, prevHash, clock, k)) ==
            Prepend(seals + [seal], ChainFrom(c, message, context, seal.hash, clock, k + 1))
  {
    PrependOne(seals, seal, ChainFrom(c, message, context, seal.hash, clock, k + 1));
  }

  method CreateSealChain(c: Crypto, message: Message, context: SealContext, startPrevHash: string, clock: nat -> int)
    returns (r: Result<seq<SealRecord>, SealError>)
    ensures r == ChainFrom(c, message, context, startPrevHash, clock, 0)
  {
    ghost var whole := ChainFrom(c, message, context, startPrevHash, clock, 0);
    PrependNone(whole);
    var seals: seq<SealRecord> := [];
    var prevHash := startPrevHash;
    var k := 0;
    while k < |STAGE_ORDER|
      invariant k <= 6
      invariant whole == Prepend(seals, ChainFrom(c, message, context, prevHash, clock, k))
    {
      var stage := STAGE_ORDER[k];
      if stage == Pizhun {
        if |context.imperialSignatures| < RequiredSignatures(message.genre, context.thresholdOverrides) {
          return Failure(InsufficientImperialAuthority);
        }
      }
      var createdAt := clock(k);
      var payload := PayloadForStage(c, stage, message, context, createdAt);
      var hash := c.seal(SealInput(message.id, stage, prevHash, payload, createdAt));
      var signature := SignStage(c, hash, stage, context);
      if signature.None? { return Failure(SigningFailed); }
      var seal := SealRecord(SealId(message.id, stage, createdAt), message.id, stage, prevHash, hash,
                             signature.value, createdAt, Some(payload));
      ChainStep(c, message, context, prevHash, clock, k, seals, seal);
      seals := seals + [seal];
      prevHash := hash;
      k := k + 1;
    }
    assert seals + [] == seals;
    return Success(seals);
  }

  // ----- Verifying -----

  function CapabilityOf(payload: Option<StagePayload>): string {
    match payload
    case Some(Capability(token)) => token
    case Some(Foreign(Some(token), _)) => token
    case _ => ""
  }

  function CapabilityExpectations(message: Message): Expectations {
    Expectations(None, Some("wenyan-pipeline"), Some("wenyan-seal"), Some(message.actor.id), false)
  }

  function ExpectedHash(c: Crypto, seal: SealRecord, messageId: string, stage: Stage, prevHash: string): string {
    c.seal(SealInput(messageId, stage, prevHash, seal.payload.GetOr(Empty), seal.createdAt))
  }

  /** The checks of one stage; None stands for an exception. */
  function CheckSeal(c: Crypto, message: Message, seal: SealRecord, context: SealContext, stage: Stage,
                     prevHash: string, nowSeconds: int): Option<bool> {
    if seal.stage != stage || seal.messageId != message.id || seal.prevHash != prevHash then Some(false)
    else if ExpectedHash(c, seal, message.id, stage, prevHash) != seal.hash then Some(false)
    else match VerifyStageSignature(c, seal, stage, context)
      case None => None
      case Some(signed) =>
        if !signed then Some(false)
        else if stage == Shenfu3 then
          VerifyCapability(c.codec, CapabilityOf(seal.payload), context.capabilitySecret,
                           CapabilityExpectations(message), nowSeconds)
        else Some(stage == Pizhun ==> EnoughSignatures(message, context))
  }

  function VerifyFrom(c: Crypto, message: Message, seals: seq<SealRecord>, context: SealContext, prevHash: string,
                      nowSeconds: int, k: nat): Option<bool>
    requires k <= |seals| == 6
    decreases 6 - k
  {
    if k == 6 then Some(true) else
      match CheckSeal(c, message, seals[k], context, STAGE_ORDER[k], prevHash, nowSeconds)
      case Some(true) => VerifyFrom(c, message, seals, context, seals[k].hash, nowSeconds, k + 1)
      case other => other
  }

  function Verdict(c: Crypto, message: Message, seals: seq<SealRecord>, context: SealContext, nowSeconds: int):
    Option<bool>
  {
    if |seals| != 6 then Some(false) else VerifyFrom(c, message, seals, context, "GENESIS", nowSeconds, 0)
  }

  method VerifySealChain(c: Crypto, message: Message, seals: seq<SealRecord>, context: SealContext, nowSeconds: int)
    returns (r: Option<bool>)
    ensures r == Verdict(c, message, seals, context, nowSeconds)
  {
    if |seals| != 6 { return Some(false); }
    var prevHash := "GENESIS";
    var idx := 0;
    while idx < |STAGE_ORDER|
      invariant idx <= 6
      invariant Verdict(c, message, seals, context, nowSeconds) ==
                VerifyFrom(c, message, seals, context, prevHash, nowSeconds, idx)
    {
      var stage, seal := STAGE_ORDER[idx], seals[idx];
      if seal.stage != stage || seal.messageId != message.id || seal.prevHash != prevHash { return Some(false); }
      var expected := c.seal(SealInput(message.id, stage, prevHash, seal.payload.GetOr(Empty), seal.createdAt));
      if expected != seal.hash { return Some(false); }
      var signed := VerifyStageSignature(c, seal, stage, context);
      if signed != Some(true) { return signed; }
      if stage == Shenfu3 {
        var ok := VerifyCapability(c.codec, CapabilityOf(seal.payload), context.capabilitySecret,
                                   CapabilityExpectations(message), nowSeconds);
        if ok != Some(true) { return ok; }
      }
      if stage == Pizhun {
        if |context.imperialSignatures| < RequiredSignatures(message.genre, context.thresholdOverrides) {
          return Some(false);
        }
      }
      prevHash := seal.hash;
      idx := idx + 1;
    }
    return Some(true);
  }

  // ----- Round trip -----

  predicate KeysMatch(c: Crypto, context: SealContext) {
    && context.draftPublicKey.GetOr(c.publicKey(context.draftPrivateKey)) == c.publicKey(context.draftPrivateKey)
    && context.masterPublicKey.GetOr(c.publicKey(context.masterPrivateKey)) == c.publicKey(context.masterPrivateKey)
  }

  /** The capability token made at `issuedMs` is accepted at `now`: not from the future, not expired. */
  predicate InTokenWindow(issuedMs: int, now: int) {
    issuedMs / 1000 <= now + 30 && now <= issuedMs / 1000 + 300
  }

  lemma CapabilityAccepted(c: Crypto, message: Message, context: SealContext, issuedMs: int, now: int)
    requires Faithful(c.codec)
    ensures VerifyCapability(c.codec, EncodeCapability(c.codec, CapabilityClaims(message, issuedMs), context.capabilitySecret),
                             context.capabilitySecret, CapabilityExpectations(message), now) ==
            Some(InTokenWindow(issuedMs, now))
  {
    var claims := CapabilityClaims(message, issuedMs);
    var want := CapabilityExpectations(message).(alg := Some("HS256"), requireIat := true);
    TokenRoundTrip(c.codec, claims, context.capabilitySecret, want, now);
    ClaimsRead(message, issuedMs);
    ClaimsPassExactly(claims, want, now);
  }

  lemma ClaimsRead(message: Message, issuedMs: int)
    ensures var claims, want := CapabilityClaims(message, issuedMs), CapabilityExpectations(message);
            NumberAt(claims, "iat") == Some(issuedMs / 1000) && NumberAt(claims, "exp") == Some(issuedMs / 1000 + 300) &&
            Matches(claims, "aud", want.aud) && Matches(claims, "iss", want.iss) && Matches(claims, "sub", want.sub)
  {
  }

  lemma MadeSealSigned(c: Crypto, message: Message, context: SealContext, stage: Stage, prevHash: string, nowMs: int)
    requires SignaturesVerify(c) && KeysMatch(c, context)
    requires MakeSeal(c, stage, message, context, prevHash, nowMs).Success?
    ensures var seal := MakeSeal(c, stage, message, context, prevHash, nowMs).value;
            seal.messageId == message.id && seal.stage == stage && seal.prevHash == prevHash &&
            seal.payload == Some(PayloadForStage(c, stage, message, context, nowMs)) &&
            ExpectedHash(c, seal, message.id, stage, prevHash) == seal.hash &&
            (stage == Pizhun ==> EnoughSignatures(message, context)) &&
            VerifyStageSignature(c, seal, stage, context) == Some(stage == Caoni ==> ProvenancePresent(context))
  {
  }

  /** What a freshly made seal of each stage needs to pass its own check. */
  lemma MadeSealChecks(c: Crypto, message: Message, context: SealContext, stage: Stage, prevHash: string, nowMs: int,
                       now: int)
    requires SignaturesVerify(c) && Faithful(c.codec) && KeysMatch(c, context)
    requires MakeSeal(c, stage, message, context, prevHash, nowMs).Success?
    ensures CheckSeal(c, message, MakeSeal(c, stage, message, context, prevHash, nowMs).value, context, stage, prevHash, now)
            == Some((stage == Caoni ==> ProvenancePresent(context)) && (stage == Shenfu3 ==> InTokenWindow(nowMs, now)))
  {
    var seal := MakeSeal(c, stage, message, context, prevHash, nowMs).value;
    MadeSealSigned(c, message, context, stage, prevHash, nowMs);
    if stage == Shenfu3 {
      CapabilityAccepted(c, message, context, nowMs, now);
    }
  }

  lemma {:induction false} MadeChainChecks(c: Crypto, message: Message, context: SealContext, prevHash: string,
                                           clock: nat -> int, now: int, seals: seq<SealRecord>, k: nat)
    requires SignaturesVerify(c) && Faithful(c.codec) && KeysMatch(c, context)
    requires k <= |seals| == 6
    requires ChainFrom(c, message, context, prevHash, clock, k) == Success(seals[k..])
    ensures VerifyFrom(c, message, seals, context, prevHash, now, k) ==
            Some((k <= 0 ==> ProvenancePresent(context)) && (k <= 3 ==> InTokenWindow(clock(3), now)))
    decreases 6 - k
  {
    if k < 6 {
      assert seals[k..][0] == seals[k] && seals[k..][1..] == seals[k + 1..];
      MadeSealChecks(c, message, context, STAGE_ORDER[k], prevHash, clock(k), now);
      MadeChainChecks(c, message, context, seals[k].hash, clock, now, seals, k + 1);
    }
  }

  /** A created chain verifies exactly while its capability token is in its window and the declared provenance
      is not blank. */
  lemma SealChainRoundTrip(c: Crypto, message: Message, context: SealContext, clock: nat -> int, now: int)
    requires SignaturesVerify(c) && Faithful(c.codec) && KeysMatch(c, context)
    requires NewChain(c, message, context, clock).Success?
    ensures Verdict(c, message, NewChain(c, message, context, clock).value, context, now) ==
            Some(ProvenancePresent(context) && InTokenWindow(clock(3), now))
  {
    var seals := NewChain(c, message, context, clock).value;
    assert seals[0..] == seals;
    MadeChainChecks(c, message, context, "GENESIS", clock, now, seals, 0);
  }

  /** With keys that sign, a chain can be created exactly when there are enough imperial signatures. */
  lemma {:induction false} ChainCreated(c: Crypto, message: Message, context: SealContext, prevHash: string,
                                        clock: nat -> int, k: nat)
    requires k < 6
    requires forall hash :: c.sign(hash, context.draftPrivateKey).Some? && c.sign(hash, context.masterPrivateKey).Some?
    ensures var r := ChainFrom(c, message, context, prevHash, clock, k);
            if EnoughSignatures(message, context) then r.Success? else r == Failure(InsufficientImperialAuthority)
    decreases 6 - k
  {
    var made := MakeSeal(c, STAGE_ORDER[k], message, context, prevHash, clock(k));
    if made.Success? && k < 5 { ChainCreated(c, message, context, made.value.hash, clock, k + 1); }
  }

  // ----- Binding -----

  /** What the check of position `k` in a verifying chain has established. */
  lemma {:induction false} VerifiedLinks(c: Crypto, message: Message, seals: seq<SealRecord>, context: SealContext,
                                         prevHash: string, now: int, k: nat, i: nat)
    requires k <= i < |seals| == 6
    requires VerifyFrom(c, message, seals, context, prevHash, now, k) == Some(true)
    ensures seals[i].stage == STAGE_ORDER[i] && seals[i].messageId == message.id
    ensures seals[i].prevHash == if i == k then prevHash else seals[i - 1].hash
    ensures seals[i].hash == ExpectedHash(c, seals[i], message.id, STAGE_ORDER[i], seals[i].prevHash)
    decreases i - k
  {
    if k < i { VerifiedLinks(c, message, seals, context, seals[k].hash, now, k + 1, i); }
  }

  /** Two seals record the same; an absent payload and an empty one are the same record. */
  predicate SameRecord(a: SealRecord, b: SealRecord) {
    && a.messageId == b.messageId && a.stage == b.stage && a.prevHash == b.prevHash && a.hash == b.hash
    && a.createdAt == b.createdAt && a.payload.GetOr(Empty) == b.payload.GetOr(Empty)
  }

  lemma SameHashSameRecord(c: Crypto, a: SealRecord, b: SealRecord, stage: Stage)
    requires Injective(c.seal)
    requires a.stage == b.stage == stage && a.hash == b.hash
    requires a.hash == ExpectedHash(c, a, a.messageId, stage, a.prevHash)
    requires b.hash == ExpectedHash(c, b, b.messageId, stage, b.prevHash)
    ensures SameRecord(a, b)
  {
    var x := SealInput(a.messageId, stage, a.prevHash, a.payload.GetOr(Empty), a.createdAt);
    var y := SealInput(b.messageId, stage, b.prevHash, b.payload.GetOr(Empty), b.createdAt);
    assert c.seal(x) == c.seal(y);
  }

  /** The seals of a verified chain, as the checks have established them. */
  ghost predicate Linked(c: Crypto, messageId: string, seals: seq<SealRecord>) {
    |seals| == 6 && forall i | 0 <= i < 6 ::
      && seals[i].stage == STAGE_ORDER[i] && seals[i].messageId == messageId
      && seals[i].prevHash == (if i == 0 then "GENESIS" else seals[i - 1].hash)
      && seals[i].hash == ExpectedHash(c, seals[i], messageId, STAGE_ORDER[i], seals[i].prevHash)
  }

  lemma VerifiedIsLinked(c: Crypto, message: Message, seals: seq<SealRecord>, context: SealContext, now: int)
    requires Verdict(c, message, seals, context, now) == Some(true)
    ensures Linked(c, message.id, seals)
  {
    forall i | 0 <= i < 6
      ensures seals[i].stage == STAGE_ORDER[i] && seals[i].messageId == message.id
      ensures seals[i].prevHash == if i == 0 then "GENESIS" else seals[i - 1].hash
      ensures seals[i].hash == ExpectedHash(c, seals[i], message.id, STAGE_ORDER[i], seals[i].prevHash)
    {
      VerifiedLinks(c, message, seals, context, "GENESIS", now, 0, i);
    }
  }

  lemma {:induction false} SharedHashSharesRecords(c: Crypto, id1: string, s1: seq<SealRecord>,
                                                   id2: string, s2: seq<SealRecord>, i: nat)
    requires Injective(c.seal) && Linked(c, id1, s1) && Linked(c, id2, s2)
    requires i < 6 && s1[i].hash == s2[i].hash
    ensures id1 == id2 && forall j | 0 <= j <= i :: SameRecord(s1[j], s2[j])
    decreases i
  {
    SameHashSameRecord(c, s1[i], s2[i], STAGE_ORDER[i]);
    if i > 0 { SharedHashSharesRecords(c, id1, s1, id2, s2, i - 1); }
  }

  /** The last hash binds the whole chain: two chains that verify, at whatever times and in whatever contexts,
      and share it belong to one message and agree on every stage, hash, payload and creation time. */
  lemma FinalHashBindsChain(c: Crypto, m1: Message, s1: seq<SealRecord>, x1: SealContext, now1: int,
                            m2: Message, s2: seq<SealRecord>, x2: SealContext, now2: int)
    requires Injective(c.seal) && |s1| == |s2| == 6
    requires Verdict(c, m1, s1, x1, now1) == Some(true) && Verdict(c, m2, s2, x2, now2) == Some(true)
    requires s1[5].hash == s2[5].hash
    ensures m1.id == m2.id && forall i | 0 <= i < 6 :: SameRecord(s1[i], s2[i])
  {
    VerifiedIsLinked(c, m1, s1, x1, now1);
    VerifiedIsLinked(c, m2, s2, x2, now2);
    SharedHashSharesRecords(c, m1.id, s1, m2.id, s2, 5);
  }

  lemma CheckReadsOnly(c: Crypto, m1: Message, m2: Message, seal: SealRecord, context: SealContext, stage: Stage,
                       prevHash: string, now: int)
    requires m1.id == m2.id && m1.genre == m2.genre && m1.actor.id == m2.actor.id
    ensures CheckSeal(c, m1, seal, context, stage, prevHash, now) == CheckSeal(c, m2, seal, context, stage, prevHash, now)
  {
    assert CapabilityExpectations(m1) == CapabilityExpectations(m2);
    assert EnoughSignatures(m1, context) == EnoughSignatures(m2, context);
  }

  /** Verification looks at no more of a message than its id, its genre and its actor's id, so a chain made for
      the routed copy of a message verifies alike for the stored one. */
  lemma {:induction false} VerdictReadsOnly(c: Crypto, m1: Message, m2: Message, seals: seq<SealRecord>,
                                            context: SealContext, prevHash: string, now: int, k: nat)
    requires m1.id == m2.id && m1.genre == m2.genre && m1.actor.id == m2.actor.id
    requires k <= |seals| == 6
    ensures VerifyFrom(c, m1, seals, context, prevHash, now, k) == VerifyFrom(c, m2, seals, context, prevHash, now, k)
    decreases 6 - k
  {
    if k < 6 {
      CheckReadsOnly(c, m1, m2, seals[k], context, STAGE_ORDER[k], prevHash, now);
      VerdictReadsOnly(c, m1, m2, seals, context, seals[k].hash, now, k + 1);
    }
  }

  lemma VerdictOfCopy(c: Crypto, m1: Message, m2: Message, seals: seq<SealRecord>, context: SealContext, now: int)
    requires m1.id == m2.id && m1.genre == m2.genre && m1.actor.id == m2.actor.id
    ensures Verdict(c, m1, seals, context, now) == Verdict(c, m2, seals, context, now)
  {
    if |seals| == 6 { VerdictReadsOnly(c, m1, m2, seals, context, "GENESIS", now, 0); }
  }

  lemma ChainUnfolds(c: Crypto, message: Message, context: SealContext, prevHash: string, clock: nat -> int, k: nat)
    requires k < 6
    requires ChainFrom(c, message, context, prevHash, clock, k).Success?
    ensures var made := MakeSeal(c, STAGE_ORDER[k], message, context, prevHash, clock(k));
            var rest := ChainFrom(c, message, context, made.value.hash, clock, k + 1);
            made.Success? && rest.Success? &&
            ChainFrom(c, message, context, prevHash, clock, k).value == [made.value] + rest.value
  {
  }

  /** The seals belong to the message, and each to its stage and its reading of the clock, from the k-th stage on. */
  ghost predicate StageByStage(seals: seq<SealRecord>, id: string, clock: nat -> int, k: nat)
    requires k <= 6
  {
    |seals| == 6 - k && forall j | 0 <= j < |seals| :: OfStage(seals[j], id, clock, k + j)
  }

  ghost predicate OfStage(seal: SealRecord, id: string, clock: nat -> int, i: nat)
    requires i < 6
  {
    seal.messageId == id && seal.sealId == SealId(id, STAGE_ORDER[i], clock(i))
  }

  lemma OneMoreStage(first: SealRecord, rest: seq<SealRecord>, id: string, clock: nat -> int, k: nat)
    requires k < 6 && OfStage(first, id, clock, k) && StageByStage(rest, id, clock, k + 1)
    ensures StageByStage([first] + rest, id, clock, k)
  {
    forall j | 0 <= j < |rest| + 1 ensures OfStage(([first] + rest)[j], id, clock, k + j) {
      if j > 0 { assert OfStage(rest[j - 1], id, clock, k + 1 + (j - 1)); }
    }
  }

  lemma {:induction false} CreatedSeals(c: Crypto, message: Message, context: SealContext, prevHash: string,
                                        clock: nat -> int, seals: seq<SealRecord>, k: nat)
    requires k <= 6 && ChainFrom(c, message, context, prevHash, clock, k) == Success(seals)
    ensures StageByStage(seals, message.id, clock, k)
    decreases 6 - k
  {
    if k < 6 {
      ChainUnfolds(c, message, context, prevHash, clock, k);
      var first := MakeSeal(c, STAGE_ORDER[k], message, context, prevHash, clock(k)).value;
      var rest := ChainFrom(c, message, context, first.hash, clock, k + 1).value;
      CreatedSeals(c, message, context, first.hash, clock, rest, k + 1);
      OneMoreStage(first, rest, message.id, clock, k);
    }
  }

  /** Seals of one message, no two with the same id. */
  predicate FreshSeals(seals: seq<SealRecord>, id: string) {
    && (forall i | 0 <= i < |seals| :: seals[i].messageId == id && seals[i].sealId.messageId == id)
    && (forall i, j | 0 <= i < j < |seals| :: seals[i].sealId != seals[j].sealId)
  }

  lemma NewChainIsFresh(c: Crypto, message: Message, context: SealContext, clock: nat -> int, seals: seq<SealRecord>)
    requires NewChain(c, message, context, clock) == Success(seals)
    ensures |seals| == 6 && FreshSeals(seals, message.id)
  {
    CreatedSeals(c, message, context, "GENESIS", clock, seals, 0);
    StageIdsAreFresh(seals, message.id, clock);
  }

  lemma NewChainIds(c: Crypto, message: Message, context: SealContext, clock: nat -> int, seals: seq<SealRecord>)
    requires NewChain(c, message, context, clock) == Success(seals)
    ensures |seals| == 6 && forall i | 0 <= i < 6 :: seals[i].sealId == SealId(message.id, STAGE_ORDER[i], clock(i))
  {
    CreatedSeals(c, message, context, "GENESIS", clock, seals, 0);
    forall i | 0 <= i < 6 ensures seals[i].sealId == SealId(message.id, STAGE_ORDER[i], clock(i)) {
      assert OfStage(seals[i], message.id, clock, 0 + i);
    }
  }

  lemma StageIdsAreFresh(seals: seq<SealRecord>, id: string, clock: nat -> int)
    requires StageByStage(seals, id, clock, 0)
    ensures FreshSeals(seals, id)
  {
    StagesDiffer();
    forall i | 0 <= i < 6 ensures seals[i].messageId == id && seals[i].sealId == SealId(id, STAGE_ORDER[i], clock(i)) {
      assert OfStage(seals[i], id, clock, 0 + i);
    }
  }

  lemma StagesDiffer()
    ensures forall i, j | 0 <= i < j < 6 :: STAGE_ORDER[i] != STAGE_ORDER[j]
  {
  }
}
