/** What a seal chain that is made consists of, and what one that verifies does, written out stage by stage. */
module SealTerms {
  import opened Wrappers
  import opened Hashing
  import opened Kinds
  import opened SealChain
  import opened JwtClaims
  import Jwt

  // ----- Verifying -----

  /** The i-th seal is that of its stage, names the hash before it and carries the digest of its own record. */
  ghost predicate InPlace(c: Crypto, messageId: string, seals: seq<SealRecord>, i: nat, stage: Stage)
    requires i < |seals|
  {
    var before := if i == 0 then "GENESIS" else seals[i - 1].hash;
    && seals[i].stage == stage && seals[i].messageId == messageId && seals[i].prevHash == before
    && seals[i].hash == c.seal(SealInput(messageId, stage, before, if seals[i].payload.Some? then seals[i].payload.value else Empty,
                                         seals[i].createdAt))
  }

  /** Six seals, each in its place. */
  ghost predicate AllInPlace(c: Crypto, messageId: string, seals: seq<SealRecord>) {
    && |seals| == 6
    && InPlace(c, messageId, seals, 0, Caoni) && InPlace(c, messageId, seals, 1, Shenfu1)
    && InPlace(c, messageId, seals, 2, Shenfu2) && InPlace(c, messageId, seals, 3, Shenfu3)
    && InPlace(c, messageId, seals, 4, Shenfu4) && InPlace(c, messageId, seals, 5, Pizhun)
  }

  /** The key that is given, or the public one of the private key that is. */
  function DraftKey(c: Crypto, context: SealContext): string {
    if context.draftPublicKey.Some? then context.draftPublicKey.value else c.publicKey(context.draftPrivateKey)
  }

  function MasterKey(c: Crypto, context: SealContext): string {
    if context.masterPublicKey.Some? then context.masterPublicKey.value else c.publicKey(context.masterPrivateKey)
  }

  /** A declared provenance leaves none of its texts empty. */
  predicate NotBlank(context: SealContext) {
    context.provenance.Some? ==>
      match context.provenance.value
      case Human(attestation) => attestation != ""
      case Agent(account, fingerprint) => account != "" && fingerprint != ""
  }

  predicate KeyedBy(c: Crypto, seal: SealRecord, secret: string) {
    seal.signature == c.digest(seal.hash + ":" + secret)
  }

  /** The capability in a seal's record; the empty text where there is none. */
  ghost predicate Capacity(seal: SealRecord, token: string) {
    || seal.payload == Some(Capability(token))
    || (exists json :: seal.payload == Some(Foreign(Some(token), json)))
    || (token == "" && (forall t :: seal.payload != Some(Capability(t))) && forall t, json :: seal.payload != Some(Foreign(Some(t), json)))
  }

  /** The claims say the pipeline, the seal package and the actor, and the moment is in their time. */
  predicate Entitles(claims: Jwt.Object, actor: string, now: int) {
    && InTime(claims, true, now) && Says(claims, "aud", Some("wenyan-pipeline")) && Says(claims, "iss", Some("wenyan-seal"))
    && Says(claims, "sub", Some(actor))
  }

  /** The capability of the record is a token signed with the secret that entitles the actor. */
  ghost predicate CapabilityMet(c: Jwt.Codec, seal: SealRecord, secret: string, actor: string, now: int) {
    exists token, claims :: Capacity(seal, token) && Presents(c, token, secret, "HS256", claims) && Entitles(claims, actor, now)
  }

  /** As many imperial signatures as an override asks for, or three for a type definition and one for anything else. */
  predicate Enough(message: Message, context: SealContext) {
    |context.imperialSignatures| >=
    if message.genre in context.thresholdOverrides then context.thresholdOverrides[message.genre]
    else if message.genre == "ti_definition" then 3 else 1
  }

  predicate SignedAs(c: Crypto, seal: SealRecord, stage: Stage, context: SealContext) {
    match stage
    case Caoni => c.verify(seal.signature, seal.hash, DraftKey(c, context)) == Some(true) && NotBlank(context)
    case Pizhun => c.verify(seal.signature, seal.hash, MasterKey(c, context)) == Some(true)
    case _ => KeyedBy(c, seal, context.capabilitySecret)
  }

  /** What the stage asks for besides its signature. */
  ghost predicate StageMet(c: Crypto, message: Message, seal: SealRecord, stage: Stage, context: SealContext, now: int) {
    && (stage == Shenfu3 ==> CapabilityMet(c.codec, seal, context.capabilitySecret, message.actor.id, now))
    && (stage == Pizhun ==> Enough(message, context))
  }

  lemma SignedExactly(c: Crypto, seal: SealRecord, stage: Stage, context: SealContext)
    ensures VerifyStageSignature(c, seal, stage, context) == Some(true) <==> SignedAs(c, seal, stage, context)
  {
  }

  lemma CapacityIs(seal: SealRecord, token: string)
    ensures Capacity(seal, token) <==> CapabilityOf(seal.payload) == token
  {
  }

  lemma HoldsIsEntitles(claims: Jwt.Object, message: Message, now: int, want: Jwt.Expectations)
    requires want == CapabilityExpectations(message).(alg := Some("HS256"), requireIat := true)
    ensures Holds(claims, want, now) <==> Entitles(claims, message.actor.id, now)
  {
  }

  lemma JudgedForActor(c: Jwt.Codec, message: Message, token: string, secret: string, now: int, want: Jwt.Expectations,
                       claims: Jwt.Object)
    requires want == CapabilityExpectations(message).(alg := Some("HS256"), requireIat := true)
    ensures Jwt.Judge(c, token, secret, want, now) == Jwt.Accepted(claims) <==>
            Presents(c, token, secret, "HS256", claims) && Entitles(claims, message.actor.id, now)
  {
    HoldsIsEntitles(claims, message, now, want);
    assert want.alg.GetOr("HS256") == "HS256";
    AcceptedExactly(c, token, secret, want, now, claims);
  }

  lemma TokenExactly(c: Jwt.Codec, message: Message, seal: SealRecord, secret: string, now: int)
    ensures Jwt.VerifyCapability(c, CapabilityOf(seal.payload), secret, CapabilityExpectations(message), now) == Some(true) <==>
            CapabilityMet(c, seal, secret, message.actor.id, now)
  {
    var token, want := CapabilityOf(seal.payload), CapabilityExpectations(message).(alg := Some("HS256"), requireIat := true);
    CapacityIs(seal, token);
    var v := Jwt.Judge(c, token, secret, want, now);
    if v.Accepted? { JudgedForActor(c, message, token, secret, now, want, v.claims); }
    if t, claims :| Capacity(seal, t) && Presents(c, t, secret, "HS256", claims) && Entitles(claims, message.actor.id, now) {
      CapacityIs(seal, t);
      JudgedForActor(c, message, token, secret, now, want, claims);
    }
  }

  lemma NotBlankExactly(context: SealContext)
    ensures ProvenancePresent(context) <==> NotBlank(context)
  {
  }

  lemma EnoughExactly(message: Message, context: SealContext)
    ensures EnoughSignatures(message, context) <==> Enough(message, context)
  {
    ThresholdOf(message.genre, context.thresholdOverrides);
  }

  // ----- The whole chain -----

  ghost predicate Passed(c: Crypto, message: Message, seals: seq<SealRecord>, context: SealContext, now: int, i: nat)
    requires i < |seals| == 6
  {
    && InPlace(c, message.id, seals, i, STAGE_ORDER[i]) && SignedAs(c, seals[i], STAGE_ORDER[i], context)
    && StageMet(c, message, seals[i], STAGE_ORDER[i], context, now)
  }

  function Before(seals: seq<SealRecord>, k: nat): string
    requires k <= |seals|
  {
    if k == 0 then "GENESIS" else seals[k - 1].hash
  }

  lemma CheckedExactly(c: Crypto, message: Message, seals: seq<SealRecord>, context: SealContext, now: int, i: nat)
    requires i < |seals| == 6
    ensures CheckSeal(c, message, seals[i], context, STAGE_ORDER[i], Before(seals, i), now) == Some(true) <==>
            Passed(c, message, seals, context, now, i)
  {
    SignedExactly(c, seals[i], STAGE_ORDER[i], context);
    TokenExactly(c.codec, message, seals[i], context.capabilitySecret, now);
    EnoughExactly(message, context);
  }

  /** From the k-th seal on, one after the other. */
  ghost predicate PassedFrom(c: Crypto, message: Message, seals: seq<SealRecord>, context: SealContext, now: int, k: nat)
    requires k <= |seals| == 6
    decreases 6 - k
  {
    k < 6 ==> Passed(c, message, seals, context, now, k) && PassedFrom(c, message, seals, context, now, k + 1)
  }

  lemma VerifyUnfolds(c: Crypto, message: Message, seals: seq<SealRecord>, context: SealContext, now: int, k: nat, before: string)
    requires k < |seals| == 6
    ensures VerifyFrom(c, message, seals, context, before, now, k) == Some(true) <==>
            CheckSeal(c, message, seals[k], context, STAGE_ORDER[k], before, now) == Some(true) &&
            VerifyFrom(c, message, seals, context, seals[k].hash, now, k + 1) == Some(true)
  {
  }

  lemma {:induction false} VerifiedFromExactly(c: Crypto, message: Message, seals: seq<SealRecord>, context: SealContext,
                                               now: int, k: nat, before: string)
    requires k <= |seals| == 6 && before == Before(seals, k)
    ensures VerifyFrom(c, message, seals, context, before, now, k) == Some(true) <==>
            PassedFrom(c, message, seals, context, now, k)
    decreases 6 - k
  {
    if k < 6 {
      VerifyUnfolds(c, message, seals, context, now, k, before);
      CheckedExactly(c, message, seals, context, now, k);
      VerifiedFromExactly(c, message, seals, context, now, k + 1, seals[k].hash);
    }
  }

  lemma PassedFromUnfolds(c: Crypto, message: Message, seals: seq<SealRecord>, context: SealContext, now: int)
    requires |seals| == 6
    ensures PassedFrom(c, message, seals, context, now, 0) <==>
            Passed(c, message, seals, context, now, 0) && Passed(c, message, seals, context, now, 1) &&
            Passed(c, message, seals, context, now, 2) && Passed(c, message, seals, context, now, 3) &&
            Passed(c, message, seals, context, now, 4) && Passed(c, message, seals, context, now, 5)
  {
    assert PassedFrom(c, message, seals, context, now, 6);
    assert PassedFrom(c, message, seals, context, now, 5) <==> Passed(c, message, seals, context, now, 5);
    assert PassedFrom(c, message, seals, context, now, 3) <==>
           Passed(c, message, seals, context, now, 3) && Passed(c, message, seals, context, now, 4) &&
           Passed(c, message, seals, context, now, 5);
  }

  /** What a chain that verifies is: every seal in its place; signed by the draft key at its first and by the master key
      at its last, by the capability secret in between; with a capability for the message's actor, enough imperial
      signatures and a provenance that is not blank. */
  ghost predicate Genuine(c: Crypto, message: Message, seals: seq<SealRecord>, context: SealContext, now: int) {
    && AllInPlace(c, message.id, seals)
    && c.verify(seals[0].signature, seals[0].hash, DraftKey(c, context)) == Some(true) && NotBlank(context)
    && KeyedBy(c, seals[1], context.capabilitySecret) && KeyedBy(c, seals[2], context.capabilitySecret)
    && KeyedBy(c, seals[3], context.capabilitySecret) && KeyedBy(c, seals[4], context.capabilitySecret)
    && CapabilityMet(c.codec, seals[3], context.capabilitySecret, message.actor.id, now)
    && c.verify(seals[5].signature, seals[5].hash, MasterKey(c, context)) == Some(true) && Enough(message, context)
  }

  ghost predicate AllPassed(c: Crypto, message: Message, seals: seq<SealRecord>, context: SealContext, now: int)
    requires |seals| == 6
  {
    && Passed(c, message, seals, context, now, 0) && Passed(c, message, seals, context, now, 1)
    && Passed(c, message, seals, context, now, 2) && Passed(c, message, seals, context, now, 3)
    && Passed(c, message, seals, context, now, 4) && Passed(c, message, seals, context, now, 5)
  }

  lemma PassedIsGenuine(c: Crypto, message: Message, seals: seq<SealRecord>, context: SealContext, now: int)
    requires |seals| == 6
    ensures AllPassed(c, message, seals, context, now) <==> Genuine(c, message, seals, context, now)
  {
  }

  /** A chain verifies exactly when it is genuine. */
  lemma VerdictExactly(c: Crypto, message: Message, seals: seq<SealRecord>, context: SealContext, now: int)
    ensures Verdict(c, message, seals, context, now) == Some(true) <==> Genuine(c, message, seals, context, now)
  {
    if |seals| == 6 {
      VerdictIs(c, message, seals, context, now);
      PassedIsGenuine(c, message, seals, context, now);
    }
  }

  lemma VerdictIs(c: Crypto, message: Message, seals: seq<SealRecord>, context: SealContext, now: int)
    requires |seals| == 6
    ensures Verdict(c, message, seals, context, now) == Some(true) <==> AllPassed(c, message, seals, context, now)
  {
    VerifiedFromExactly(c, message, seals, context, now, 0, "GENESIS");
    PassedFromUnfolds(c, message, seals, context, now);
  }

  /** Nothing before the fourth seal makes the chain throw but a first signature that cannot be verified at all. */
  lemma StagesBefore(c: Crypto, message: Message, seals: seq<SealRecord>, context: SealContext, now: int)
    requires |seals| == 6 && c.verify(seals[0].signature, seals[0].hash, DraftKey(c, context)).Some?
    ensures forall i | 0 <= i < 3 :: CheckSeal(c, message, seals[i], context, STAGE_ORDER[i], Before(seals, i), now).Some?
  {
  }

  lemma FalseAtFourth(c: Crypto, message: Message, seals: seq<SealRecord>, context: SealContext, now: int)
    requires |seals| == 6
    requires forall i | 0 <= i < 3 :: CheckSeal(c, message, seals[i], context, STAGE_ORDER[i], Before(seals, i), now).Some?
    requires CheckSeal(c, message, seals[3], context, STAGE_ORDER[3], Before(seals, 3), now) == Some(false)
    ensures Verdict(c, message, seals, context, now) == Some(false)
  {
    assert VerifyFrom(c, message, seals, context, Before(seals, 3), now, 3) == Some(false);
    assert VerifyFrom(c, message, seals, context, Before(seals, 2), now, 2) == Some(false);
    assert VerifyFrom(c, message, seals, context, Before(seals, 1), now, 1) == Some(false);
  }

  /** The capability of another actor, properly signed and whenever it is presented, makes the chain false. */
  lemma OtherActorsCapability(c: Crypto, message: Message, seals: seq<SealRecord>, context: SealContext, now: int,
                              token: string, claims: Jwt.Object)
    requires |seals| == 6 && c.verify(seals[0].signature, seals[0].hash, DraftKey(c, context)).Some?
    requires Capacity(seals[3], token) && Presents(c.codec, token, context.capabilitySecret, "HS256", claims)
    requires message.actor.id != "" && ("sub" in claims ==> claims["sub"] != Jwt.Text(message.actor.id))
    ensures Verdict(c, message, seals, context, now) == Some(false)
  {
    var want := CapabilityExpectations(message).(alg := Some("HS256"), requireIat := true);
    assert want.alg.GetOr("HS256") == "HS256";
    PresentedIsTested(c.codec, token, context.capabilitySecret, want, now, claims);
    CapacityIs(seals[3], token);
    StagesBefore(c, message, seals, context, now);
    FalseAtFourth(c, message, seals, context, now);
  }

  // ----- Making -----

  /** The claims of the capability: who, what for, from when, and for five minutes. */
  function ClaimsFor(message: Message, issued: int): Jwt.Object {
    map["sub" := Jwt.Text(message.actor.id), "clearance" := Jwt.Text(message.actor.role),
        "aud" := Jwt.Text("wenyan-pipeline"), "iss" := Jwt.Text("wenyan-seal"),
        "iat" := Jwt.Number(issued), "exp" := Jwt.Number(issued + 300)]
  }

  predicate RecordsImperial(c: Crypto, payload: StagePayload, message: Message, context: SealContext, at: int) {
    && payload.Imperial?
    && payload.imperialCommitment == c.digest(message.id + ":" + context.routeKey + ":" + c.iso(at))
    && payload.provided == |context.imperialSignatures|
    && payload.required == (if message.genre in context.thresholdOverrides then context.thresholdOverrides[message.genre]
                            else if message.genre == "ti_definition" then 3 else 1)
  }

  /** What the stage records. */
  predicate Records(c: Crypto, payload: StagePayload, stage: Stage, message: Message, context: SealContext, at: int) {
    match stage
    case Caoni => payload == Drafted(c.document(message.payload), message.actor.id)
    case Shenfu1 => payload == Schema(c.fields(message.payload.keys))
    case Shenfu2 => payload == Timed(at / 1000, context.lamportClock)
    case Shenfu3 => payload == Capability(Jwt.EncodeJwt(c.codec, ClaimsFor(message, at / 1000), context.capabilitySecret, map[]))
    case Shenfu4 => payload == Route(c.digest(context.routeKey))
    case Pizhun => RecordsImperial(c, payload, message, context, at)
  }

  predicate SignedWith(c: Crypto, seal: SealRecord, stage: Stage, context: SealContext) {
    match stage
    case Caoni => c.sign(seal.hash, context.draftPrivateKey) == Some(seal.signature)
    case Pizhun => c.sign(seal.hash, context.masterPrivateKey) == Some(seal.signature)
    case _ => KeyedBy(c, seal, context.capabilitySecret)
  }

  /** The seal of a stage: in its place, made at its reading of the clock, and signed by whom the stage says. */
  ghost predicate MadeAt(c: Crypto, message: Message, context: SealContext, clock: nat -> int, seals: seq<SealRecord>, i: nat,
                         stage: Stage)
    requires i < |seals|
  {
    && InPlace(c, message.id, seals, i, stage) && seals[i].createdAt == clock(i)
    && seals[i].sealId == SealId(message.id, stage, clock(i)) && seals[i].payload.Some?
    && Records(c, seals[i].payload.value, stage, message, context, clock(i))
    && SignedWith(c, seals[i], stage, context)
  }

  ghost predicate AllMade(c: Crypto, message: Message, context: SealContext, clock: nat -> int, seals: seq<SealRecord>) {
    && |seals| == 6
    && MadeAt(c, message, context, clock, seals, 0, Caoni) && MadeAt(c, message, context, clock, seals, 1, Shenfu1)
    && MadeAt(c, message, context, clock, seals, 2, Shenfu2) && MadeAt(c, message, context, clock, seals, 3, Shenfu3)
    && MadeAt(c, message, context, clock, seals, 4, Shenfu4) && MadeAt(c, message, context, clock, seals, 5, Pizhun)
  }

  lemma {:induction false} ChainIsMade(c: Crypto, message: Message, context: SealContext, before: string, clock: nat -> int, k: nat,
                                       seals: seq<SealRecord>, i: nat)
    requires k <= i < 6 && ChainFrom(c, message, context, before, clock, k) == Success(seals)
    ensures |seals| == 6 - k
    ensures MakeSeal(c, STAGE_ORDER[i], message, context, if i == k then before else seals[i - k - 1].hash, clock(i)) ==
            Success(seals[i - k])
    decreases i - k
  {
    ChainUnfolds(c, message, context, before, clock, k);
    if k < i { ChainIsMade(c, message, context, seals[0].hash, clock, k + 1, seals[1..], i); }
  }

  lemma RequiredIs(genre: string, overrides: map<string, int>)
    ensures RequiredSignatures(genre, overrides) ==
            if genre in overrides then overrides[genre] else if genre == "ti_definition" then 3 else 1
  {
    ThresholdOf(genre, overrides);
  }

  lemma ClaimsAre(message: Message, at: int)
    ensures CapabilityClaims(message, at) == ClaimsFor(message, at / 1000)
  {
  }

  lemma StageRecords(c: Crypto, message: Message, context: SealContext, stage: Stage, at: int)
    ensures Records(c, PayloadForStage(c, stage, message, context, at), stage, message, context, at)
  {
    if stage == Shenfu3 {
      ClaimsAre(message, at);
    } else if stage == Pizhun {
      RequiredIs(message.genre, context.thresholdOverrides);
    }
  }

  lemma MadeRecords(c: Crypto, message: Message, context: SealContext, stage: Stage, before: string, at: int, seal: SealRecord)
    requires MakeSeal(c, stage, message, context, before, at) == Success(seal)
    ensures seal.payload.Some? && Records(c, seal.payload.value, stage, message, context, at)
  {
    StageRecords(c, message, context, stage, at);
  }

  lemma MadeSigned(c: Crypto, message: Message, context: SealContext, stage: Stage, before: string, at: int, seal: SealRecord)
    requires MakeSeal(c, stage, message, context, before, at) == Success(seal)
    ensures SignedWith(c, seal, stage, context)
  {
  }

  lemma MadeInPlace(c: Crypto, message: Message, context: SealContext, stage: Stage, seals: seq<SealRecord>, i: nat, at: int)
    requires i < |seals| && MakeSeal(c, stage, message, context, Before(seals, i), at) == Success(seals[i])
    ensures InPlace(c, message.id, seals, i, stage) && seals[i].createdAt == at && seals[i].sealId == SealId(message.id, stage, at)
  {
  }

  lemma MadeAtStage(c: Crypto, message: Message, context: SealContext, clock: nat -> int, seals: seq<SealRecord>, i: nat, stage: Stage)
    requires i < 6 && stage == STAGE_ORDER[i] && NewChain(c, message, context, clock) == Success(seals)
    ensures |seals| == 6 && MadeAt(c, message, context, clock, seals, i, stage)
  {
    ChainIsMade(c, message, context, "GENESIS", clock, 0, seals, i);
    MadeRecords(c, message, context, stage, Before(seals, i), clock(i), seals[i]);
    MadeSigned(c, message, context, stage, Before(seals, i), clock(i), seals[i]);
    MadeInPlace(c, message, context, stage, seals, i, clock(i));
  }

  /** A chain that is made has the six seals of the stages in their order, each with its record and signature. */
  lemma MadeExactly(c: Crypto, message: Message, context: SealContext, clock: nat -> int, seals: seq<SealRecord>)
    requires NewChain(c, message, context, clock) == Success(seals)
    ensures AllMade(c, message, context, clock, seals) && Enough(message, context)
  {
    MadeAtStage(c, message, context, clock, seals, 0, Caoni);
    MadeAtStage(c, message, context, clock, seals, 1, Shenfu1);
    MadeAtStage(c, message, context, clock, seals, 2, Shenfu2);
    MadeAtStage(c, message, context, clock, seals, 3, Shenfu3);
    MadeAtStage(c, message, context, clock, seals, 4, Shenfu4);
    MadeAtStage(c, message, context, clock, seals, 5, Pizhun);
    MadeWithEnough(c, message, context, clock, seals);
  }

  lemma MadeWithEnough(c: Crypto, message: Message, context: SealContext, clock: nat -> int, seals: seq<SealRecord>)
    requires NewChain(c, message, context, clock) == Success(seals)
    ensures Enough(message, context)
  {
    ChainIsMade(c, message, context, "GENESIS", clock, 0, seals, 5);
    EnoughExactly(message, context);
  }
}
