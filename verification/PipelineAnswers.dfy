/** What a docket step and a finalization of a pending message answer and what rows they leave, condition by condition in the
    order they are looked at, judged by the laws, definitions, approvals and votes as they stand when the call begins. */
module PipelineAnswers {
  import opened Wrappers
  import opened Kinds
  import opened Archive
  import opened Pipeline
  import opened PipelineSteps
  import opened PipelineEffects
  import opened PipelineGrounds
  import opened PipelineTerms
  import opened PipelineExactly
  import opened PipelineTrail
  import SealTerms
  import SealChain

  // ----- Sealing -----

  function SealAnswer(inv: Invocation, m: Message): Answer {
    if !SealTerms.Enough(m, inv.context) then Rejects("insufficient-imperial-authority")
    else if !SealsPass(inv, m) then Rejects("invalid-seal-chain")
    else ARCHIVES
  }

  lemma RejectNowGives(cfg: Config, o: Office, inv: Invocation, m: Message, s: MessageState, reason: string)
    requires Sealable(s) && Track(cfg.digests, o.tables, m.id, s)
    ensures Gives(cfg, inv, m, o, s, RejectNow(cfg, o, inv, m, reason), Rejects(reason))
  {
    Stored(cfg, o, m.id, s);
    ConcludeGives(cfg, o, inv, m, s, Rejected, Some(reason), Some(reason));
  }

  lemma SealAnswers(cfg: Config, o: Office, inv: Invocation, m: Message, s: MessageState)
    requires Orderly(cfg, o) && Sealable(s) && StateFit(cfg, o.tables, m.id, s) && CopyOf(m, o.tables.messages[m.id].body)
    requires SealingWorks(cfg.crypto, inv.context)
    ensures Gives(cfg, inv, m, o, s, SealAndArchive(cfg, o, inv, m), SealAnswer(inv, m))
  {
    ChainPassesExactly(cfg, inv, m);
    if !SealTerms.Enough(m, inv.context) {
      RejectNowGives(cfg, o, inv, m, s, "insufficient-imperial-authority");
    } else if !SealsPass(inv, m) {
      RejectNowGives(cfg, o, inv, m, s, "invalid-seal-chain");
    } else {
      var seals := SealChain.NewChain(cfg.crypto, m, inv.context, inv.seals).value;
      SealChain.NewChainIsFresh(cfg.crypto, m, inv.context, inv.seals, seals);
      StoreAndArchiveGives(cfg, o, inv, m, s, seals);
    }
  }

  // ----- Gates -----

  /** What the gates say, in full. */
  lemma GatesSay(cfg: Config, o: Office, inv: Invocation, k: nat, m: Message)
    ensures var acks := LoadLaw(cfg, o, inv, k, "protocol", Moment(m), cfg.rules.protocol).1;
            Gates(cfg, o, inv, k, m).1 ==
            if acks.Failure? then Shut(acks.error)
            else if !Acknowledged(o.tables, acks.value, m) then AwaitingAcks(AsManyAs(acks.value, m))
            else if !ProposesAndAgrees(cfg, inv, o.replica, m) then AwaitingConsensus else Open
  {
    var acks := LoadLaw(cfg, o, inv, k, "protocol", SnapshotAt(m), cfg.rules.protocol).1;
    if acks.Success? { AcknowledgedExactly(o.tables, acks.value, m); }
    ConsensusExactly(cfg, AcksGate(cfg, o, inv, k, m).0, inv, m);
  }

  function Waits(reason: string, reported: Option<string>): Answer {
    Answer(Returned(Pending, reported), [Stop(Pending, Some(reason))])
  }

  ghost function GatesAnswer(cfg: Config, o: Office, inv: Invocation, m: Message): Answer {
    match LoadLaw(cfg, o, inv, 4, "protocol", Moment(m), cfg.rules.protocol).1
    case Failure(e) => Rejects(e)
    case Success(acks) =>
      if !Acknowledged(o.tables, acks, m) then Waits("awaiting-protocol-acks-" + cfg.rules.decimal(AsManyAs(acks, m)), None)
      else if !ProposesAndAgrees(cfg, inv, o.replica, m) then Waits("awaiting-pbft-consensus", Some("awaiting-pbft-consensus"))
      else SealAnswer(inv, m)
  }

  function GateAnswer(cfg: Config, inv: Invocation, m: Message, gate: Gate): Answer {
    match gate
    case Shut(reason) => Rejects(reason)
    case AwaitingAcks(required) => Waits("awaiting-protocol-acks-" + cfg.rules.decimal(required), None)
    case AwaitingConsensus => Waits("awaiting-pbft-consensus", Some("awaiting-pbft-consensus"))
    case Open => SealAnswer(inv, m)
  }

  lemma ClosedGateAnswers(cfg: Config, o: Office, inv: Invocation, m: Message, gate: Gate)
    requires Track(cfg.digests, o.tables, m.id, Reviewed) && gate != Open
    ensures Gives(cfg, inv, m, o, Reviewed, AfterGates(cfg, o, inv, m, gate), GateAnswer(cfg, inv, m, gate))
  {
    match gate
    case Shut(reason) => ConcludeGives(cfg, o, inv, m, Reviewed, Rejected, Some(reason), Some(reason));
    case AwaitingAcks(required) =>
      ConcludeGives(cfg, o, inv, m, Reviewed, Pending, Some("awaiting-protocol-acks-" + cfg.rules.decimal(required)), None);
    case AwaitingConsensus =>
      ConcludeGives(cfg, o, inv, m, Reviewed, Pending, Some("awaiting-pbft-consensus"), Some("awaiting-pbft-consensus"));
  }

  lemma OpenGateAnswers(cfg: Config, o: Office, inv: Invocation, m: Message)
    requires Orderly(cfg, o) && StateFit(cfg, o.tables, m.id, Reviewed) && CopyOf(m, o.tables.messages[m.id].body)
    requires SealingWorks(cfg.crypto, inv.context)
    ensures Gives(cfg, inv, m, o, Reviewed, AfterGates(cfg, o, inv, m, Open), SealAnswer(inv, m))
  {
    OpenGates(cfg, o, inv, m);
    SealAnswers(cfg, o, inv, m, Reviewed);
  }

  lemma GatesAnswerIs(cfg: Config, o: Office, inv: Invocation, m: Message)
    ensures GatesAnswer(cfg, o, inv, m) == GateAnswer(cfg, inv, m, Gates(cfg, o, inv, 4, m).1)
  {
    GatesSay(cfg, o, inv, 4, m);
  }

  lemma SameGatesAnswer(cfg: Config, a: Office, b: Office, inv: Invocation, m: Message)
    requires SameDesk(a, b)
    ensures GatesAnswer(cfg, a, inv, m) == GatesAnswer(cfg, b, inv, m)
  {
    GatesAnswerIs(cfg, a, inv, m);
    GatesAnswerIs(cfg, b, inv, m);
    SameGate(cfg, a, b, inv, 4, m);
  }

  lemma GatedAnswers(cfg: Config, o: Office, inv: Invocation, m: Message)
    requires Orderly(cfg, o) && StateFit(cfg, o.tables, m.id, Reviewed) && CopyOf(m, o.tables.messages[m.id].body)
    requires SealingWorks(cfg.crypto, inv.context)
    ensures Gives(cfg, inv, m, o, Reviewed, AfterAuthorization(cfg, o, inv, m, None), GatesAnswer(cfg, o, inv, m))
  {
    var (o1, gate) := Gates(cfg, o, inv, 4, m);
    GatesConsult(cfg, o, inv, 4, m);
    GatesAnswerIs(cfg, o, inv, m);
    GateAnswers(cfg, o1, inv, m, gate);
  }

  lemma GateAnswers(cfg: Config, o: Office, inv: Invocation, m: Message, gate: Gate)
    requires Orderly(cfg, o) && StateFit(cfg, o.tables, m.id, Reviewed) && CopyOf(m, o.tables.messages[m.id].body)
    requires SealingWorks(cfg.crypto, inv.context)
    ensures Gives(cfg, inv, m, o, Reviewed, AfterGates(cfg, o, inv, m, gate), GateAnswer(cfg, inv, m, gate))
  {
    if gate == Open { OpenGateAnswers(cfg, o, inv, m); } else { ClosedGateAnswers(cfg, o, inv, m, gate); }
  }

  // ----- Authorization -----

  ghost function AuthorizationAnswer(cfg: Config, o: Office, inv: Invocation, m: Message): Answer {
    var (o1, appointment) := LoadLaw(cfg, o, inv, 3, "appointment", Moment(m), cfg.rules.appointment);
    match appointment
    case Failure(e) => Rejects(e)
    case Success(law) =>
      if m.actor.role !in law || "authorize" !in law[m.actor.role].permissions then Rejects("actor-cannot-authorize")
      else if !MayAuthorize(cfg.rules, law, m) then Rejects("hierarchy_violation")
      else GatesAnswer(cfg, o1, inv, m)
  }

  /** Authorization denies with a reason that is the answer, or goes on to the gates. */
  lemma AuthorizationSays(cfg: Config, o: Office, inv: Invocation, m: Message)
    ensures var (o1, appointment) := LoadLaw(cfg, o, inv, 3, "appointment", SnapshotAt(m), cfg.rules.appointment);
            var denied := Judge(appointment, law => AuthorizeUnder(cfg.rules, law, m));
            AuthorizationAnswer(cfg, o, inv, m) == if denied.Some? then Rejects(denied.value) else GatesAnswer(cfg, o1, inv, m)
  {
    var appointment := LoadLaw(cfg, o, inv, 3, "appointment", SnapshotAt(m), cfg.rules.appointment).1;
    if appointment.Success? { AuthorizationExactly(cfg.rules, appointment.value, m); }
  }

  lemma AfterAuthorizationAnswers(cfg: Config, o: Office, inv: Invocation, m: Message, denied: Option<string>)
    requires Orderly(cfg, o) && StateFit(cfg, o.tables, m.id, Reviewed) && CopyOf(m, o.tables.messages[m.id].body)
    requires SealingWorks(cfg.crypto, inv.context)
    ensures Gives(cfg, inv, m, o, Reviewed, AfterAuthorization(cfg, o, inv, m, denied),
                  if denied.Some? then Rejects(denied.value) else GatesAnswer(cfg, o, inv, m))
  {
    if denied.Some? {
      ConcludeGives(cfg, o, inv, m, Reviewed, Rejected, denied, denied);
    } else {
      GatedAnswers(cfg, o, inv, m);
    }
  }

  lemma AuthorizationAnswers(cfg: Config, o: Office, inv: Invocation, m: Message)
    requires Orderly(cfg, o) && StateFit(cfg, o.tables, m.id, Reviewed) && CopyOf(m, o.tables.messages[m.id].body)
    requires SealingWorks(cfg.crypto, inv.context)
    ensures Gives(cfg, inv, m, o, Reviewed, AuthorizeReviewed(cfg, o, inv, m), AuthorizationAnswer(cfg, o, inv, m))
  {
    var (o1, appointment) := LoadLaw(cfg, o, inv, 3, "appointment", SnapshotAt(m), cfg.rules.appointment);
    LoadLawConsults(cfg, o, inv, 3, "appointment", SnapshotAt(m), cfg.rules.appointment);
    AuthorizationSays(cfg, o, inv, m);
    AfterAuthorizationAnswers(cfg, o1, inv, m, Judge(appointment, law => AuthorizeUnder(cfg.rules, law, m)));
  }

  // ----- Reviews -----

  /** The first objection of the reviews, or what authorization then answers. */
  ghost function ReviewAnswer(cfg: Config, o: Office, inv: Invocation, m: Message): Answer {
    if m.payload.keys == {} then Rejects("empty-payload")
    else if !MayDraft(cfg.rules, m) then Rejects("hierarchy_violation")
    else if m.genre == "ti_definition" && !cfg.rules.isTypeDefinition(m) then Rejects("invalid-ti-definition")
    else if m.genre != "ti_definition" && !KnowsGenre(o.tables.types, m) then Rejects("invalid-constitutional-reference")
    else if m.genre != "ti_definition" && !FitsSchema(cfg.rules, o.tables.types, m, inv.schemaAt) then Rejects("schema-noncompliant")
    else LawReviewAnswer(cfg, o, inv, m)
  }

  ghost function LawReviewAnswer(cfg: Config, o: Office, inv: Invocation, m: Message): Answer {
    var (o1, appointment) := LoadLaw(cfg, o, inv, 1, "appointment", Moment(m), cfg.rules.appointment);
    AppointmentAnswer(cfg, o1, inv, m, appointment)
  }

  ghost function AppointmentAnswer(cfg: Config, o: Office, inv: Invocation, m: Message, appointment: Result<AppointmentLaw, string>):
    Answer
  {
    match appointment
    case Failure(e) => Rejects(e)
    case Success(law) =>
      if m.actor.role !in law || "review" !in law[m.actor.role].permissions then Rejects("actor-cannot-review")
      else if cfg.rules.isWorksGenre(m.genre) && !cfg.rules.canReviewGenre(m.actor.role, m.genre) then Rejects("hierarchy_violation")
      else if !MayReview(cfg.rules, law, m) then Rejects("genre-not-allowed-for-role")
      else ClassificationAnswer(cfg, o, inv, m)
  }

  ghost function ClassificationAnswer(cfg: Config, o: Office, inv: Invocation, m: Message): Answer {
    var (o1, classification) := LoadLaw(cfg, o, inv, 2, "classification", Moment(m), cfg.rules.classification);
    match classification
    case Failure(e) => Rejects(e)
    case Success(levels) =>
      if !ClearanceKnown(levels, m) then Rejects("classification-clearance-invalid")
      else Through(Reviewed, AuthorizationAnswer(cfg, o1, inv, m))
  }

  /** The reviews object with a reason that is the answer, or go on to authorization. */
  lemma ReviewSays(cfg: Config, o: Office, inv: Invocation, m: Message)
    ensures var (o1, denied) := Review(cfg, o, inv, m);
            ReviewAnswer(cfg, o, inv, m) ==
            if denied.Some? then Rejects(denied.value) else Through(Reviewed, AuthorizationAnswer(cfg, o1, inv, m))
  {
    DraftExactly(cfg.rules, m);
    SchemaReviewExactly(cfg.rules, o.tables.types, m, inv.schemaAt);
    var (o1, appointment) := LoadLaw(cfg, o, inv, 1, "appointment", SnapshotAt(m), cfg.rules.appointment);
    if appointment.Success? { ReviewExactly(cfg.rules, appointment.value, m); }
    var classification := LoadLaw(cfg, o1, inv, 2, "classification", SnapshotAt(m), cfg.rules.classification).1;
    if classification.Success? { ClearanceExactly(classification.value, m); }
  }

  lemma SameAuthorizationAnswer(cfg: Config, a: Office, b: Office, inv: Invocation, m: Message)
    requires SameDesk(a, b)
    ensures AuthorizationAnswer(cfg, a, inv, m) == AuthorizationAnswer(cfg, b, inv, m)
  {
    AuthorizationSays(cfg, a, inv, m);
    AuthorizationSays(cfg, b, inv, m);
    SameLaw(cfg, a, b, inv, 3, "appointment", Moment(m), cfg.rules.appointment);
    SameGatesAnswer(cfg, LoadLaw(cfg, a, inv, 3, "appointment", Moment(m), cfg.rules.appointment).0,
                    LoadLaw(cfg, b, inv, 3, "appointment", Moment(m), cfg.rules.appointment).0, inv, m);
  }

  lemma SameReviewAnswer(cfg: Config, a: Office, b: Office, inv: Invocation, m: Message)
    requires SameDesk(a, b)
    ensures ReviewAnswer(cfg, a, inv, m) == ReviewAnswer(cfg, b, inv, m)
  {
    ReviewSays(cfg, a, inv, m);
    ReviewSays(cfg, b, inv, m);
    SameReview(cfg, a, b, inv, m);
    SameAuthorizationAnswer(cfg, Review(cfg, a, inv, m).0, Review(cfg, b, inv, m).0, inv, m);
  }

  lemma AfterReviewAnswers(cfg: Config, o: Office, inv: Invocation, m: Message, denied: Option<string>)
    requires Orderly(cfg, o) && StateFit(cfg, o.tables, m.id, Validated) && CopyOf(m, o.tables.messages[m.id].body)
    requires SealingWorks(cfg.crypto, inv.context)
    ensures Gives(cfg, inv, m, o, Validated, AfterReview(cfg, o, inv, m, denied),
                  if denied.Some? then Rejects(denied.value) else Through(Reviewed, AuthorizationAnswer(cfg, o, inv, m)))
  {
    if denied.Some? {
      ConcludeGives(cfg, o, inv, m, Validated, Rejected, denied, denied);
    } else {
      AppendNextOnward(cfg, o, inv, m, Validated, Reviewed, None);
      AppendNextLeaves(cfg, o, inv, m, Validated, Reviewed, None);
      var reviewed := AppendNext(cfg, o, inv, m, Validated, Reviewed, None).value;
      AppendWrites(cfg, o, inv, m, Validated, Reviewed, None);
      AuthorizationAnswers(cfg, reviewed, inv, m);
      SameAuthorizationAnswer(cfg, o, reviewed, inv, m);
      ThroughGives(cfg, inv, m, o, reviewed, Validated, Reviewed, AuthorizeReviewed(cfg, reviewed, inv, m),
                   AuthorizationAnswer(cfg, reviewed, inv, m));
    }
  }

  lemma ReviewAnswers(cfg: Config, o: Office, inv: Invocation, m: Message)
    requires Orderly(cfg, o) && StateFit(cfg, o.tables, m.id, Validated) && CopyOf(m, o.tables.messages[m.id].body)
    requires SealingWorks(cfg.crypto, inv.context)
    ensures Gives(cfg, inv, m, o, Validated, ReviewValidated(cfg, o, inv, m), ReviewAnswer(cfg, o, inv, m))
  {
    var (o1, denied) := Review(cfg, o, inv, m);
    ReviewConsults(cfg, o, inv, m);
    ReviewSays(cfg, o, inv, m);
    AfterReviewAnswers(cfg, o1, inv, m, denied);
  }

  // ----- The docket step -----

  /** The stored message as a call of this moment takes it up. */
  function TakenUp(cfg: Config, o: Office, inv: Invocation, id: string): Message
    requires id in o.tables.messages
  {
    var body := o.tables.messages[id].body;
    body.(lawSnapshotAt := Some(inv.now), payload := body.payload.(keys := set k | k in body.payload.keys :: cfg.rules.trim(k)))
  }

  ghost function DocketAnswer(cfg: Config, o: Office, inv: Invocation, id: string): Answer
    requires id in o.tables.messages
  {
    var m := TakenUp(cfg, o, inv, id);
    var (o1, routing) := LoadLaw(cfg, o, inv, 0, "routing", inv.now, cfg.rules.routing);
    match routing
    case Failure(e) => Rejects(e)
    case Success(table) =>
      if r :| RoutedTo(table, m, r) then Through(Validated, ReviewAnswer(cfg, o1, inv, r)) else Rejects("routing-destination-disallowed")
  }

  lemma TakenUpIs(cfg: Config, o: Office, inv: Invocation, id: string)
    requires id in o.tables.messages
    ensures Normalized(cfg, o, inv, id) == TakenUp(cfg, o, inv, id) && Moment(TakenUp(cfg, o, inv, id)) == inv.now
  {
  }

  lemma RoutingSays(cfg: Config, o: Office, inv: Invocation, id: string)
    requires id in o.tables.messages
    ensures var (o1, routed) := ApplyRoutingLaw(cfg, o, inv, Normalized(cfg, o, inv, id));
            DocketAnswer(cfg, o, inv, id) ==
            if routed.Failure? then Rejects(routed.error) else Through(Validated, ReviewAnswer(cfg, o1, inv, routed.value))
  {
    var m := TakenUp(cfg, o, inv, id);
    TakenUpIs(cfg, o, inv, id);
    var routing := LoadLaw(cfg, o, inv, 0, "routing", inv.now, cfg.rules.routing).1;
    if routing.Success? { RouteExactly(routing.value, m); }
  }

  lemma AfterRoutingAnswers(cfg: Config, o: Office, inv: Invocation, normalized: Message, routed: Result<Message, string>)
    requires Orderly(cfg, o) && StateFit(cfg, o.tables, normalized.id, Pending)
    requires routed.Success? ==> routed.value.id == normalized.id && CopyOf(routed.value, o.tables.messages[normalized.id].body)
    requires routed.Success? ==> routed.value.actor == normalized.actor && SealingWorks(cfg.crypto, inv.context)
    ensures Gives(cfg, inv, normalized, o, Pending, AfterRouting(cfg, o, inv, normalized, routed),
                  if routed.Failure? then Rejects(routed.error) else Through(Validated, ReviewAnswer(cfg, o, inv, routed.value)))
  {
    match routed
    case Failure(reason) => ConcludeGives(cfg, o, inv, normalized, Pending, Rejected, Some(reason), Some(reason));
    case Success(m) =>
      AppendNextOnward(cfg, o, inv, m, Pending, Validated, None);
      AppendNextLeaves(cfg, o, inv, m, Pending, Validated, None);
      var validated := AppendNext(cfg, o, inv, m, Pending, Validated, None).value;
      AppendWrites(cfg, o, inv, m, Pending, Validated, None);
      ReviewAnswers(cfg, validated, inv, m);
      SameReviewAnswer(cfg, o, validated, inv, m);
      ThroughGives(cfg, inv, m, o, validated, Pending, Validated, ReviewValidated(cfg, validated, inv, m),
                   ReviewAnswer(cfg, validated, inv, m));
      SameWriter(cfg, inv, m, normalized, o, AfterRouting(cfg, o, inv, normalized, routed),
                 Through(Validated, ReviewAnswer(cfg, validated, inv, m)));
  }

  lemma {:induction false} SameRowsMade(d: Digests, inv: Invocation, a: Message, b: Message, from: MessageState, n: nat, prev: string,
                                        trail: seq<Stop>)
    requires a.id == b.id && a.actor == b.actor
    ensures RowsMade(d, inv, a, from, n, prev, trail) == RowsMade(d, inv, b, from, n, prev, trail)
    decreases |trail|
  {
    if trail != [] {
      var row := RowMade(d, inv, a, from, n, prev, trail[0]);
      SameRowsMade(d, inv, a, b, trail[0].to, n + 1, row.hash, trail[1..]);
    }
  }

  /** The rows name no more of a message than its id and its actor. */
  lemma SameWriter(cfg: Config, inv: Invocation, a: Message, b: Message, o: Office, r: (Office, Outcome), answer: Answer)
    requires a.id == b.id && a.actor == b.actor && Gives(cfg, inv, a, o, Pending, r, answer)
    ensures Gives(cfg, inv, b, o, Pending, r, answer)
  {
    var rows := RowsOf(o.tables.log, a.id);
    SameRowsMade(cfg.digests, inv, a, b, Pending, |rows|, LastHash(rows), answer.trail);
  }

  /** With working keys a docket step on a pending message returns this outcome, throws nothing, and its rows are those of
      this trail. */
  lemma DocketAnswers(cfg: Config, o: Office, inv: Invocation, id: string)
    requires Orderly(cfg, o) && StateFit(cfg, o.tables, id, Pending) && SealingWorks(cfg.crypto, inv.context)
    ensures Gives(cfg, inv, o.tables.messages[id].body, o, Pending, ProcessDocket(cfg, o, inv, id), DocketAnswer(cfg, o, inv, id))
  {
    assert o.tables.messages[id].body.id == id;
    var normalized := Normalized(cfg, o, inv, id);
    var (o1, routed) := ApplyRoutingLaw(cfg, o, inv, normalized);
    RoutedIsCopy(cfg, o, inv, id);
    RoutingConsults(cfg, o, inv, normalized);
    RoutingSays(cfg, o, inv, id);
    RoutedActor(cfg, o, inv, normalized);
    AfterRoutingAnswers(cfg, o1, inv, normalized, routed);
    SameWriter(cfg, inv, normalized, o.tables.messages[id].body, o, ProcessDocket(cfg, o, inv, id), DocketAnswer(cfg, o, inv, id));
  }

  lemma RoutedActor(cfg: Config, o: Office, inv: Invocation, m: Message)
    ensures var routed := ApplyRoutingLaw(cfg, o, inv, m).1; routed.Success? ==> routed.value.actor == m.actor
  {
  }

  // ----- One refusal -----

  const NOT_AUTHORIZED := Returned(Rejected, Some("actor-cannot-authorize"))

  /** The appointment law loads but does not let the author's role authorize. */
  ghost predicate NotPermitted(cfg: Config, o: Office, inv: Invocation, m: Message) {
    var law := LoadLaw(cfg, o, inv, 3, "appointment", Moment(m), cfg.rules.appointment).1;
    law.Success? && (m.actor.role !in law.value || "authorize" !in law.value[m.actor.role].permissions)
  }

  ghost predicate ClearedNotPermitted(cfg: Config, o: Office, inv: Invocation, m: Message) {
    var (o1, classification) := LoadLaw(cfg, o, inv, 2, "classification", Moment(m), cfg.rules.classification);
    classification.Success? && ClearanceKnown(classification.value, m) && NotPermitted(cfg, o1, inv, m)
  }

  /** Every review passes, and then that. */
  ghost predicate LacksPermission(cfg: Config, o: Office, inv: Invocation, m: Message) {
    && MayDraft(cfg.rules, m) && FitsDefinition(cfg.rules, o.tables.types, m, inv.schemaAt)
    && var (o1, appointment) := LoadLaw(cfg, o, inv, 1, "appointment", Moment(m), cfg.rules.appointment);
       appointment.Success? && MayReview(cfg.rules, appointment.value, m) && ClearedNotPermitted(cfg, o1, inv, m)
  }

  lemma ErrorStarts<T>(cfg: Config, o: Office, inv: Invocation, k: nat, lawType: string, at: int, parse: string -> Option<T>)
    ensures var law := LoadLaw(cfg, o, inv, k, lawType, at, parse).1;
            law.Failure? ==> lawType <= law.error
  {
  }

  lemma StartsOtherwise(lawType: string, reason: string)
    requires lawType in {"routing", "appointment", "classification", "protocol"} && lawType <= reason
    ensures reason != "actor-cannot-authorize"
  {
    assert reason[0] == lawType[0] && reason[1] == lawType[1];
    assert "actor-cannot-authorize"[0] == 'a' && "actor-cannot-authorize"[1] == 'c';
  }

  /** A law that does not load is not taken for it: the reason begins with the name of the law. */
  lemma LawReason<T>(cfg: Config, o: Office, inv: Invocation, k: nat, lawType: string, at: int, parse: string -> Option<T>)
    requires lawType in {"routing", "appointment", "classification", "protocol"}
    ensures var law := LoadLaw(cfg, o, inv, k, lawType, at, parse).1;
            law.Failure? ==> Rejects(law.error).outcome != NOT_AUTHORIZED
  {
    var law := LoadLaw(cfg, o, inv, k, lawType, at, parse).1;
    if law.Failure? {
      ErrorStarts(cfg, o, inv, k, lawType, at, parse);
      StartsOtherwise(lawType, law.error);
    }
  }

  lemma GatesReason(cfg: Config, o: Office, inv: Invocation, m: Message)
    ensures GatesAnswer(cfg, o, inv, m).outcome != NOT_AUTHORIZED
  {
    LawReason(cfg, o, inv, 4, "protocol", Moment(m), cfg.rules.protocol);
  }

  lemma AuthorizationReason(cfg: Config, o: Office, inv: Invocation, m: Message)
    ensures AuthorizationAnswer(cfg, o, inv, m).outcome == NOT_AUTHORIZED <==> NotPermitted(cfg, o, inv, m)
  {
    LawReason(cfg, o, inv, 3, "appointment", Moment(m), cfg.rules.appointment);
    GatesReason(cfg, LoadLaw(cfg, o, inv, 3, "appointment", Moment(m), cfg.rules.appointment).0, inv, m);
  }

  lemma ClassificationReason(cfg: Config, o: Office, inv: Invocation, m: Message)
    ensures ClassificationAnswer(cfg, o, inv, m).outcome == NOT_AUTHORIZED <==> ClearedNotPermitted(cfg, o, inv, m)
  {
    LawReason(cfg, o, inv, 2, "classification", Moment(m), cfg.rules.classification);
    AuthorizationReason(cfg, LoadLaw(cfg, o, inv, 2, "classification", Moment(m), cfg.rules.classification).0, inv, m);
  }

  lemma AppointmentReason(cfg: Config, o: Office, inv: Invocation, m: Message, appointment: Result<AppointmentLaw, string>)
    requires appointment.Failure? ==> Rejects(appointment.error).outcome != NOT_AUTHORIZED
    ensures AppointmentAnswer(cfg, o, inv, m, appointment).outcome == NOT_AUTHORIZED <==>
            appointment.Success? && MayReview(cfg.rules, appointment.value, m) && ClearedNotPermitted(cfg, o, inv, m)
  {
    ClassificationReason(cfg, o, inv, m);
  }

  lemma LawReviewReason(cfg: Config, o: Office, inv: Invocation, m: Message)
    ensures var (o1, appointment) := LoadLaw(cfg, o, inv, 1, "appointment", Moment(m), cfg.rules.appointment);
            LawReviewAnswer(cfg, o, inv, m).outcome == NOT_AUTHORIZED <==>
            appointment.Success? && MayReview(cfg.rules, appointment.value, m) && ClearedNotPermitted(cfg, o1, inv, m)
  {
    var (o1, appointment) := LoadLaw(cfg, o, inv, 1, "appointment", Moment(m), cfg.rules.appointment);
    LawReason(cfg, o, inv, 1, "appointment", Moment(m), cfg.rules.appointment);
    AppointmentReason(cfg, o1, inv, m, appointment);
  }

  lemma ReviewReason(cfg: Config, o: Office, inv: Invocation, m: Message)
    ensures ReviewAnswer(cfg, o, inv, m).outcome == NOT_AUTHORIZED <==> LacksPermission(cfg, o, inv, m)
  {
    LawReviewReason(cfg, o, inv, m);
  }

  /** A docket step on a pending message is refused for want of the permission to authorize exactly when the message is
      routed, every review passes, and the appointment law does not give its author's role that permission. */
  lemma CannotAuthorizeExactly(cfg: Config, o: Office, inv: Invocation, id: string)
    requires Orderly(cfg, o) && StateFit(cfg, o.tables, id, Pending) && SealingWorks(cfg.crypto, inv.context)
    ensures var (o1, routing) := LoadLaw(cfg, o, inv, 0, "routing", inv.now, cfg.rules.routing);
            ProcessDocket(cfg, o, inv, id).1 == NOT_AUTHORIZED <==>
            routing.Success? && exists r :: RoutedTo(routing.value, TakenUp(cfg, o, inv, id), r) && LacksPermission(cfg, o1, inv, r)
  {
    DocketAnswers(cfg, o, inv, id);
    DocketReason(cfg, o, inv, id);
  }

  lemma DocketReason(cfg: Config, o: Office, inv: Invocation, id: string)
    requires id in o.tables.messages
    ensures var (o1, routing) := LoadLaw(cfg, o, inv, 0, "routing", inv.now, cfg.rules.routing);
            DocketAnswer(cfg, o, inv, id).outcome == NOT_AUTHORIZED <==>
            routing.Success? && exists r :: RoutedTo(routing.value, TakenUp(cfg, o, inv, id), r) && LacksPermission(cfg, o1, inv, r)
  {
    var (o1, routing) := LoadLaw(cfg, o, inv, 0, "routing", inv.now, cfg.rules.routing);
    LawReason(cfg, o, inv, 0, "routing", inv.now, cfg.rules.routing);
    if routing.Success? {
      RouteExactly(routing.value, TakenUp(cfg, o, inv, id));
      forall r ensures ReviewAnswer(cfg, o1, inv, r).outcome == NOT_AUTHORIZED <==> LacksPermission(cfg, o1, inv, r) {
        ReviewReason(cfg, o1, inv, r);
      }
    }
  }

  // ----- Finalization -----

  /** What a finalization answers: it writes nothing unless it seals. */
  ghost function FinalizeAnswer(cfg: Config, o: Office, inv: Invocation, m: Message): Answer {
    match LoadLaw(cfg, o, inv, 0, "protocol", inv.now, cfg.rules.protocol).1
    case Failure(e) => Answer(Returned(Rejected, Some(e)), [])
    case Success(acks) =>
      if !Acknowledged(o.tables, acks, m) then Answer(Returned(Pending, Some("awaiting-protocol-acks")), [])
      else if !ProposesAndAgrees(cfg, inv, o.replica, m) then Answer(Returned(Pending, Some("awaiting-pbft-consensus")), [])
      else SealAnswer(inv, m)
  }

  function FinalizeGateAnswer(inv: Invocation, m: Message, gate: Gate): Answer {
    match gate
    case Shut(reason) => Answer(Returned(Rejected, Some(reason)), [])
    case AwaitingAcks(_) => Answer(Returned(Pending, Some("awaiting-protocol-acks")), [])
    case AwaitingConsensus => Answer(Returned(Pending, Some("awaiting-pbft-consensus")), [])
    case Open => SealAnswer(inv, m)
  }

  lemma FinalizeAnswerIs(cfg: Config, o: Office, inv: Invocation, m: Message)
    requires m.lawSnapshotAt == Some(inv.now)
    ensures FinalizeAnswer(cfg, o, inv, m) == FinalizeGateAnswer(inv, m, Gates(cfg, o, inv, 0, m).1)
  {
    GatesSay(cfg, o, inv, 0, m);
  }

  lemma FinalizeGated(cfg: Config, o: Office, inv: Invocation, m: Message, gate: Gate)
    requires Orderly(cfg, o) && StateFit(cfg, o.tables, m.id, Pending) && CopyOf(m, o.tables.messages[m.id].body)
    requires SealingWorks(cfg.crypto, inv.context)
    ensures Gives(cfg, inv, m, o, Pending, FinalizeAfterGates(cfg, o, inv, m, gate), FinalizeGateAnswer(inv, m, gate))
  {
    if gate == Open {
      OpenGates(cfg, o, inv, m);
      SealAnswers(cfg, o, inv, m, Pending);
    } else {
      WroteNothing(cfg.digests, inv, m, o.tables, o.tables, Pending);
    }
  }

  lemma FinalizeAnswers(cfg: Config, o: Office, inv: Invocation, id: string)
    requires Orderly(cfg, o) && StateFit(cfg, o.tables, id, Pending) && SealingWorks(cfg.crypto, inv.context)
    ensures var m := o.tables.messages[id].body.(lawSnapshotAt := Some(inv.now));
            Gives(cfg, inv, m, o, Pending, FinalizePending(cfg, o, inv, id), FinalizeAnswer(cfg, o, inv, m))
  {
    assert o.tables.messages[id].body.id == id;
    var m := o.tables.messages[id].body.(lawSnapshotAt := Some(inv.now));
    var (o1, gate) := Gates(cfg, o, inv, 0, m);
    GatesConsult(cfg, o, inv, 0, m);
    FinalizeAnswerIs(cfg, o, inv, m);
    FinalizeGated(cfg, o1, inv, m, gate);
  }
}
