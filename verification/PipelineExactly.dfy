/** Exactly when a call archives: every condition is needed, and together they are enough. */
module PipelineExactly {
  import opened Wrappers
  import opened Kinds
  import Jwt
  import opened SealChain
  import opened Archive
  import opened Law
  import opened LawResolver
  import opened LogShape
  import opened Pipeline
  import opened PipelineSteps
  import opened PipelineEffects
  import opened PipelineGrounds
  import opened PipelineTerms
  import Consensus
  import SealTerms

  // ----- Sealing -----

  /** The keys sign and match, and the foreign code does what it is for. */
  ghost predicate SealingWorks(c: Crypto, context: SealContext) {
    && SignaturesVerify(c) && Jwt.Faithful(c.codec) && KeysMatch(c, context)
    && forall hash :: c.sign(hash, context.draftPrivateKey).Some? && c.sign(hash, context.masterPrivateKey).Some?
  }

  /** Enough imperial signatures, a provenance that is not blank, and a capability token, made when the fourth seal was, that
      is neither too young nor expired. */
  predicate SealsPass(inv: Invocation, m: Message) {
    && SealTerms.Enough(m, inv.context) && SealTerms.NotBlank(inv.context)
    && inv.seals(3) / 1000 <= inv.verifiedAt + 30 && inv.verifiedAt <= inv.seals(3) / 1000 + 300
  }

  /** The chain comes out exactly with enough signatures, and verifies exactly when the rest holds too. */
  lemma ChainPassesExactly(cfg: Config, inv: Invocation, m: Message)
    requires SealingWorks(cfg.crypto, inv.context)
    ensures var chain := NewChain(cfg.crypto, m, inv.context, inv.seals);
            if !SealTerms.Enough(m, inv.context) then chain == Failure(InsufficientImperialAuthority)
            else chain.Success? &&
                 (Verdict(cfg.crypto, m, chain.value, inv.context, inv.verifiedAt) == Some(true) <==> SealsPass(inv, m))
  {
    ChainCreated(cfg.crypto, m, inv.context, "GENESIS", inv.seals, 0);
    SealTerms.EnoughExactly(m, inv.context);
    SealTerms.NotBlankExactly(inv.context);
    if SealTerms.Enough(m, inv.context) {
      SealChainRoundTrip(cfg.crypto, m, inv.context, inv.seals, inv.verifiedAt);
    }
  }

  /** With working keys, sealing archives exactly when signatures, provenance and token window are all right, and
      otherwise rejects, saying which. */
  lemma SealAndArchiveExactly(cfg: Config, o: Office, inv: Invocation, m: Message, s: MessageState)
    requires Orderly(cfg, o) && Sealable(s) && StateFit(cfg, o.tables, m.id, s) && CopyOf(m, o.tables.messages[m.id].body)
    requires SealingWorks(cfg.crypto, inv.context)
    ensures SealAndArchive(cfg, o, inv, m).1 ==
            if !SealTerms.Enough(m, inv.context) then Returned(Rejected, Some("insufficient-imperial-authority"))
            else if !SealsPass(inv, m) then Returned(Rejected, Some("invalid-seal-chain"))
            else Returned(MessageState.Archived, None)
  {
    ChainPassesExactly(cfg, inv, m);
    if !SealTerms.Enough(m, inv.context) {
      RejectNowEnds(cfg, o, inv, m, s, "insufficient-imperial-authority");
    } else if !SealsPass(inv, m) {
      RejectNowEnds(cfg, o, inv, m, s, "invalid-seal-chain");
    } else {
      var seals := NewChain(cfg.crypto, m, inv.context, inv.seals).value;
      NewChainIsFresh(cfg.crypto, m, inv.context, inv.seals, seals);
      StoreAndArchiveEnds(cfg, o, inv, m, s, seals);
    }
  }

  lemma SealArchivesExactly(cfg: Config, o: Office, inv: Invocation, m: Message, s: MessageState)
    requires Orderly(cfg, o) && Sealable(s) && StateFit(cfg, o.tables, m.id, s) && CopyOf(m, o.tables.messages[m.id].body)
    requires SealingWorks(cfg.crypto, inv.context)
    ensures Archives(SealAndArchive(cfg, o, inv, m)) <==> SealsPass(inv, m)
  {
    SealAndArchiveExactly(cfg, o, inv, m, s);
  }

  /** What the two calls do behind the gates. */
  lemma BehindGates(cfg: Config, o: Office, inv: Invocation, m: Message, gate: Gate)
    ensures gate == Open ==> AfterGates(cfg, o, inv, m, gate) == SealAndArchive(cfg, o, inv, m)
    ensures gate == Open ==> FinalizeAfterGates(cfg, o, inv, m, gate) == SealAndArchive(cfg, o, inv, m)
    ensures gate != Open ==> !Archives(AfterGates(cfg, o, inv, m, gate)) && !Archives(FinalizeAfterGates(cfg, o, inv, m, gate))
  {
  }

  // ----- Finalization -----

  lemma FinalizeAfterGatesExactly(cfg: Config, o: Office, inv: Invocation, m: Message, gate: Gate)
    requires Orderly(cfg, o) && StateFit(cfg, o.tables, m.id, Pending) && CopyOf(m, o.tables.messages[m.id].body)
    requires SealingWorks(cfg.crypto, inv.context)
    ensures Archives(FinalizeAfterGates(cfg, o, inv, m, gate)) <==> gate == Open && SealsPass(inv, m)
  {
    BehindGates(cfg, o, inv, m, gate);
    if gate == Open { SealArchivesExactly(cfg, o, inv, m, Pending); }
  }

  /** The protocol law's approvals are there, and agreement where it is needed. */
  ghost predicate GatesPass(cfg: Config, o: Office, inv: Invocation, k: nat, m: Message) {
    var acks := LoadLaw(cfg, o, inv, k, "protocol", Moment(m), cfg.rules.protocol).1;
    acks.Success? && Acknowledged(o.tables, acks.value, m) && ProposesAndAgrees(cfg, inv, o.replica, m)
  }

  lemma GatesExactly(cfg: Config, o: Office, inv: Invocation, k: nat, m: Message)
    ensures Gates(cfg, o, inv, k, m).1 == Open <==> GatesPass(cfg, o, inv, k, m)
  {
    var (o1, acks) := LoadLaw(cfg, o, inv, k, "protocol", SnapshotAt(m), cfg.rules.protocol);
    if acks.Success? { AcknowledgedExactly(o.tables, acks.value, m); }
    ConsensusExactly(cfg, AcksGate(cfg, o, inv, k, m).0, inv, m);
  }

  /** Finalizing a pending message archives it exactly when the gates are open and the seals pass. */
  lemma FinalizeArchivesExactly(cfg: Config, o: Office, inv: Invocation, id: string)
    requires Orderly(cfg, o) && StateFit(cfg, o.tables, id, Pending) && SealingWorks(cfg.crypto, inv.context)
    ensures Archives(FinalizePending(cfg, o, inv, id)) <==>
              var m := o.tables.messages[id].body.(lawSnapshotAt := Some(inv.now));
              GatesPass(cfg, o, inv, 0, m) && SealsPass(inv, m)
  {
    assert o.tables.messages[id].body.id == id;
    var m := WithLawSnapshot(o.tables.messages[id].body, inv.now);
    var (o1, gate) := Gates(cfg, o, inv, 0, m);
    GatesConsult(cfg, o, inv, 0, m);
    GatesExactly(cfg, o, inv, 0, m);
    FinalizeAfterGatesExactly(cfg, o1, inv, m, gate);
  }

  // ----- The docket step -----

  /** The two offices differ in their logs and seals at most: whatever is decided in one is decided in the other. */
  predicate SameDesk(a: Office, b: Office) {
    && a.tables.edicts == b.tables.edicts && a.tables.types == b.tables.types && a.tables.approvals == b.tables.approvals
    && a.cache == b.cache && a.history == b.history && a.replica == b.replica
  }

  lemma SameLaw<T>(cfg: Config, a: Office, b: Office, inv: Invocation, k: nat, lawType: string, at: int, parse: string -> Option<T>)
    requires SameDesk(a, b)
    ensures LoadLaw(cfg, a, inv, k, lawType, at, parse).1 == LoadLaw(cfg, b, inv, k, lawType, at, parse).1
    ensures SameDesk(LoadLaw(cfg, a, inv, k, lawType, at, parse).0, LoadLaw(cfg, b, inv, k, lawType, at, parse).0)
  {
  }

  lemma SameReview(cfg: Config, a: Office, b: Office, inv: Invocation, m: Message)
    requires SameDesk(a, b)
    ensures Review(cfg, a, inv, m).1 == Review(cfg, b, inv, m).1
    ensures SameDesk(Review(cfg, a, inv, m).0, Review(cfg, b, inv, m).0)
  {
    var x := LoadLaw(cfg, a, inv, 1, "appointment", SnapshotAt(m), cfg.rules.appointment).0;
    var y := LoadLaw(cfg, b, inv, 1, "appointment", SnapshotAt(m), cfg.rules.appointment).0;
    SameLaw(cfg, a, b, inv, 1, "appointment", SnapshotAt(m), cfg.rules.appointment);
    SameLaw(cfg, x, y, inv, 2, "classification", SnapshotAt(m), cfg.rules.classification);
  }

  lemma SameGate(cfg: Config, a: Office, b: Office, inv: Invocation, k: nat, m: Message)
    requires SameDesk(a, b)
    ensures Gates(cfg, a, inv, k, m).1 == Gates(cfg, b, inv, k, m).1
  {
    SameLaw(cfg, a, b, inv, k, "protocol", SnapshotAt(m), cfg.rules.protocol);
  }

  /** The author may authorize the message and the gates are open. */
  ghost predicate AuthorizationPasses(cfg: Config, o: Office, inv: Invocation, m: Message) {
    var (o1, appointment) := LoadLaw(cfg, o, inv, 3, "appointment", Moment(m), cfg.rules.appointment);
    appointment.Success? && MayAuthorize(cfg.rules, appointment.value, m) && GatesPass(cfg, o1, inv, 4, m)
  }

  ghost predicate ReviewPasses(cfg: Config, o: Office, inv: Invocation, m: Message) {
    && MayDraft(cfg.rules, m) && FitsDefinition(cfg.rules, o.tables.types, m, inv.schemaAt)
    && var (o1, appointment) := LoadLaw(cfg, o, inv, 1, "appointment", Moment(m), cfg.rules.appointment);
       appointment.Success? && MayReview(cfg.rules, appointment.value, m) &&
       var (o2, classification) := LoadLaw(cfg, o1, inv, 2, "classification", Moment(m), cfg.rules.classification);
       classification.Success? && ClearanceKnown(classification.value, m) && AuthorizationPasses(cfg, o2, inv, m)
  }

  /** All that is decided about a message before it is sealed, as it stands when the call begins. */
  ghost predicate DocketPasses(cfg: Config, o: Office, inv: Invocation, id: string)
    requires id in o.tables.messages
  {
    var m := Normalized(cfg, o, inv, id);
    var (o1, routes) := LoadLaw(cfg, o, inv, 0, "routing", Moment(m), cfg.rules.routing);
    routes.Success? && exists r :: RoutedTo(routes.value, m, r) && ReviewPasses(cfg, o1, inv, r)
  }

  /** What the code asks about authorization. */
  predicate AuthorizesAndOpens(cfg: Config, o: Office, inv: Invocation, m: Message) {
    var (o1, appointment) := LoadLaw(cfg, o, inv, 3, "appointment", SnapshotAt(m), cfg.rules.appointment);
    Judge(appointment, law => AuthorizeUnder(cfg.rules, law, m)).None? && Gates(cfg, o1, inv, 4, m).1 == Open
  }

  lemma AuthorizedIs(cfg: Config, o: Office, inv: Invocation, m: Message)
    ensures AuthorizesAndOpens(cfg, o, inv, m) <==> AuthorizationPasses(cfg, o, inv, m)
  {
    var (o1, appointment) := LoadLaw(cfg, o, inv, 3, "appointment", SnapshotAt(m), cfg.rules.appointment);
    if appointment.Success? { AuthorizationExactly(cfg.rules, appointment.value, m); }
    GatesExactly(cfg, o1, inv, 4, m);
  }

  lemma ReviewedIs(cfg: Config, o: Office, inv: Invocation, m: Message)
    ensures Review(cfg, o, inv, m).1.None? && AuthorizationPasses(cfg, Review(cfg, o, inv, m).0, inv, m) <==>
            ReviewPasses(cfg, o, inv, m)
  {
    NothingObjected(cfg.rules, o.tables.types, m, inv.schemaAt);
    var (o1, appointment) := LoadLaw(cfg, o, inv, 1, "appointment", SnapshotAt(m), cfg.rules.appointment);
    if appointment.Success? { ReviewExactly(cfg.rules, appointment.value, m); }
    var classification := LoadLaw(cfg, o1, inv, 2, "classification", SnapshotAt(m), cfg.rules.classification).1;
    if classification.Success? { ClearanceExactly(classification.value, m); }
  }

  lemma SameAuthorization(cfg: Config, a: Office, b: Office, inv: Invocation, m: Message)
    requires SameDesk(a, b)
    ensures AuthorizationPasses(cfg, a, inv, m) <==> AuthorizationPasses(cfg, b, inv, m)
  {
    SameLaw(cfg, a, b, inv, 3, "appointment", SnapshotAt(m), cfg.rules.appointment);
    AuthorizedIs(cfg, a, inv, m);
    AuthorizedIs(cfg, b, inv, m);
    SameGate(cfg, LoadLaw(cfg, a, inv, 3, "appointment", SnapshotAt(m), cfg.rules.appointment).0,
             LoadLaw(cfg, b, inv, 3, "appointment", SnapshotAt(m), cfg.rules.appointment).0, inv, 4, m);
  }

  lemma SameReviewPasses(cfg: Config, a: Office, b: Office, inv: Invocation, m: Message)
    requires SameDesk(a, b)
    ensures ReviewPasses(cfg, a, inv, m) <==> ReviewPasses(cfg, b, inv, m)
  {
    SameReview(cfg, a, b, inv, m);
    ReviewedIs(cfg, a, inv, m);
    ReviewedIs(cfg, b, inv, m);
    SameAuthorization(cfg, Review(cfg, a, inv, m).0, Review(cfg, b, inv, m).0, inv, m);
  }

  lemma AfterGatesExactly(cfg: Config, o: Office, inv: Invocation, m: Message, gate: Gate)
    requires Orderly(cfg, o) && StateFit(cfg, o.tables, m.id, Reviewed) && CopyOf(m, o.tables.messages[m.id].body)
    requires SealingWorks(cfg.crypto, inv.context)
    ensures Archives(AfterGates(cfg, o, inv, m, gate)) <==> gate == Open && SealsPass(inv, m)
  {
    BehindGates(cfg, o, inv, m, gate);
    if gate == Open { SealArchivesExactly(cfg, o, inv, m, Reviewed); }
  }

  lemma AfterAuthorizationExactly(cfg: Config, o: Office, inv: Invocation, m: Message, denied: Option<string>)
    requires Orderly(cfg, o) && StateFit(cfg, o.tables, m.id, Reviewed) && CopyOf(m, o.tables.messages[m.id].body)
    requires SealingWorks(cfg.crypto, inv.context)
    ensures Archives(AfterAuthorization(cfg, o, inv, m, denied)) <==>
              denied.None? && Gates(cfg, o, inv, 4, m).1 == Open && SealsPass(inv, m)
  {
    if denied.Some? {
      ConcludedIsNotArchived(cfg, o, inv, m, Reviewed, Rejected, denied, denied);
    } else {
      var (o1, gate) := Gates(cfg, o, inv, 4, m);
      GatesConsult(cfg, o, inv, 4, m);
      AfterGatesExactly(cfg, o1, inv, m, gate);
    }
  }

  lemma AuthorizeReviewedExactly(cfg: Config, o: Office, inv: Invocation, m: Message)
    requires Orderly(cfg, o) && StateFit(cfg, o.tables, m.id, Reviewed) && CopyOf(m, o.tables.messages[m.id].body)
    requires SealingWorks(cfg.crypto, inv.context)
    ensures Archives(AuthorizeReviewed(cfg, o, inv, m)) <==> AuthorizationPasses(cfg, o, inv, m) && SealsPass(inv, m)
  {
    var (o1, appointment) := LoadLaw(cfg, o, inv, 3, "appointment", SnapshotAt(m), cfg.rules.appointment);
    LoadLawConsults(cfg, o, inv, 3, "appointment", SnapshotAt(m), cfg.rules.appointment);
    AuthorizedIs(cfg, o, inv, m);
    AfterAuthorizationExactly(cfg, o1, inv, m, Judge(appointment, law => AuthorizeUnder(cfg.rules, law, m)));
  }

  lemma AfterReviewExactly(cfg: Config, o: Office, inv: Invocation, m: Message, denied: Option<string>)
    requires Orderly(cfg, o) && StateFit(cfg, o.tables, m.id, Validated) && CopyOf(m, o.tables.messages[m.id].body)
    requires SealingWorks(cfg.crypto, inv.context)
    ensures Archives(AfterReview(cfg, o, inv, m, denied)) <==>
              denied.None? && AuthorizationPasses(cfg, o, inv, m) && SealsPass(inv, m)
  {
    if denied.Some? {
      ConcludedIsNotArchived(cfg, o, inv, m, Validated, Rejected, denied, denied);
    } else {
      AppendNextOnward(cfg, o, inv, m, Validated, Reviewed, None);
      AppendNextLeaves(cfg, o, inv, m, Validated, Reviewed, None);
      var reviewed := AppendNext(cfg, o, inv, m, Validated, Reviewed, None).value;
      AuthorizeReviewedExactly(cfg, reviewed, inv, m);
      SameAuthorization(cfg, o, reviewed, inv, m);
    }
  }

  lemma ReviewValidatedExactly(cfg: Config, o: Office, inv: Invocation, m: Message)
    requires Orderly(cfg, o) && StateFit(cfg, o.tables, m.id, Validated) && CopyOf(m, o.tables.messages[m.id].body)
    requires SealingWorks(cfg.crypto, inv.context)
    ensures Archives(ReviewValidated(cfg, o, inv, m)) <==> ReviewPasses(cfg, o, inv, m) && SealsPass(inv, m)
  {
    var (o1, denied) := Review(cfg, o, inv, m);
    ReviewConsults(cfg, o, inv, m);
    ReviewedIs(cfg, o, inv, m);
    AfterReviewExactly(cfg, o1, inv, m, denied);
  }

  lemma AfterRoutingExactly(cfg: Config, o: Office, inv: Invocation, normalized: Message, routed: Result<Message, string>)
    requires Orderly(cfg, o) && StateFit(cfg, o.tables, normalized.id, Pending)
    requires routed.Success? ==> routed.value.id == normalized.id && CopyOf(routed.value, o.tables.messages[normalized.id].body)
    requires SealingWorks(cfg.crypto, inv.context)
    ensures Archives(AfterRouting(cfg, o, inv, normalized, routed)) <==>
              routed.Success? && ReviewPasses(cfg, o, inv, routed.value) && SealsPass(inv, routed.value)
  {
    match routed
    case Failure(reason) =>
      ConcludedIsNotArchived(cfg, o, inv, normalized, Pending, Rejected, Some(reason), Some(reason));
    case Success(m) =>
      AppendNextOnward(cfg, o, inv, m, Pending, Validated, None);
      AppendNextLeaves(cfg, o, inv, m, Pending, Validated, None);
      var validated := AppendNext(cfg, o, inv, m, Pending, Validated, None).value;
      ReviewValidatedExactly(cfg, validated, inv, m);
      SameReviewPasses(cfg, o, validated, inv, m);
  }

  /** A docket step archives a pending message exactly when routing, review and authorization pass, the gates are
      open and the seals pass, all judged by the laws, approvals and votes as they stand when the call begins. */
  lemma DocketArchivesExactly(cfg: Config, o: Office, inv: Invocation, id: string)
    requires Orderly(cfg, o) && StateFit(cfg, o.tables, id, Pending) && SealingWorks(cfg.crypto, inv.context)
    ensures Archives(ProcessDocket(cfg, o, inv, id)) <==>
              DocketPasses(cfg, o, inv, id) && SealsPass(inv, o.tables.messages[id].body)
  {
    assert o.tables.messages[id].body.id == id;
    DocketPassesIs(cfg, o, inv, id);
    var normalized := Normalized(cfg, o, inv, id);
    var (o1, routed) := ApplyRoutingLaw(cfg, o, inv, normalized);
    RoutedIsCopy(cfg, o, inv, id);
    RoutingConsults(cfg, o, inv, normalized);
    AfterRoutingExactly(cfg, o1, inv, normalized, routed);
    if routed.Success? { SealsPassForCopy(inv, routed.value, o.tables.messages[id].body); }
  }

  lemma DocketPassesIs(cfg: Config, o: Office, inv: Invocation, id: string)
    requires id in o.tables.messages
    ensures var (o1, routed) := ApplyRoutingLaw(cfg, o, inv, Normalized(cfg, o, inv, id));
            DocketPasses(cfg, o, inv, id) <==> routed.Success? && ReviewPasses(cfg, o1, inv, routed.value)
  {
    var m := Normalized(cfg, o, inv, id);
    var (o1, routes) := LoadLaw(cfg, o, inv, 0, "routing", SnapshotAt(m), cfg.rules.routing);
    if routes.Success? { RouteExactly(routes.value, m); }
  }

  lemma SealsPassForCopy(inv: Invocation, m: Message, body: Message)
    requires CopyOf(m, body)
    ensures SealsPass(inv, m) <==> SealsPass(inv, body)
  {
  }
}
