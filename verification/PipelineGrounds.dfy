/** On what grounds a message can have been archived: the gates fail closed. */
module PipelineGrounds {
  import opened Wrappers
  import opened Kinds
  import opened SealChain
  import opened Archive
  import opened Law
  import opened LawResolver
  import opened LogShape
  import opened TypeDefinitions
  import opened Pipeline
  import opened PipelineSteps
  import opened PipelineEffects
  import opened PipelineTerms
  import Consensus
  import SealTerms

  /** The content was parsed from a law that was the present one as of a moment some call asked about. */
  ghost predicate InForce<T>(edicts: EdictIndex, history: set<Call>, lawType: string, parse: string -> Option<T>, content: T) {
    exists law :: Justified(edicts, history, lawType, Some(law)) && parse(law.content) == Some(content)
  }

  lemma InForceLonger<T>(edicts: EdictIndex, history: set<Call>, more: set<Call>, lawType: string, parse: string -> Option<T>,
                         content: T)
    requires InForce(edicts, history, lawType, parse, content) && history <= more
    ensures InForce(edicts, more, lawType, parse, content)
  {
    var law :| Justified(edicts, history, lawType, Some(law)) && parse(law.content) == Some(content);
    var c :| c in history && c.lawType == lawType && Ask(edicts, lawType, c.at) == Resolved(Some(law));
    assert c in more;
  }

  lemma LoadedIsInForce<T>(cfg: Config, o: Office, inv: Invocation, k: nat, lawType: string, at: int, parse: string -> Option<T>)
    requires CacheCoherent(cfg, o) && LoadLaw(cfg, o, inv, k, lawType, at, parse).1.Success?
    ensures var (after, content) := LoadLaw(cfg, o, inv, k, lawType, at, parse);
            InForce(o.tables.edicts, after.history, lawType, parse, content.value)
  {
    LookUpJustified(o.tables.edicts, cfg.ttlMs, o.history, o.cache, lawType, at, inv.lookups(k));
    var law := LookUp(o.tables.edicts, cfg.ttlMs, o.cache, lawType, at, inv.lookups(k)).law.value;
    assert Justified(o.tables.edicts, LoadLaw(cfg, o, inv, k, lawType, at, parse).0.history, lawType, Some(law));
  }

  // ----- The gates -----

  ghost predicate AcksMet(cfg: Config, t: Tables, history: set<Call>, m: Message, acks: map<string, int>) {
    && InForce(t.edicts, history, "protocol", cfg.rules.protocol, acks)
    && Acknowledged(t, acks, m)
  }

  lemma AcksGateOpen(cfg: Config, o: Office, inv: Invocation, k: nat, m: Message) returns (acks: map<string, int>)
    requires CacheCoherent(cfg, o) && AcksGate(cfg, o, inv, k, m).1 == Open
    ensures AcksMet(cfg, o.tables, AcksGate(cfg, o, inv, k, m).0.history, m, acks)
  {
    acks := LoadLaw(cfg, o, inv, k, "protocol", SnapshotAt(m), cfg.rules.protocol).1.value;
    AcknowledgedExactly(o.tables, acks, m);
    LoadedIsInForce(cfg, o, inv, k, "protocol", SnapshotAt(m), cfg.rules.protocol);
  }

  lemma ConsensusGateOpen(cfg: Config, o: Office, inv: Invocation, m: Message)
    ensures ConsensusGate(cfg, o, inv, m).0.history == o.history
    ensures ConsensusGate(cfg, o, inv, m).1 == Open ==>
              AgreedUpon(cfg, inv, ConsensusGate(cfg, o, inv, m).0.replica, m)
  {
    AgreedExactly(cfg, inv, ConsensusGate(cfg, o, inv, m).0.replica, m);
  }

  /** Open gates mean enough office approvals under a law in force, and agreement where agreement is needed. */
  lemma OpenGatesMean(cfg: Config, o: Office, inv: Invocation, k: nat, m: Message) returns (acks: map<string, int>)
    requires CacheCoherent(cfg, o) && Gates(cfg, o, inv, k, m).1 == Open
    ensures AcksMet(cfg, o.tables, Gates(cfg, o, inv, k, m).0.history, m, acks)
    ensures AgreedUpon(cfg, inv, Gates(cfg, o, inv, k, m).0.replica, m)
  {
    assert AcksGate(cfg, o, inv, k, m).1 == Open;
    acks := AcksGateOpen(cfg, o, inv, k, m);
    ConsensusGateOpen(cfg, AcksGate(cfg, o, inv, k, m).0, inv, m);
  }

  // ----- Sealing -----

  lemma {:induction false} MadeChainHadSignatures(c: Crypto, m: Message, context: SealContext, prevHash: string, clock: nat -> int, k: nat)
    requires k < 6 && ChainFrom(c, m, context, prevHash, clock, k).Success?
    ensures SealTerms.Enough(m, context)
    decreases 6 - k
  {
    ChainUnfolds(c, m, context, prevHash, clock, k);
    SealTerms.EnoughExactly(m, context);
    if k < 5 {
      var made := MakeSeal(c, STAGE_ORDER[k], m, context, prevHash, clock(k)).value;
      MadeChainHadSignatures(c, m, context, made.hash, clock, k + 1);
    }
  }

  predicate Archives(r: (Office, Outcome)) {
    r.1.Returned? && r.1.finalState == MessageState.Archived
  }

  lemma ArchiveNowLeaves(cfg: Config, o: Office, inv: Invocation, m: Message)
    ensures ArchiveNow(cfg, o, inv, m).0.history == o.history && ArchiveNow(cfg, o, inv, m).0.replica == o.replica
  {
  }

  lemma ArchivedHadChain(cfg: Config, o: Office, inv: Invocation, m: Message) returns (seals: seq<SealRecord>)
    requires Archives(SealAndArchive(cfg, o, inv, m))
    ensures NewChain(cfg.crypto, m, inv.context, inv.seals) == Success(seals)
    ensures SealAndArchive(cfg, o, inv, m) == ArchiveNow(cfg, o.(tables := PutSeals(o.tables, seals).0), inv, m)
  {
    seals := NewChain(cfg.crypto, m, inv.context, inv.seals).value;
  }

  lemma ArchivedWasSealed(cfg: Config, o: Office, inv: Invocation, m: Message)
    requires Archives(SealAndArchive(cfg, o, inv, m))
    ensures SealTerms.Enough(m, inv.context)
    ensures SealAndArchive(cfg, o, inv, m).0.history == o.history && SealAndArchive(cfg, o, inv, m).0.replica == o.replica
  {
    var seals := ArchivedHadChain(cfg, o, inv, m);
    ArchiveNowLeaves(cfg, o.(tables := PutSeals(o.tables, seals).0), inv, m);
    MadeChainHadSignatures(cfg.crypto, m, inv.context, "GENESIS", inv.seals, 0);
  }

  /** What a call that archived has sealed over, given the tables it started from. */
  ghost predicate SealingMet(cfg: Config, t: Tables, inv: Invocation, after: Office, m: Message, acks: map<string, int>) {
    AcksMet(cfg, t, after.history, m, acks) && AgreedUpon(cfg, inv, after.replica, m) && SealTerms.Enough(m, inv.context)
  }

  // ----- A finalization that archives -----

  /** Finalization archives only over enough approvals, agreement where needed and enough imperial signatures. */
  lemma FinalizedOnGrounds(cfg: Config, o: Office, inv: Invocation, id: string) returns (acks: map<string, int>)
    requires Orderly(cfg, o) && Archives(FinalizePending(cfg, o, inv, id))
    ensures id in o.tables.messages
    ensures var m, after := WithLawSnapshot(o.tables.messages[id].body, inv.now), FinalizePending(cfg, o, inv, id).0;
            SealingMet(cfg, o.tables, inv, after, m, acks)
  {
    var m := WithLawSnapshot(o.tables.messages[id].body, inv.now);
    acks := OpenGatesMean(cfg, o, inv, 0, m);
    ArchivedWasSealed(cfg, Gates(cfg, o, inv, 0, m).0, inv, m);
  }

  // ----- A docket step that archives -----

  /** What a docket step relied on: the routed message and the parsed contents of the laws. */
  datatype Grounds = Grounds(
    m: Message, routes: map<string, seq<string>>, reviewers: AppointmentLaw, levels: seq<string>,
    authorizers: AppointmentLaw, acks: map<string, int>)

  /** Every destination is one the routing law lists for the genre, if it lists any. */
  ghost predicate RouteMet(cfg: Config, edicts: EdictIndex, history: set<Call>, m: Message, routes: map<string, seq<string>>) {
    InForce(edicts, history, "routing", cfg.rules.routing, routes) &&
    (m.genre in routes && routes[m.genre] != [] ==>
       m.payload.destination != [] && forall d | d in m.payload.destination :: d in routes[m.genre])
  }

  /** Nothing in the message, its type definition, its author's role, its genre or its clearance speaks against it. */
  ghost predicate ReviewMet(cfg: Config, t: Tables, inv: Invocation, history: set<Call>, m: Message, reviewers: AppointmentLaw,
                            levels: seq<string>)
  {
    && MayDraft(cfg.rules, m) && FitsDefinition(cfg.rules, t.types, m, inv.schemaAt)
    && InForce(t.edicts, history, "appointment", cfg.rules.appointment, reviewers)
    && MayReview(cfg.rules, reviewers, m)
    && InForce(t.edicts, history, "classification", cfg.rules.classification, levels)
    && ClearanceKnown(levels, m)
  }

  ghost predicate AuthorizationMet(cfg: Config, edicts: EdictIndex, history: set<Call>, m: Message, authorizers: AppointmentLaw) {
    && InForce(edicts, history, "appointment", cfg.rules.appointment, authorizers)
    && MayAuthorize(cfg.rules, authorizers, m)
  }

  lemma ConcludedIsNotArchived(cfg: Config, o: Office, inv: Invocation, m: Message, from: MessageState, to: MessageState,
                               reason: Option<string>, reported: Option<string>)
    requires to != MessageState.Archived
    ensures !Archives(Conclude(cfg, o, inv, m, from, to, reason, reported))
  {
  }

  lemma ArchivedThroughOpenGates(cfg: Config, o: Office, inv: Invocation, m: Message, gate: Gate)
    requires Archives(AfterGates(cfg, o, inv, m, gate))
    ensures gate == Open
    ensures var after := AfterGates(cfg, o, inv, m, gate).0;
            SealTerms.Enough(m, inv.context) && after.history == o.history && after.replica == o.replica
  {
    if gate == Open {
      ArchivedWasSealed(cfg, o, inv, m);
    } else {
      var to, reason, reported := ShutOrWaiting(cfg, o, inv, m, gate);
      ConcludedIsNotArchived(cfg, o, inv, m, Reviewed, to, reason, reported);
    }
  }

  lemma AfterAuthorizationGrounds(cfg: Config, o: Office, inv: Invocation, m: Message, denied: Option<string>)
    returns (acks: map<string, int>)
    requires CacheCoherent(cfg, o) && Archives(AfterAuthorization(cfg, o, inv, m, denied))
    ensures denied.None?
    ensures var after := AfterAuthorization(cfg, o, inv, m, denied).0;
            SealingMet(cfg, o.tables, inv, after, m, acks) && o.history <= after.history
  {
    if denied.Some? { ConcludedIsNotArchived(cfg, o, inv, m, Reviewed, Rejected, denied, denied); }
    var (o1, gate) := Gates(cfg, o, inv, 4, m);
    ArchivedThroughOpenGates(cfg, o1, inv, m, gate);
    acks := OpenGatesMean(cfg, o, inv, 4, m);
    GatesConsult(cfg, o, inv, 4, m);
  }

  lemma AuthorizeReviewedGrounds(cfg: Config, o: Office, inv: Invocation, m: Message)
    returns (authorizers: AppointmentLaw, acks: map<string, int>)
    requires CacheCoherent(cfg, o) && Archives(AuthorizeReviewed(cfg, o, inv, m))
    ensures var after := AuthorizeReviewed(cfg, o, inv, m).0;
            AuthorizationMet(cfg, o.tables.edicts, after.history, m, authorizers) &&
            SealingMet(cfg, o.tables, inv, after, m, acks) && o.history <= after.history
  {
    var (o1, appointment) := LoadLaw(cfg, o, inv, 3, "appointment", SnapshotAt(m), cfg.rules.appointment);
    var denied := Judge(appointment, law => AuthorizeUnder(cfg.rules, law, m));
    LoadLawConsults(cfg, o, inv, 3, "appointment", SnapshotAt(m), cfg.rules.appointment);
    LookUpKeepsCoherent(o.tables.edicts, cfg.ttlMs, o.history, o.cache, "appointment", SnapshotAt(m), inv.lookups(3));
    acks := AfterAuthorizationGrounds(cfg, o1, inv, m, denied);
    LoadedIsInForce(cfg, o, inv, 3, "appointment", SnapshotAt(m), cfg.rules.appointment);
    authorizers := appointment.value;
    AuthorizationExactly(cfg.rules, authorizers, m);
    var after := AuthorizeReviewed(cfg, o, inv, m).0;
    InForceLonger(o.tables.edicts, o1.history, after.history, "appointment", cfg.rules.appointment, authorizers);
  }

  /** An append that does not archive leaves the laws, the approvals and the cache alone. */
  lemma AppendNextLeaves(cfg: Config, o: Office, inv: Invocation, m: Message, from: MessageState, to: MessageState, reason: Option<string>)
    requires AppendNext(cfg, o, inv, m, from, to, reason).Success? && to != MessageState.Archived
    ensures var after := AppendNext(cfg, o, inv, m, from, to, reason).value;
            after == o.(tables := after.tables) && after.tables.edicts == o.tables.edicts &&
            after.tables.types == o.tables.types && after.tables.approvals == o.tables.approvals &&
            (CacheCoherent(cfg, o) ==> CacheCoherent(cfg, after))
  {
    var tr := NextTransition(o.tables, inv, m, from, to, reason);
    EdictsAfterAppend(cfg.digests, o.tables, tr);
    AppendShape(cfg.digests, o.tables, tr);
  }

  lemma NothingObjected(rules: Rules, types: TypeIndex, m: Message, now: int)
    ensures Objection(rules, types, m, now).None? <==> MayDraft(rules, m) && FitsDefinition(rules, types, m, now)
  {
    DraftExactly(rules, m);
    SchemaReviewExactly(rules, types, m, now);
  }

  lemma ReviewPassed(cfg: Config, o: Office, inv: Invocation, m: Message) returns (reviewers: AppointmentLaw, levels: seq<string>)
    requires CacheCoherent(cfg, o) && Review(cfg, o, inv, m).1.None?
    ensures ReviewMet(cfg, o.tables, inv, Review(cfg, o, inv, m).0.history, m, reviewers, levels)
  {
    var (o1, appointment) := LoadLaw(cfg, o, inv, 1, "appointment", SnapshotAt(m), cfg.rules.appointment);
    var (o2, classification) := LoadLaw(cfg, o1, inv, 2, "classification", SnapshotAt(m), cfg.rules.classification);
    assert appointment.Success? && classification.Success?;
    reviewers, levels := appointment.value, classification.value;
    NothingObjected(cfg.rules, o.tables.types, m, inv.schemaAt);
    ReviewExactly(cfg.rules, reviewers, m);
    ClearanceExactly(levels, m);
    LoadedIsInForce(cfg, o, inv, 1, "appointment", SnapshotAt(m), cfg.rules.appointment);
    LookUpKeepsCoherent(o.tables.edicts, cfg.ttlMs, o.history, o.cache, "appointment", SnapshotAt(m), inv.lookups(1));
    LoadedIsInForce(cfg, o1, inv, 2, "classification", SnapshotAt(m), cfg.rules.classification);
    InForceLonger(o.tables.edicts, o1.history, o2.history, "appointment", cfg.rules.appointment, reviewers);
  }

  lemma ReviewMetLonger(cfg: Config, t: Tables, inv: Invocation, history: set<Call>, more: set<Call>, m: Message,
                        reviewers: AppointmentLaw, levels: seq<string>)
    requires ReviewMet(cfg, t, inv, history, m, reviewers, levels) && history <= more
    ensures ReviewMet(cfg, t, inv, more, m, reviewers, levels)
  {
    InForceLonger(t.edicts, history, more, "appointment", cfg.rules.appointment, reviewers);
    InForceLonger(t.edicts, history, more, "classification", cfg.rules.classification, levels);
  }

  lemma AfterReviewGrounds(cfg: Config, o: Office, inv: Invocation, m: Message, denied: Option<string>)
    returns (authorizers: AppointmentLaw, acks: map<string, int>)
    requires CacheCoherent(cfg, o) && Archives(AfterReview(cfg, o, inv, m, denied))
    ensures denied.None?
    ensures var after := AfterReview(cfg, o, inv, m, denied).0;
            AuthorizationMet(cfg, o.tables.edicts, after.history, m, authorizers) &&
            SealingMet(cfg, o.tables, inv, after, m, acks) && o.history <= after.history
  {
    if denied.Some? { ConcludedIsNotArchived(cfg, o, inv, m, Validated, Rejected, denied, denied); }
    var reviewed := AppendNext(cfg, o, inv, m, Validated, Reviewed, None).value;
    AppendNextLeaves(cfg, o, inv, m, Validated, Reviewed, None);
    authorizers, acks := AuthorizeReviewedGrounds(cfg, reviewed, inv, m);
  }

  lemma ReviewValidatedGrounds(cfg: Config, o: Office, inv: Invocation, m: Message)
    returns (reviewers: AppointmentLaw, levels: seq<string>, authorizers: AppointmentLaw, acks: map<string, int>)
    requires CacheCoherent(cfg, o) && Archives(ReviewValidated(cfg, o, inv, m))
    ensures var after := ReviewValidated(cfg, o, inv, m).0;
            ReviewMet(cfg, o.tables, inv, after.history, m, reviewers, levels) &&
            AuthorizationMet(cfg, o.tables.edicts, after.history, m, authorizers) &&
            SealingMet(cfg, o.tables, inv, after, m, acks) && o.history <= after.history
  {
    var (o1, denied) := Review(cfg, o, inv, m);
    ReviewCoherent(cfg, o, inv, m);
    authorizers, acks := AfterReviewGrounds(cfg, o1, inv, m, denied);
    reviewers, levels := ReviewPassed(cfg, o, inv, m);
    ReviewMetLonger(cfg, o.tables, inv, o1.history, ReviewValidated(cfg, o, inv, m).0.history, m, reviewers, levels);
  }

  lemma ReviewCoherent(cfg: Config, o: Office, inv: Invocation, m: Message)
    requires CacheCoherent(cfg, o)
    ensures var o1 := Review(cfg, o, inv, m).0;
            CacheCoherent(cfg, o1) && o1.tables == o.tables && o.history <= o1.history
  {
    var o1 := LoadLaw(cfg, o, inv, 1, "appointment", SnapshotAt(m), cfg.rules.appointment).0;
    LookUpKeepsCoherent(o.tables.edicts, cfg.ttlMs, o.history, o.cache, "appointment", SnapshotAt(m), inv.lookups(1));
    LookUpKeepsCoherent(o.tables.edicts, cfg.ttlMs, o1.history, o1.cache, "classification", SnapshotAt(m), inv.lookups(2));
  }

  lemma Routed(cfg: Config, o: Office, inv: Invocation, normalized: Message, m: Message) returns (routes: map<string, seq<string>>)
    requires CacheCoherent(cfg, o) && ApplyRoutingLaw(cfg, o, inv, normalized).1 == Success(m)
    ensures RouteMet(cfg, o.tables.edicts, ApplyRoutingLaw(cfg, o, inv, normalized).0.history, m, routes)
  {
    var law := LoadLaw(cfg, o, inv, 0, "routing", SnapshotAt(normalized), cfg.rules.routing).1;
    routes := law.value;
    RoutedExactly(routes, normalized, m);
    LoadedIsInForce(cfg, o, inv, 0, "routing", SnapshotAt(normalized), cfg.rules.routing);
  }

  /** Everything a docket step that archived has established before it sealed. */
  ghost predicate DocketMet(cfg: Config, t: Tables, inv: Invocation, after: Office, g: Grounds) {
    && RouteMet(cfg, t.edicts, after.history, g.m, g.routes)
    && ReviewMet(cfg, t, inv, after.history, g.m, g.reviewers, g.levels)
    && AuthorizationMet(cfg, t.edicts, after.history, g.m, g.authorizers)
    && SealingMet(cfg, t, inv, after, g.m, g.acks)
  }

  lemma AfterRoutingGrounds(cfg: Config, o: Office, inv: Invocation, normalized: Message, routed: Result<Message, string>)
    returns (reviewers: AppointmentLaw, levels: seq<string>, authorizers: AppointmentLaw, acks: map<string, int>)
    requires CacheCoherent(cfg, o) && Archives(AfterRouting(cfg, o, inv, normalized, routed))
    ensures routed.Success?
    ensures var after := AfterRouting(cfg, o, inv, normalized, routed).0;
            ReviewMet(cfg, o.tables, inv, after.history, routed.value, reviewers, levels) &&
            AuthorizationMet(cfg, o.tables.edicts, after.history, routed.value, authorizers) &&
            SealingMet(cfg, o.tables, inv, after, routed.value, acks) && o.history <= after.history
  {
    if routed.Failure? {
      ConcludedIsNotArchived(cfg, o, inv, normalized, Pending, Rejected, Some(routed.error), Some(routed.error));
    }
    var m := routed.value;
    var validated := AppendNext(cfg, o, inv, m, Pending, Validated, None).value;
    AppendNextLeaves(cfg, o, inv, m, Pending, Validated, None);
    reviewers, levels, authorizers, acks := ReviewValidatedGrounds(cfg, validated, inv, m);
  }

  /** A docket step archives only a routed, schema-conforming message whose author may draft, review and
      authorize it under appointment laws in force, whose clearance is known, with enough office approvals and
      imperial signatures and, where consensus is needed, a committed proposal. Every law it needed was found,
      unambiguous and well-formed. */
  lemma DocketArchivesOnGrounds(cfg: Config, o: Office, inv: Invocation, id: string) returns (g: Grounds)
    requires Orderly(cfg, o) && Archives(ProcessDocket(cfg, o, inv, id))
    ensures id in o.tables.messages
    ensures ApplyRoutingLaw(cfg, o, inv, Normalized(cfg, o, inv, id)).1 == Success(g.m)
    ensures DocketMet(cfg, o.tables, inv, ProcessDocket(cfg, o, inv, id).0, g)
  {
    var normalized := Normalized(cfg, o, inv, id);
    var (o1, routed) := ApplyRoutingLaw(cfg, o, inv, normalized);
    RoutingConsults(cfg, o, inv, normalized);
    var reviewers, levels, authorizers, acks := AfterRoutingGrounds(cfg, o1, inv, normalized, routed);
    var routes := Routed(cfg, o, inv, normalized, routed.value);
    g := Grounds(routed.value, routes, reviewers, levels, authorizers, acks);
    InForceLonger(o.tables.edicts, o1.history, ProcessDocket(cfg, o, inv, id).0.history, "routing", cfg.rules.routing, routes);
  }
}
