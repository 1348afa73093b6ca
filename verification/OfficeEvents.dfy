/** What each event of a run does to the office, in terms of its tables, its cache and its replica. */
module OfficeEvents {
  import opened Wrappers
  import opened Kinds
  import opened Archive
  import opened LawResolver
  import opened LogShape
  import opened Pipeline
  import opened PipelineExactly
  import opened PipelineAnswers
  import opened PipelineEffects
  import opened PipelineSteps
  import opened PipelineRuns
  import opened PipelineTrail
  import opened OfficeRuns
  import Consensus
  import Law

  /** A message comes in, if its id is free and the one it names is there. */
  lemma SubmissionDoes(cfg: Config, o: Office, m: Message, receivedAt: int)
    ensures var after := Step(cfg, o, Submission(m, receivedAt));
            var named := if m.payload.supersededBy.Some? then m.payload.supersededBy else m.payload.supersededEdictId;
            if m.id !in o.tables.messages && (named.Some? ==> named.value == m.id || named.value in o.tables.messages)
            then after == o.(tables := o.tables.(messages := after.tables.messages)) &&
                 after.tables.messages.Keys == o.tables.messages.Keys + {m.id} && after.tables.messages[m.id].body == m &&
                 after.tables.messages[m.id].archivedAt == None &&
                 forall x | x in o.tables.messages :: after.tables.messages[x] == o.tables.messages[x]
            else after == o
  {
  }

  /** An office approves a message that is there. */
  lemma ApprovalDoes(cfg: Config, o: Office, id: string, office: string)
    ensures var after := Step(cfg, o, Approval(id, office));
            after == o.(tables := o.tables.(approvals := after.tables.approvals)) &&
            forall p :: p in after.tables.approvals <==> p in o.tables.approvals || (p == (id, office) && id in o.tables.messages)
  {
  }

  /** A law is read: the call is remembered; without a live answer, what the query finds is kept for the cache's lifetime, unless
      it is ambiguous. */
  lemma LawReadDoes(cfg: Config, o: Office, lawType: string, at: int, nowMs: int)
    ensures var after, found := Step(cfg, o, LawRead(lawType, at, nowMs)), Law.GetCurrentLaw(o.tables.edicts, lawType, at);
            after.tables == o.tables && after.replica == o.replica && after.history == o.history + {Call(lawType, at, nowMs)} &&
            after.cache ==
            if (lawType in o.cache && nowMs < o.cache[lawType].expiresAtMs) || found == Law.Ambiguous then o.cache
            else o.cache[lawType := Entry(if found.Found? then Some(found.law) else None, nowMs + cfg.ttlMs)]
  {
  }

  lemma LawDropDoes(cfg: Config, o: Office, dropped: Option<string>)
    ensures Step(cfg, o, LawDrop(dropped)) == o.(cache := if dropped.None? then map[] else o.cache - {dropped.value})
  {
  }

  /** A message of the agreement reaches the replica, if there is one: received, proposed, or a change of view. */
  lemma AgreementDoes(cfg: Config, o: Office, message: Consensus.Event, viewChangeId: nat -> string)
    ensures var after := Step(cfg, o, Agreement(message, viewChangeId));
            if o.replica.None? then after == o
            else
              var r := o.replica.value;
              after == o.(replica := after.replica) && after.replica.Some? &&
              after.replica.value ==
              match message
              case Receive(msg, phase) => Consensus.AppendMessage(cfg.signer, cfg.pbft, r, msg, phase).0
              case Propose(p, leader, at) =>
                Consensus.SignAndAppend(cfg.signer, cfg.pbft, r,
                                        Consensus.ToSign(p, r.viewNo, leader, Consensus.PrePrepare, at)).0
              case ChangeView(node, at) =>
                Consensus.SignAndAppend(cfg.signer, cfg.pbft, r.(viewNo := r.viewNo + 1),
                                        Consensus.ToSign(viewChangeId(r.viewNo + 1), r.viewNo + 1, node, Consensus.ViewChange, at)).0
  {
  }

  lemma DocketWrites(cfg: Config, o: Office, inv: Invocation, id: string, after: Tables)
    requires Orderly(cfg, o) && StateFit(cfg, o.tables, id, Pending) && SealingWorks(cfg.crypto, inv.context)
    requires after == ProcessDocket(cfg, o, inv, id).0.tables
    ensures Wrote(cfg.digests, inv, o.tables.messages[id].body, o.tables, after, Pending, DocketAnswer(cfg, o, inv, id).trail)
  {
    DocketAnswers(cfg, o, inv, id);
  }

  lemma DocketStepIs(cfg: Config, o: Office, id: string, inv: Invocation)
    ensures Step(cfg, o, Docket(id, inv)) == ProcessDocket(cfg, o, inv, id).0
  {
  }

  /** A docket step on a pending message writes the rows of its answer's trail. */
  lemma DocketDoes(cfg: Config, o: Office, id: string, inv: Invocation, after: Office)
    requires OfficeSound(cfg, o) && id in o.tables.messages && CurrentState(o.tables, id) == Pending
    requires SealingWorks(cfg.crypto, inv.context) && after == Step(cfg, o, Docket(id, inv))
    ensures Wrote(cfg.digests, inv, o.tables.messages[id].body, o.tables, after.tables, Pending, DocketAnswer(cfg, o, inv, id).trail)
  {
    PendingFits(cfg, o, id);
    DocketStepIs(cfg, o, id, inv);
    DocketWrites(cfg, o, inv, id, after.tables);
  }

  lemma NothingThrown(cfg: Config, o: Office, inv: Invocation, id: string)
    requires Orderly(cfg, o) && StateFit(cfg, o.tables, id, Pending) && SealingWorks(cfg.crypto, inv.context)
    ensures ProcessDocket(cfg, o, inv, id).1.Returned?
  {
    DocketAnswers(cfg, o, inv, id);
    AnswerReturns(cfg, o, inv, id);
  }

  lemma NoCatch(cfg: Config, o: Office, inv: Invocation, id: string, nowMs: int, reason: string, r: (Office, Outcome))
    requires r == ProcessDocket(cfg, o, inv, id) && r.1.Returned?
    ensures Work(cfg, o, inv, id, nowMs, reason) == r.0
  {
  }

  lemma WorkerStepIs(cfg: Config, o: Office, id: string, inv: Invocation, nowMs: int, reason: string)
    ensures Step(cfg, o, Worker(id, inv, nowMs, reason)) == Work(cfg, o, inv, id, nowMs, reason)
  {
  }

  /** So does the worker: with working keys nothing is thrown, and its catch path has nothing to do. */
  lemma WorkerDoes(cfg: Config, o: Office, id: string, inv: Invocation, nowMs: int, reason: string)
    requires OfficeSound(cfg, o) && id in o.tables.messages && CurrentState(o.tables, id) == Pending
    requires SealingWorks(cfg.crypto, inv.context)
    ensures Step(cfg, o, Worker(id, inv, nowMs, reason)) == Step(cfg, o, Docket(id, inv))
  {
    PendingFits(cfg, o, id);
    NothingThrown(cfg, o, inv, id);
    WorkerStepIs(cfg, o, id, inv, nowMs, reason);
    NoCatch(cfg, o, inv, id, nowMs, reason, ProcessDocket(cfg, o, inv, id));
    DocketStepIs(cfg, o, id, inv);
  }

  lemma FinalizationWrites(cfg: Config, o: Office, inv: Invocation, id: string, m: Message, after: Tables)
    requires Orderly(cfg, o) && StateFit(cfg, o.tables, id, Pending) && SealingWorks(cfg.crypto, inv.context)
    requires m == o.tables.messages[id].body.(lawSnapshotAt := Some(inv.now)) && after == FinalizePending(cfg, o, inv, id).0.tables
    ensures Wrote(cfg.digests, inv, m, o.tables, after, Pending, FinalizeAnswer(cfg, o, inv, m).trail)
  {
    FinalizeAnswers(cfg, o, inv, id);
  }

  lemma FinalizationStepIs(cfg: Config, o: Office, id: string, inv: Invocation)
    ensures Step(cfg, o, Finalization(id, inv)) == FinalizePending(cfg, o, inv, id).0
  {
  }

  lemma FinalizationDoes(cfg: Config, o: Office, id: string, inv: Invocation, m: Message, after: Office)
    requires OfficeSound(cfg, o) && id in o.tables.messages && CurrentState(o.tables, id) == Pending
    requires SealingWorks(cfg.crypto, inv.context) && after == Step(cfg, o, Finalization(id, inv))
    requires m == o.tables.messages[id].body.(lawSnapshotAt := Some(inv.now))
    ensures Wrote(cfg.digests, inv, m, o.tables, after.tables, Pending, FinalizeAnswer(cfg, o, inv, m).trail)
  {
    PendingFits(cfg, o, id);
    FinalizationStepIs(cfg, o, id, inv);
    FinalizationWrites(cfg, o, inv, id, m, after.tables);
  }

  lemma FoundingDoes(cfg: Config, o: Office, m: Message, receivedAt: int, inv: Invocation)
    requires OfficeSound(cfg, o) && Storable(o.tables, m) && ChainPasses(cfg, inv, m)
    ensures Step(cfg, o, Founding(m, receivedAt, inv)).tables.log == o.tables.log +
              [Row(m.id, Pending, MessageState.Archived, 1, Some(m.actor.id), Some(inv.stamps(1).sealedAt), None, "GENESIS",
                   cfg.digests.transition(HashInput(m.id, Pending, MessageState.Archived, 1, Some(m.actor.id), "GENESIS",
                                                    inv.stamps(1).at)), inv.stamps(1).at)]
  {
    FoundingWrites(cfg, o, inv, m, receivedAt);
  }

  lemma AnswerReturns(cfg: Config, o: Office, inv: Invocation, id: string)
    requires id in o.tables.messages
    ensures DocketAnswer(cfg, o, inv, id).outcome.Returned?
  {
    RoutingSays(cfg, o, inv, id);
    var (o1, routed) := ApplyRoutingLaw(cfg, o, inv, Normalized(cfg, o, inv, id));
    if routed.Success? { ReviewReturns(cfg, o1, inv, routed.value); }
  }

  lemma ReviewReturns(cfg: Config, o: Office, inv: Invocation, m: Message)
    ensures ReviewAnswer(cfg, o, inv, m).outcome.Returned?
  {
    ReviewSays(cfg, o, inv, m);
    AuthorizationReturns(cfg, Review(cfg, o, inv, m).0, inv, m);
  }

  lemma AuthorizationReturns(cfg: Config, o: Office, inv: Invocation, m: Message)
    ensures AuthorizationAnswer(cfg, o, inv, m).outcome.Returned?
  {
    AuthorizationSays(cfg, o, inv, m);
    var o1 := LoadLaw(cfg, o, inv, 3, "appointment", SnapshotAt(m), cfg.rules.appointment).0;
    GatesAnswerIs(cfg, o1, inv, m);
    GateReturns(cfg, inv, m, Gates(cfg, o1, inv, 4, m).1);
  }

  lemma GateReturns(cfg: Config, inv: Invocation, m: Message, gate: Gate)
    ensures GateAnswer(cfg, inv, m, gate).outcome.Returned?
  {
  }
}
