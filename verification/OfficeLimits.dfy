/** An archived message that a second finalization takes out of the archive. */
module OfficeLimits {
  import opened Wrappers
  import opened Kinds
  import opened SealChain
  import opened Archive
  import Law
  import opened LawResolver
  import opened LogShape
  import opened Pipeline
  import opened PipelineSteps
  import opened PipelineEffects
  import opened PipelineExactly
  import opened PipelineRuns
  import opened PipelineLimits
  import opened OfficeRuns
  import Consensus
  import SealTerms

  /** In a sound office a finalization takes an archived message out of the archive exactly when the gates are open and
      the seals it would make do not pass. */
  lemma UnarchivesExactly(cfg: Config, o: Office, inv: Invocation, id: string)
    requires OfficeSound(cfg, o) && CurrentState(o.tables, id) == MessageState.Archived && SealingWorks(cfg.crypto, inv.context)
    ensures id in o.tables.messages
    ensures CurrentState(FinalizePending(cfg, o, inv, id).0.tables, id) != MessageState.Archived <==>
              FinalizeGate(cfg, o, inv, id) == Open && !SealsPass(inv, WithLawSnapshot(o.tables.messages[id].body, inv.now))
  {
    if id !in o.tables.messages { UnknownIsBlank(cfg, o, id); }
    assert MessageSound(cfg, o.tables, id);
    FinalizeLandsExactly(cfg, o, inv, id);
  }

  /** The seals of the first time stay with a message that a finalization rejects. */
  lemma RejectedKeepsSeals(cfg: Config, o: Office, inv: Invocation, id: string)
    requires Orderly(cfg, o) && id in o.tables.messages && Walk(RowsOf(o.tables.log, id))
    requires SealingWorks(cfg.crypto, inv.context) && FinalizeGate(cfg, o, inv, id) == Open
    requires !SealsPass(inv, WithLawSnapshot(o.tables.messages[id].body, inv.now))
    ensures FinalizePending(cfg, o, inv, id).0.tables.seals == o.tables.seals
  {
    var m := WithLawSnapshot(o.tables.messages[id].body, inv.now);
    FinalizeIs(cfg, o, inv, id);
    ChainPassesExactly(cfg, inv, m);
    var row := RejectNowAppends(cfg, Gates(cfg, o, inv, 0, m).0, inv, m,
                                if SealTerms.Enough(m, inv.context) then "invalid-seal-chain" else "insufficient-imperial-authority");
  }

  /** An office in which that has happened is not sound any more. */
  lemma UnarchivedIsUnsound(cfg: Config, o: Office, inv: Invocation, id: string, after: Office)
    requires OfficeSound(cfg, o) && id in o.tables.messages && CurrentState(o.tables, id) == MessageState.Archived
    requires SealingWorks(cfg.crypto, inv.context) && FinalizeGate(cfg, o, inv, id) == Open
    requires !SealsPass(inv, WithLawSnapshot(o.tables.messages[id].body, inv.now))
    requires after == FinalizePending(cfg, o, inv, id).0
    ensures CurrentState(after.tables, id) == Rejected && !OfficeSound(cfg, after)
  {
    assert MessageSound(cfg, o.tables, id);
    FinalizeLandsExactly(cfg, o, inv, id);
    RejectedKeepsSeals(cfg, o, inv, id);
    SealsOfArchived(cfg, o, id);
    RejectedWithSeals(cfg, after, id);
  }

  lemma SealsOfArchived(cfg: Config, o: Office, id: string)
    requires OfficeSound(cfg, o) && id in o.tables.messages && CurrentState(o.tables, id) == MessageState.Archived
    ensures SealsOf(o.tables.seals, id) != []
  {
    SoundSeals(cfg, o, id);
  }

  lemma RejectedWithSeals(cfg: Config, o: Office, id: string)
    requires CurrentState(o.tables, id) == Rejected && SealsOf(o.tables.seals, id) != []
    ensures !OfficeSound(cfg, o)
  {
    if OfficeSound(cfg, o) {
      if id in o.tables.messages { SoundSeals(cfg, o, id); } else { UnknownIsBlank(cfg, o, id); }
    }
  }

  // ----- The gates of an office with one law -----

  lemma OnlyLaw(edicts: Law.EdictIndex, id: string, lawType: string, at: int)
    requires edicts.Keys == {id} && Law.Effective(edicts[id], lawType, at) && edicts[id].supersededEdictId != Some(id)
    ensures Law.GetCurrentLaw(edicts, lawType, at) == Law.Found(Law.Resolve(edicts, id))
  {
    assert Law.Candidates(edicts, lawType, at) == {id};
    Law.FoundExactly(edicts, lawType, at, id);
  }

  lemma GatesOpen(cfg: Config, o: Office, inv: Invocation, k: nat, m: Message, id: string, acks: map<string, int>)
    requires o.tables.edicts.Keys == {id} && Law.Effective(o.tables.edicts[id], "protocol", SnapshotAt(m))
    requires o.tables.edicts[id].supersededEdictId != Some(id) && "protocol" !in o.cache
    requires cfg.rules.protocol(o.tables.edicts[id].content) == Some(acks) && RequiredAcks(acks, m) <= 1 && m.genre == "edict"
    ensures Gates(cfg, o, inv, k, m).1 == Open
  {
    OnlyLaw(o.tables.edicts, id, "protocol", SnapshotAt(m));
  }

  // ----- A founded message -----

  lemma SealedIsArchived(cfg: Config, inv: Invocation, o: Office, id: string)
    requires OfficeSound(cfg, o) && SealedBy(cfg, inv, o.tables, id)
    ensures CurrentState(o.tables, id) == MessageState.Archived
  {
    VerifiedIsLinked(cfg.crypto, o.tables.messages[id].body, SealsOf(o.tables.seals, id), inv.context, inv.verifiedAt);
    assert MessageSound(cfg, o.tables, id);
    CurrentIsStateAfter(o.tables, id);
  }

  /** What genesis archives it archives as it was given. */
  lemma FoundedIsArchived(cfg: Config, o: Office, inv: Invocation, m: Message, receivedAt: int, after: Office)
    requires OfficeSound(cfg, o) && Storable(o.tables, m) && ChainPasses(cfg, inv, m) && CacheUnharmed(cfg, o, inv, m)
    requires after == Found(cfg, o, inv, m, receivedAt)
    ensures OfficeSound(cfg, after) && CurrentState(after.tables, m.id) == MessageState.Archived
    ensures m.id in after.tables.messages && after.tables.messages[m.id].body == m
  {
    FoundingSafelyKeepsSound(cfg, o, inv, m, receivedAt);
    SealedIsArchived(cfg, inv, after, m.id);
    FoundedBody(cfg, o, inv, m, receivedAt, after);
  }

  lemma FoundedBody(cfg: Config, o: Office, inv: Invocation, m: Message, receivedAt: int, after: Office)
    requires OfficeSound(cfg, o) && Storable(o.tables, m) && ChainPasses(cfg, inv, m)
    requires after == Found(cfg, o, inv, m, receivedAt)
    ensures m.id in after.tables.messages && after.tables.messages[m.id].body == m
  {
    var submitted := Submit(cfg, o, m, receivedAt);
    var seals := NewChain(cfg.crypto, m, inv.context, inv.seals).value;
    PutSealsKeepsRest(submitted.tables, seals);
    var tables := PutSeals(submitted.tables, seals).0;
    var tr := FoundingTransition(inv, m);
    if AppendTransition(cfg.digests, tables, tr).Success? { AppendShape(cfg.digests, tables, tr); }
  }

  // ----- A second finalization -----

  /** The edict founds a protocol law, in effect at `at`, by which it needs no acknowledgement itself. */
  predicate FoundsProtocol(cfg: Config, m: Message, at: int) {
    && Indexable(m) && m.payload.lawType == Some("protocol") && m.payload.supersededEdictId != Some(m.id)
    && m.payload.effectiveDate.GetOr(m.submittedAt) <= at
    && var acks := cfg.rules.protocol(m.payload.content.GetOr("{}"));
       acks.Some? && RequiredAcks(acks.value, m) <= 1
  }

  lemma FoundedGatesOpen(cfg: Config, o: Office, inv: Invocation, m: Message, sealedAt: int)
    requires FoundsProtocol(cfg, m, inv.now) && o.cache == map[] && o.tables.edicts == map[m.id := EdictRowOf(m, sealedAt)]
    requires m.id in o.tables.messages && o.tables.messages[m.id].body == m
    ensures FinalizeGate(cfg, o, inv, m.id) == Open
  {
    GatesOpen(cfg, o, inv, 0, WithLawSnapshot(m, inv.now), m.id, cfg.rules.protocol(m.payload.content.GetOr("{}")).value);
  }

  lemma FoundedForFinalizing(cfg: Config, o: Office, m: Message, receivedAt: int, first: Invocation, again: Invocation,
                             founded: Office)
    requires OfficeSound(cfg, o) && o.tables == EMPTY_TABLES && o.cache == map[]
    requires Storable(EMPTY_TABLES, m) && ChainPasses(cfg, first, m) && FoundsProtocol(cfg, m, again.now)
    requires founded == Found(cfg, o, first, m, receivedAt)
    ensures OfficeSound(cfg, founded) && CurrentState(founded.tables, m.id) == MessageState.Archived
    ensures m.id in founded.tables.messages && founded.tables.messages[m.id].body == m
    ensures FinalizeGate(cfg, founded, again, m.id) == Open
  {
    FoundedIsArchived(cfg, o, first, m, receivedAt, founded);
    FoundedEdicts(cfg, o, first, m, receivedAt);
    FoundedGatesOpen(cfg, founded, again, m, first.stamps(1).sealedAt);
  }

  lemma FoundedThenRejected(cfg: Config, o: Office, m: Message, receivedAt: int, first: Invocation, again: Invocation,
                            founded: Office, after: Office)
    requires OfficeSound(cfg, o) && o.tables == EMPTY_TABLES && o.cache == map[]
    requires Storable(EMPTY_TABLES, m) && ChainPasses(cfg, first, m) && FoundsProtocol(cfg, m, again.now)
    requires SealingWorks(cfg.crypto, again.context) && !InTokenWindow(again.seals(3), again.verifiedAt)
    requires founded == Found(cfg, o, first, m, receivedAt) && after == FinalizePending(cfg, founded, again, m.id).0
    ensures OfficeSound(cfg, founded) && CurrentState(founded.tables, m.id) == MessageState.Archived
    ensures CurrentState(after.tables, m.id) == Rejected && !OfficeSound(cfg, after)
  {
    FoundedForFinalizing(cfg, o, m, receivedAt, first, again, founded);
    UnarchivedIsUnsound(cfg, founded, again, m.id, after);
  }

  /** From a new office, by genesis and one finalization: the protocol edict that genesis archived is rejected when it is
      finalized once the capability token of that call's seals is out of its window, and the office is not sound any more. */
  lemma RefinalizingRejects(cfg: Config, replica: Option<Consensus.Replica>, m: Message, receivedAt: int, first: Invocation,
                            again: Invocation)
    requires replica.Some? ==> Consensus.LogValid(cfg.signer, cfg.pbft, replica.value)
    requires Storable(EMPTY_TABLES, m) && ChainPasses(cfg, first, m) && FoundsProtocol(cfg, m, again.now)
    requires SealingWorks(cfg.crypto, again.context) && !InTokenWindow(again.seals(3), again.verifiedAt)
    ensures var founded := Found(cfg, NewOffice(replica), first, m, receivedAt);
            var after := FinalizePending(cfg, founded, again, m.id).0;
            OfficeSound(cfg, founded) && CurrentState(founded.tables, m.id) == MessageState.Archived &&
            CurrentState(after.tables, m.id) == Rejected && !OfficeSound(cfg, after)
  {
    NewOfficeIsSound(cfg, replica);
    var founded := Found(cfg, NewOffice(replica), first, m, receivedAt);
    FoundedThenRejected(cfg, NewOffice(replica), m, receivedAt, first, again, founded, FinalizePending(cfg, founded, again, m.id).0);
  }

  // ----- One such edict -----

  /** It asks for no acknowledgements. */
  const PROTOCOL_EDICT := Message(
    "edict-1", "edict",
    Payload({"law_type", "content"}, Some("protocol"), None, Some("{}"), None, Some(0), None, None, None, None, [], None, ""),
    Actor("founder", "genesis_admin"), 0, false, None, None)

  /** A call that makes its seals at time 0 and verifies them at the given second. */
  function CallAt(context: SealContext, verifiedAt: int): Invocation {
    Invocation(context, false, "node", 0, 0, n => Stamp(0, 0), n => 0, n => 0, verifiedAt, 0)
  }

  lemma CallsInAndOutOfWindow(context: SealContext)
    requires |context.imperialSignatures| > 0 && "edict" !in context.thresholdOverrides && ProvenancePresent(context)
    ensures SealsPass(CallAt(context, 0), PROTOCOL_EDICT)
    ensures !InTokenWindow(CallAt(context, 600).seals(3), CallAt(context, 600).verifiedAt)
  {
    ThresholdOf("edict", context.thresholdOverrides);
  }

  /** With working keys, one imperial signature and a protocol schema that reads {} as no requirement there is such a run:
      the edict below is archived at second 0 and rejected at second 600. */
  lemma EdictRejectedTenMinutesLater(cfg: Config, context: SealContext)
    requires SealingWorks(cfg.crypto, context) && cfg.rules.protocol("{}") == Some(map[])
    requires |context.imperialSignatures| > 0 && "edict" !in context.thresholdOverrides && ProvenancePresent(context)
    ensures var founded := Found(cfg, NewOffice(None), CallAt(context, 0), PROTOCOL_EDICT, 0);
            var after := FinalizePending(cfg, founded, CallAt(context, 600), "edict-1").0;
            CurrentState(founded.tables, "edict-1") == MessageState.Archived && CurrentState(after.tables, "edict-1") == Rejected
  {
    CallsInAndOutOfWindow(context);
    ChainPassesExactly(cfg, CallAt(context, 0), PROTOCOL_EDICT);
    RefinalizingRejects(cfg, None, PROTOCOL_EDICT, 0, CallAt(context, 0), CallAt(context, 600));
  }
}
