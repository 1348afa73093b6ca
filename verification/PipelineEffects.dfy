/** What one docket step and one finalization do to the message they are about. */
module PipelineEffects {
  import opened Wrappers
  import opened Kinds
  import opened SealChain
  import opened Archive
  import opened LawResolver
  import opened LogShape
  import opened Pipeline
  import opened PipelineSteps
  import Consensus

  /** The stored seals verify for the stored message, in the context and at the time of the call. */
  ghost predicate SealedBy(cfg: Config, inv: Invocation, t: Tables, id: string) {
    id in t.messages &&
    Verdict(cfg.crypto, t.messages[id].body, SealsOf(t.seals, id), inv.context, inv.verifiedAt) == Some(true)
  }

  /** The stretch leaves everything else alone and everything in order, the state it returns is the stored one, and
      what it archives is sealed by its own call. All it may throw is a failed signing, at the state it seals from. */
  ghost predicate Ends(cfg: Config, inv: Invocation, o: Office, r: (Office, Outcome), id: string, sealsFrom: MessageState) {
    Onward(cfg, o, r.0, id) &&
    match r.1
    case Returned(s, _) =>
      StateFit(cfg, r.0.tables, id, s) && (s == MessageState.Archived ==> SealedBy(cfg, inv, r.0.tables, id))
    case Threw(e) => e == SealingFailed && StateFit(cfg, r.0.tables, id, sealsFrom)
  }

  lemma EndsAfter(cfg: Config, inv: Invocation, a: Office, b: Office, r: (Office, Outcome), id: string, sealsFrom: MessageState)
    requires Onward(cfg, a, b, id) && Ends(cfg, inv, b, r, id, sealsFrom)
    ensures Ends(cfg, inv, a, r, id, sealsFrom)
  {
    OnwardTransitive(cfg, a, b, r.0, id);
  }

  lemma EndsAfterConsulting(cfg: Config, inv: Invocation, a: Office, b: Office, r: (Office, Outcome), id: string, sealsFrom: MessageState)
    requires Consulted(cfg, a, b) && Ends(cfg, inv, b, r, id, sealsFrom)
    ensures Ends(cfg, inv, a, r, id, sealsFrom)
  {
    ConsultedIsOnward(cfg, a, b, id);
    EndsAfter(cfg, inv, a, b, r, id, sealsFrom);
  }

  lemma EndsAs(cfg: Config, inv: Invocation, o: Office, r: (Office, Outcome), known: (Office, Outcome), id: string, sealsFrom: MessageState)
    requires Ends(cfg, inv, o, known, id, sealsFrom) && r == known
    ensures Ends(cfg, inv, o, r, id, sealsFrom)
  {
  }

  lemma ConcludeEnds(cfg: Config, o: Office, inv: Invocation, m: Message, from: MessageState, to: MessageState,
                     reason: Option<string>, reported: Option<string>, sealsFrom: MessageState)
    requires StateFit(cfg, o.tables, m.id, from) && CanTransition(from, to) && to != MessageState.Archived
    ensures Conclude(cfg, o, inv, m, from, to, reason, reported).1 == Returned(to, reported)
    ensures Ends(cfg, inv, o, Conclude(cfg, o, inv, m, from, to, reason, reported), m.id, sealsFrom)
  {
    ConcludeOnward(cfg, o, inv, m, from, to, reason, reported);
  }

  /** Where sealing can start. */
  predicate Sealable(s: MessageState) {
    s == Pending || s == Reviewed
  }

  lemma Stored(cfg: Config, o: Office, id: string, s: MessageState)
    requires Track(cfg.digests, o.tables, id, s)
    ensures CurrentState(o.tables, id) == s
  {
    CurrentIsStateAfter(o.tables, id);
  }

  lemma RejectNowEnds(cfg: Config, o: Office, inv: Invocation, m: Message, s: MessageState, reason: string)
    requires Sealable(s) && StateFit(cfg, o.tables, m.id, s)
    ensures Ends(cfg, inv, o, RejectNow(cfg, o, inv, m, reason), m.id, s)
    ensures RejectNow(cfg, o, inv, m, reason).1 == Returned(Rejected, Some(reason))
  {
    Stored(cfg, o, m.id, s);
    ConcludeEnds(cfg, o, inv, m, s, Rejected, Some(reason), Some(reason), s);
  }

  lemma IndexedWhen(cfg: Config, o: Office, inv: Invocation, m: Message) returns (sealedAt: int)
    requires AppendNext(cfg, o, inv, m, Authorized, MessageState.Archived, None).Success? && m.id in o.tables.messages
    ensures AppendNext(cfg, o, inv, m, Authorized, MessageState.Archived, None).value.tables.edicts ==
            var body := o.tables.messages[m.id].body;
            if Indexable(body) then o.tables.edicts[m.id := EdictRowOf(body, sealedAt)] else o.tables.edicts
  {
    var tr := NextTransition(o.tables, inv, m, Authorized, MessageState.Archived, None);
    EdictsAfterAppend(cfg.digests, o.tables, tr);
    sealedAt := tr.sealedAt.GetOr(tr.at);
  }

  lemma ArchiveFromAuthorized(cfg: Config, o: Office, inv: Invocation, m: Message)
    requires Orderly(cfg, o) && Track(cfg.digests, o.tables, m.id, Authorized) && CopyOf(m, o.tables.messages[m.id].body)
    ensures AppendNext(cfg, o, inv, m, Authorized, MessageState.Archived, None).Success?
    ensures var archived := AppendNext(cfg, o, inv, m, Authorized, MessageState.Archived, None).value;
            var after := archived.(cache := DropAfter(archived.cache, m));
            Onward(cfg, o, after, m.id) && Track(cfg.digests, after.tables, m.id, MessageState.Archived) &&
            after.tables.seals == o.tables.seals
  {
    AppendNextMoves(cfg, o, inv, m, Authorized, MessageState.Archived, None);
    var archived := AppendNext(cfg, o, inv, m, Authorized, MessageState.Archived, None).value;
    var sealedAt := IndexedWhen(cfg, o, inv, m);
    ArchivedCacheCoherent(cfg, o, archived.tables, m, sealedAt);
  }

  lemma ArchiveNowEnds(cfg: Config, o: Office, inv: Invocation, m: Message, s: MessageState)
    requires Orderly(cfg, o) && Sealable(s) && Track(cfg.digests, o.tables, m.id, s)
    requires CopyOf(m, o.tables.messages[m.id].body)
    requires Verdict(cfg.crypto, m, SealsOf(o.tables.seals, m.id), inv.context, inv.verifiedAt) == Some(true)
    ensures ArchiveNow(cfg, o, inv, m).1 == Returned(MessageState.Archived, None)
    ensures Ends(cfg, inv, o, ArchiveNow(cfg, o, inv, m), m.id, s)
  {
    Stored(cfg, o, m.id, s);
    AppendNextOnward(cfg, o, inv, m, s, Authorized, None);
    var authorized := AppendNext(cfg, o, inv, m, s, Authorized, None).value;
    ArchiveFromAuthorized(cfg, authorized, inv, m);
    var r := ArchiveNow(cfg, o, inv, m);
    OnwardTransitive(cfg, o, authorized, r.0, m.id);
    SealsStayVerified(cfg, r.0.tables, m, inv.context, inv.verifiedAt);
    VerdictOfCopy(cfg.crypto, m, r.0.tables.messages[m.id].body, SealsOf(r.0.tables.seals, m.id), inv.context, inv.verifiedAt);
  }

  lemma ConsistentWithMoreSeals(d: Digests, t: Tables, seals: seq<SealRecord>)
    requires Consistent(d, t)
    ensures Consistent(d, t.(seals := seals))
  {
  }

  lemma SealsStoredOnward(cfg: Config, o: Office, seals: seq<SealRecord>, id: string)
    requires Orderly(cfg, o) && id in o.tables.messages && SealsOf(o.tables.seals, id) == [] && FreshSeals(seals, id)
    ensures var stored := o.(tables := o.tables.(seals := o.tables.seals + seals));
            PutSeals(o.tables, seals) == (stored.tables, None) && Onward(cfg, o, stored, id) &&
            SealsOf(stored.tables.seals, id) == seals
  {
    ChainStored(o.tables, seals, id);
    KeyedAfter(o.tables, seals, id);
    ConsistentWithMoreSeals(cfg.digests, o.tables, o.tables.seals + seals);
    var stored := o.(tables := o.tables.(seals := o.tables.seals + seals));
    assert Moves(o.tables, stored.tables, id);
    assert Orderly(cfg, stored);
  }

  lemma StoreAndArchiveEnds(cfg: Config, o: Office, inv: Invocation, m: Message, s: MessageState, seals: seq<SealRecord>)
    requires Orderly(cfg, o) && Sealable(s) && StateFit(cfg, o.tables, m.id, s) && CopyOf(m, o.tables.messages[m.id].body)
    requires FreshSeals(seals, m.id) && Verdict(cfg.crypto, m, seals, inv.context, inv.verifiedAt) == Some(true)
    ensures StoreAndArchive(cfg, o, inv, m, seals).1 == Returned(MessageState.Archived, None)
    ensures Ends(cfg, inv, o, StoreAndArchive(cfg, o, inv, m, seals), m.id, s)
  {
    SealsStoredOnward(cfg, o, seals, m.id);
    var stored := o.(tables := o.tables.(seals := o.tables.seals + seals));
    ArchiveNowEnds(cfg, stored, inv, m, s);
    EndsAfter(cfg, inv, o, stored, ArchiveNow(cfg, stored, inv, m), m.id, s);
  }

  lemma ChainMadeEnds(cfg: Config, o: Office, inv: Invocation, m: Message, s: MessageState, seals: seq<SealRecord>)
    requires Orderly(cfg, o) && Sealable(s) && StateFit(cfg, o.tables, m.id, s) && CopyOf(m, o.tables.messages[m.id].body)
    requires NewChain(cfg.crypto, m, inv.context, inv.seals) == Success(seals)
    ensures Ends(cfg, inv, o, SealAndArchive(cfg, o, inv, m), m.id, s)
  {
    NewChainIsFresh(cfg.crypto, m, inv.context, inv.seals, seals);
    if Verdict(cfg.crypto, m, seals, inv.context, inv.verifiedAt) == Some(true) {
      StoreAndArchiveEnds(cfg, o, inv, m, s, seals);
      EndsAs(cfg, inv, o, SealAndArchive(cfg, o, inv, m), StoreAndArchive(cfg, o, inv, m, seals), m.id, s);
    } else {
      RejectNowEnds(cfg, o, inv, m, s, "invalid-seal-chain");
      EndsAs(cfg, inv, o, SealAndArchive(cfg, o, inv, m), RejectNow(cfg, o, inv, m, "invalid-seal-chain"), m.id, s);
    }
  }

  lemma SealAndArchiveEnds(cfg: Config, o: Office, inv: Invocation, m: Message, s: MessageState)
    requires Orderly(cfg, o) && Sealable(s) && StateFit(cfg, o.tables, m.id, s) && CopyOf(m, o.tables.messages[m.id].body)
    ensures Ends(cfg, inv, o, SealAndArchive(cfg, o, inv, m), m.id, s)
  {
    match NewChain(cfg.crypto, m, inv.context, inv.seals)
    case Failure(InsufficientImperialAuthority) => RejectNowEnds(cfg, o, inv, m, s, "insufficient-imperial-authority");
    case Failure(SigningFailed) =>
    case Success(seals) => ChainMadeEnds(cfg, o, inv, m, s, seals);
  }

  // ----- The docket step -----

  lemma ShutOrWaiting(cfg: Config, o: Office, inv: Invocation, m: Message, gate: Gate)
    returns (to: MessageState, reason: Option<string>, reported: Option<string>)
    requires gate != Open
    ensures to == Rejected || to == Pending
    ensures AfterGates(cfg, o, inv, m, gate) == Conclude(cfg, o, inv, m, Reviewed, to, reason, reported)
  {
    match gate
    case Shut(r) => to, reason, reported := Rejected, Some(r), Some(r);
    case AwaitingAcks(required) =>
      to, reason, reported := Pending, Some("awaiting-protocol-acks-" + cfg.rules.decimal(required)), None;
    case AwaitingConsensus =>
      to, reason, reported := Pending, Some("awaiting-pbft-consensus"), Some("awaiting-pbft-consensus");
  }

  lemma NotOpenEnds(cfg: Config, o: Office, inv: Invocation, m: Message, gate: Gate)
    requires gate != Open && StateFit(cfg, o.tables, m.id, Reviewed)
    ensures Ends(cfg, inv, o, AfterGates(cfg, o, inv, m, gate), m.id, Reviewed)
  {
    var to, reason, reported := ShutOrWaiting(cfg, o, inv, m, gate);
    ConcludeEnds(cfg, o, inv, m, Reviewed, to, reason, reported, Reviewed);
    EndsAs(cfg, inv, o, AfterGates(cfg, o, inv, m, gate), Conclude(cfg, o, inv, m, Reviewed, to, reason, reported), m.id, Reviewed);
  }

  lemma OpenGates(cfg: Config, o: Office, inv: Invocation, m: Message)
    ensures AfterGates(cfg, o, inv, m, Open) == SealAndArchive(cfg, o, inv, m)
    ensures FinalizeAfterGates(cfg, o, inv, m, Open) == SealAndArchive(cfg, o, inv, m)
  {
  }

  lemma OpenEnds(cfg: Config, o: Office, inv: Invocation, m: Message)
    requires Orderly(cfg, o) && StateFit(cfg, o.tables, m.id, Reviewed) && CopyOf(m, o.tables.messages[m.id].body)
    ensures Ends(cfg, inv, o, AfterGates(cfg, o, inv, m, Open), m.id, Reviewed)
  {
    SealAndArchiveEnds(cfg, o, inv, m, Reviewed);
    OpenGates(cfg, o, inv, m);
    EndsAs(cfg, inv, o, AfterGates(cfg, o, inv, m, Open), SealAndArchive(cfg, o, inv, m), m.id, Reviewed);
  }

  lemma AfterGatesEnds(cfg: Config, o: Office, inv: Invocation, m: Message, gate: Gate)
    requires Orderly(cfg, o) && StateFit(cfg, o.tables, m.id, Reviewed) && CopyOf(m, o.tables.messages[m.id].body)
    ensures Ends(cfg, inv, o, AfterGates(cfg, o, inv, m, gate), m.id, Reviewed)
  {
    if gate == Open {
      OpenEnds(cfg, o, inv, m);
    } else {
      NotOpenEnds(cfg, o, inv, m, gate);
    }
  }

  lemma AfterAuthorizationEnds(cfg: Config, o: Office, inv: Invocation, m: Message, denied: Option<string>)
    requires Orderly(cfg, o) && StateFit(cfg, o.tables, m.id, Reviewed) && CopyOf(m, o.tables.messages[m.id].body)
    ensures Ends(cfg, inv, o, AfterAuthorization(cfg, o, inv, m, denied), m.id, Reviewed)
  {
    if denied.Some? {
      ConcludeEnds(cfg, o, inv, m, Reviewed, Rejected, denied, denied, Reviewed);
    } else {
      var (o1, gate) := Gates(cfg, o, inv, 4, m);
      GatesConsult(cfg, o, inv, 4, m);
      AfterGatesEnds(cfg, o1, inv, m, gate);
      EndsAfterConsulting(cfg, inv, o, o1, AfterGates(cfg, o1, inv, m, gate), m.id, Reviewed);
    }
  }

  lemma AuthorizeReviewedEnds(cfg: Config, o: Office, inv: Invocation, m: Message)
    requires Orderly(cfg, o) && StateFit(cfg, o.tables, m.id, Reviewed) && CopyOf(m, o.tables.messages[m.id].body)
    ensures Ends(cfg, inv, o, AuthorizeReviewed(cfg, o, inv, m), m.id, Reviewed)
  {
    var (o1, appointment) := LoadLaw(cfg, o, inv, 3, "appointment", SnapshotAt(m), cfg.rules.appointment);
    var denied := Judge(appointment, law => AuthorizeUnder(cfg.rules, law, m));
    LoadLawConsults(cfg, o, inv, 3, "appointment", SnapshotAt(m), cfg.rules.appointment);
    AfterAuthorizationEnds(cfg, o1, inv, m, denied);
    EndsAfterConsulting(cfg, inv, o, o1, AfterAuthorization(cfg, o1, inv, m, denied), m.id, Reviewed);
  }

  lemma AfterReviewEnds(cfg: Config, o: Office, inv: Invocation, m: Message, denied: Option<string>)
    requires Orderly(cfg, o) && StateFit(cfg, o.tables, m.id, Validated) && CopyOf(m, o.tables.messages[m.id].body)
    ensures Ends(cfg, inv, o, AfterReview(cfg, o, inv, m, denied), m.id, Reviewed)
  {
    if denied.Some? {
      ConcludeEnds(cfg, o, inv, m, Validated, Rejected, denied, denied, Reviewed);
    } else {
      AppendNextOnward(cfg, o, inv, m, Validated, Reviewed, None);
      var reviewed := AppendNext(cfg, o, inv, m, Validated, Reviewed, None).value;
      AuthorizeReviewedEnds(cfg, reviewed, inv, m);
      EndsAfter(cfg, inv, o, reviewed, AuthorizeReviewed(cfg, reviewed, inv, m), m.id, Reviewed);
    }
  }

  lemma ReviewValidatedEnds(cfg: Config, o: Office, inv: Invocation, m: Message)
    requires Orderly(cfg, o) && StateFit(cfg, o.tables, m.id, Validated) && CopyOf(m, o.tables.messages[m.id].body)
    ensures Ends(cfg, inv, o, ReviewValidated(cfg, o, inv, m), m.id, Reviewed)
  {
    var (o1, denied) := Review(cfg, o, inv, m);
    ReviewConsults(cfg, o, inv, m);
    AfterReviewEnds(cfg, o1, inv, m, denied);
    EndsAfterConsulting(cfg, inv, o, o1, AfterReview(cfg, o1, inv, m, denied), m.id, Reviewed);
  }

  lemma AfterRoutingEnds(cfg: Config, o: Office, inv: Invocation, normalized: Message, routed: Result<Message, string>)
    requires Orderly(cfg, o) && StateFit(cfg, o.tables, normalized.id, Pending)
    requires CopyOf(normalized, o.tables.messages[normalized.id].body)
    requires routed.Success? ==> routed.value.id == normalized.id && CopyOf(routed.value, o.tables.messages[normalized.id].body)
    ensures Ends(cfg, inv, o, AfterRouting(cfg, o, inv, normalized, routed), normalized.id, Reviewed)
  {
    match routed
    case Failure(reason) => ConcludeEnds(cfg, o, inv, normalized, Pending, Rejected, Some(reason), Some(reason), Reviewed);
    case Success(m) =>
      AppendNextOnward(cfg, o, inv, m, Pending, Validated, None);
      var validated := AppendNext(cfg, o, inv, m, Pending, Validated, None).value;
      ReviewValidatedEnds(cfg, validated, inv, m);
      EndsAfter(cfg, inv, o, validated, ReviewValidated(cfg, validated, inv, m), m.id, Reviewed);
  }

  lemma RoutedIsCopy(cfg: Config, o: Office, inv: Invocation, id: string)
    requires id in o.tables.messages && o.tables.messages[id].body.id == id
    ensures var normalized := Normalized(cfg, o, inv, id);
            var routed := ApplyRoutingLaw(cfg, o, inv, normalized).1;
            normalized.id == id && CopyOf(normalized, o.tables.messages[id].body) &&
            (routed.Success? ==> routed.value.id == id && CopyOf(routed.value, o.tables.messages[id].body))
  {
  }

  /** One docket step on a pending message: the message's log grows along allowed edges only, nothing else is
      touched, the state returned is the one stored, and nothing but a failed signing can be thrown. */
  lemma DocketEnds(cfg: Config, o: Office, inv: Invocation, id: string)
    requires Orderly(cfg, o) && StateFit(cfg, o.tables, id, Pending)
    ensures Ends(cfg, inv, o, ProcessDocket(cfg, o, inv, id), id, Reviewed)
  {
    assert o.tables.messages[id].body.id == id;
    var normalized := Normalized(cfg, o, inv, id);
    var (o1, routed) := ApplyRoutingLaw(cfg, o, inv, normalized);
    RoutedIsCopy(cfg, o, inv, id);
    RoutingConsults(cfg, o, inv, normalized);
    AfterRoutingEnds(cfg, o1, inv, normalized, routed);
    EndsAfterConsulting(cfg, inv, o, o1, AfterRouting(cfg, o1, inv, normalized, routed), id, Reviewed);
  }

  // ----- Finalization -----

  function FinalizeGate(cfg: Config, o: Office, inv: Invocation, id: string): Gate
    requires id in o.tables.messages
  {
    Gates(cfg, o, inv, 0, WithLawSnapshot(o.tables.messages[id].body, inv.now)).1
  }

  lemma FinalizeAfterGatesEnds(cfg: Config, o: Office, inv: Invocation, m: Message, gate: Gate)
    requires Orderly(cfg, o) && StateFit(cfg, o.tables, m.id, Pending) && CopyOf(m, o.tables.messages[m.id].body)
    ensures gate.Shut? ==> FinalizeAfterGates(cfg, o, inv, m, gate) == (o, Returned(Rejected, Some(gate.reason)))
    ensures !gate.Shut? ==> Ends(cfg, inv, o, FinalizeAfterGates(cfg, o, inv, m, gate), m.id, Pending)
  {
    if gate == Open {
      SealAndArchiveEnds(cfg, o, inv, m, Pending);
      OpenGates(cfg, o, inv, m);
      EndsAs(cfg, inv, o, FinalizeAfterGates(cfg, o, inv, m, gate), SealAndArchive(cfg, o, inv, m), m.id, Pending);
    } else {
      WaitingEnds(cfg, inv, o, m.id, "awaiting-protocol-acks");
      WaitingEnds(cfg, inv, o, m.id, "awaiting-pbft-consensus");
    }
  }

  lemma WaitingEnds(cfg: Config, inv: Invocation, o: Office, id: string, reason: string)
    requires StateFit(cfg, o.tables, id, Pending)
    ensures Ends(cfg, inv, o, (o, Returned(Pending, Some(reason))), id, Pending)
  {
  }

  /** A shut gate is reported as a rejection that is not recorded. */
  lemma ShutFinalizeEnds(cfg: Config, o: Office, inv: Invocation, id: string)
    requires Orderly(cfg, o) && StateFit(cfg, o.tables, id, Pending) && FinalizeGate(cfg, o, inv, id).Shut?
    ensures var r := FinalizePending(cfg, o, inv, id);
            r.1 == Returned(Rejected, Some(FinalizeGate(cfg, o, inv, id).reason)) && Consulted(cfg, o, r.0)
  {
    GatesConsult(cfg, o, inv, 0, WithLawSnapshot(o.tables.messages[id].body, inv.now));
  }

  /** Finalizing a pending message behaves like a docket step, except that a shut gate leaves it pending. */
  lemma FinalizeEnds(cfg: Config, o: Office, inv: Invocation, id: string)
    requires Orderly(cfg, o) && StateFit(cfg, o.tables, id, Pending) && !FinalizeGate(cfg, o, inv, id).Shut?
    ensures Ends(cfg, inv, o, FinalizePending(cfg, o, inv, id), id, Pending)
  {
    assert o.tables.messages[id].body.id == id;
    var m := WithLawSnapshot(o.tables.messages[id].body, inv.now);
    var (o1, gate) := Gates(cfg, o, inv, 0, m);
    GatesConsult(cfg, o, inv, 0, m);
    FinalizeAfterGatesEnds(cfg, o1, inv, m, gate);
    EndsAfterConsulting(cfg, inv, o, o1, FinalizeAfterGates(cfg, o1, inv, m, gate), id, Pending);
  }

  /** What finalization returns is what is stored, exactly when the protocol law could be loaded. */
  lemma FinalizeReportsStoredExactly(cfg: Config, o: Office, inv: Invocation, id: string)
    requires Orderly(cfg, o) && StateFit(cfg, o.tables, id, Pending)
    requires FinalizePending(cfg, o, inv, id).1.Returned?
    ensures var r := FinalizePending(cfg, o, inv, id);
            r.1.finalState == CurrentState(r.0.tables, id) <==> !FinalizeGate(cfg, o, inv, id).Shut?
  {
    var r := FinalizePending(cfg, o, inv, id);
    if FinalizeGate(cfg, o, inv, id).Shut? {
      ShutFinalizeEnds(cfg, o, inv, id);
      Stored(cfg, o, id, Pending);
    } else {
      FinalizeEnds(cfg, o, inv, id);
      Stored(cfg, r.0, id, r.1.finalState);
    }
  }

  /** What a docket step returns is what is stored, always. */
  lemma DocketReportsStored(cfg: Config, o: Office, inv: Invocation, id: string)
    requires Orderly(cfg, o) && StateFit(cfg, o.tables, id, Pending)
    requires ProcessDocket(cfg, o, inv, id).1.Returned?
    ensures var r := ProcessDocket(cfg, o, inv, id); r.1.finalState == CurrentState(r.0.tables, id)
  {
    var r := ProcessDocket(cfg, o, inv, id);
    DocketEnds(cfg, o, inv, id);
    Stored(cfg, r.0, id, r.1.finalState);
  }
}
