/** The seals of an archived message stay the ones it was archived with. */
module OfficeSeals {
  import opened Wrappers
  import opened Kinds
  import opened SealChain
  import opened Archive
  import opened LogShape
  import opened Pipeline
  import opened PipelineSteps
  import opened PipelineEffects
  import opened PipelineRuns
  import opened OfficeRuns
  import SealTerms

  /** The message is archived, and its body and seals are the given ones. */
  predicate Rests(t: Tables, id: string, body: Message, seals: seq<SealRecord>) {
    id in t.messages && CurrentState(t, id) == MessageState.Archived && t.messages[id].body == body && SealsOf(t.seals, id) == seals
  }

  lemma OtherRests(t: Tables, after: Tables, x: string, id: string, body: Message, seals: seq<SealRecord>)
    requires Rests(t, id, body, seals) && LeavesOthers(t, after, x) && x != id
    ensures Rests(after, id, body, seals)
  {
    SameRowsSameState(t, after, id);
  }

  lemma DocketRests(cfg: Config, o: Office, inv: Invocation, x: string, id: string, body: Message, seals: seq<SealRecord>)
    requires OfficeSound(cfg, o) && x in o.tables.messages && CurrentState(o.tables, x) == Pending
    requires Rests(o.tables, id, body, seals)
    ensures Rests(ProcessDocket(cfg, o, inv, x).0.tables, id, body, seals)
  {
    PendingFits(cfg, o, x);
    DocketEnds(cfg, o, inv, x);
    OtherRests(o.tables, ProcessDocket(cfg, o, inv, x).0.tables, x, id, body, seals);
  }

  lemma WorkRests(cfg: Config, o: Office, inv: Invocation, x: string, nowMs: int, reason: string, id: string, body: Message,
                  seals: seq<SealRecord>)
    requires OfficeSound(cfg, o) && x in o.tables.messages && CurrentState(o.tables, x) == Pending
    requires Rests(o.tables, id, body, seals)
    ensures Rests(Work(cfg, o, inv, x, nowMs, reason).tables, id, body, seals)
  {
    var r := ProcessDocket(cfg, o, inv, x);
    DocketRests(cfg, o, inv, x, id, body, seals);
    if r.1.Threw? {
      DocketKeepsSound(cfg, o, inv, x);
      StateAfterDocket(cfg, o, inv, x, x);
      DocketKeepsMessages(cfg, o, inv, x);
      assert MessageSound(cfg, r.0.tables, x);
      var row := CatchAppends(cfg, r.0, x, nowMs, reason);
      OtherRests(r.0.tables, CatchFailure(cfg, r.0, x, nowMs, reason).0.tables, x, id, body, seals);
    }
  }

  lemma FinalizeRests(cfg: Config, o: Office, inv: Invocation, x: string, id: string, body: Message, seals: seq<SealRecord>)
    requires OfficeSound(cfg, o) && x in o.tables.messages && CurrentState(o.tables, x) == Pending
    requires Rests(o.tables, id, body, seals)
    ensures Rests(FinalizePending(cfg, o, inv, x).0.tables, id, body, seals)
  {
    PendingFits(cfg, o, x);
    if FinalizeGate(cfg, o, inv, x).Shut? {
      ShutFinalizeEnds(cfg, o, inv, x);
    } else {
      FinalizeEnds(cfg, o, inv, x);
      OtherRests(o.tables, FinalizePending(cfg, o, inv, x).0.tables, x, id, body, seals);
    }
  }

  lemma {:induction false} PutSealsLeavesOthers(t: Tables, seals: seq<SealRecord>, owner: string)
    requires forall i | 0 <= i < |seals| :: seals[i].messageId == owner
    ensures forall x | x != owner :: SealsOf(PutSeals(t, seals).0.seals, x) == SealsOf(t.seals, x)
    decreases |seals|
  {
    if seals != [] && AppendSeal(t, seals[0]).Success? {
      var after := AppendSeal(t, seals[0]).value;
      PutSealsLeavesOthers(after, seals[1..], owner);
      assert after.seals[..|t.seals|] == t.seals;
    }
  }

  lemma FoundSealedRests(cfg: Config, o: Office, inv: Invocation, m: Message, made: seq<SealRecord>, id: string, body: Message,
                         seals: seq<SealRecord>)
    requires Rests(o.tables, id, body, seals) && m.id != id && FreshSeals(made, m.id)
    ensures Rests(FoundSealed(cfg, o, inv, m, made).tables, id, body, seals)
  {
    var stored := PutSeals(o.tables, made).0;
    PutSealsKeepsRest(o.tables, made);
    PutSealsLeavesOthers(o.tables, made, m.id);
    SameRowsSameState(o.tables, stored, id);
    var tr := FoundingTransition(inv, m);
    if PutSeals(o.tables, made).1.None? && AppendTransition(cfg.digests, stored, tr).Success? {
      AppendLeavesOthers(cfg.digests, stored, tr);
      OtherRests(stored, AppendTransition(cfg.digests, stored, tr).value, m.id, id, body, seals);
    }
  }

  lemma SubmitRests(cfg: Config, o: Office, m: Message, receivedAt: int, id: string, body: Message, seals: seq<SealRecord>)
    requires Rests(o.tables, id, body, seals)
    ensures Rests(Submit(cfg, o, m, receivedAt).tables, id, body, seals)
  {
    SameRowsSameState(o.tables, Submit(cfg, o, m, receivedAt).tables, id);
  }

  lemma FoundRests(cfg: Config, o: Office, inv: Invocation, m: Message, receivedAt: int, id: string, body: Message,
                   seals: seq<SealRecord>)
    requires Rests(o.tables, id, body, seals)
    ensures Rests(Found(cfg, o, inv, m, receivedAt).tables, id, body, seals)
  {
    SubmitRests(cfg, o, m, receivedAt, id, body, seals);
    var chain := NewChain(cfg.crypto, m, inv.context, inv.seals);
    if Storable(o.tables, m) && chain.Success? {
      NewChainIsFresh(cfg.crypto, m, inv.context, inv.seals, chain.value);
      FoundSealedRests(cfg, Submit(cfg, o, m, receivedAt), inv, m, chain.value, id, body, seals);
    }
  }

  lemma CallRests(cfg: Config, o: Office, e: Event, id: string, body: Message, seals: seq<SealRecord>)
    requires OfficeSound(cfg, o) && Admissible(cfg, o, e) && (e.Docket? || e.Worker? || e.Finalization?)
    requires Rests(o.tables, id, body, seals)
    ensures Rests(Step(cfg, o, e).tables, id, body, seals)
  {
    if e.id !in o.tables.messages {
      UnknownMessageNoStep(cfg, o, e);
    } else {
      match e
      case Docket(x, inv) => DocketRests(cfg, o, inv, x, id, body, seals);
      case Worker(x, inv, nowMs, reason) => WorkRests(cfg, o, inv, x, nowMs, reason, id, body, seals);
      case Finalization(x, inv) => FinalizeRests(cfg, o, inv, x, id, body, seals);
    }
  }

  lemma QuietRests(cfg: Config, o: Office, e: Event, id: string, body: Message, seals: seq<SealRecord>)
    requires (e.LawRead? || e.LawDrop? || e.Agreement? || e.Approval?) && Rests(o.tables, id, body, seals)
    ensures Rests(Step(cfg, o, e).tables, id, body, seals)
  {
    SameRowsSameState(o.tables, Step(cfg, o, e).tables, id);
  }

  lemma EntryRests(cfg: Config, o: Office, e: Event, id: string, body: Message, seals: seq<SealRecord>)
    requires (e.Submission? || e.Founding?) && Rests(o.tables, id, body, seals)
    ensures Rests(Step(cfg, o, e).tables, id, body, seals)
  {
    match e
    case Submission(m, receivedAt) => SubmitRests(cfg, o, m, receivedAt, id, body, seals);
    case Founding(m, receivedAt, inv) => FoundRests(cfg, o, inv, m, receivedAt, id, body, seals);
  }

  /** No step touches the body or the seals of an archived message. */
  lemma StepRests(cfg: Config, o: Office, e: Event, id: string, body: Message, seals: seq<SealRecord>)
    requires OfficeSound(cfg, o) && Admissible(cfg, o, e) && Rests(o.tables, id, body, seals)
    ensures Rests(Step(cfg, o, e).tables, id, body, seals)
  {
    if e.Docket? || e.Worker? || e.Finalization? {
      CallRests(cfg, o, e, id, body, seals);
    } else if e.Submission? || e.Founding? {
      EntryRests(cfg, o, e, id, body, seals);
    } else {
      QuietRests(cfg, o, e, id, body, seals);
    }
  }

  ghost function Resting(id: string, body: Message, seals: seq<SealRecord>): Office -> bool {
    (o: Office) => Rests(o.tables, id, body, seals)
  }

  lemma StepsKeepResting(cfg: Config, id: string, body: Message, seals: seq<SealRecord>)
    ensures KeptBySteps(cfg, Resting(id, body, seals))
  {
    forall o: Office, e: Event | OfficeSound(cfg, o) && Admissible(cfg, o, e) && Resting(id, body, seals)(o)
      ensures Resting(id, body, seals)(Step(cfg, o, e))
    {
      StepRests(cfg, o, e, id, body, seals);
    }
  }

  /** From any point of a run to its end, an archived message keeps its body and its seals. */
  lemma ArchivedRests(cfg: Config, o: Office, events: seq<Event>, k: nat, id: string, body: Message, seals: seq<SealRecord>)
    requires OfficeSound(cfg, o) && AdmissibleRun(cfg, o, events) && k <= |events|
    requires Rests(Run(cfg, o, events[..k]).tables, id, body, seals)
    ensures Rests(Run(cfg, o, events).tables, id, body, seals)
  {
    StepsKeepResting(cfg, id, body, seals);
    KeptByRun(cfg, o, events, k, Resting(id, body, seals));
  }

  /** The call of a step that can archive. */
  predicate IsCall(e: Event) {
    e.Founding? || e.Docket? || e.Worker? || e.Finalization?
  }

  /** In every admissible run, the seals an archived message ends up with are the ones its archiving step stored, and
      they verify in that step's own context, with its own keys and thresholds, at its own time. */
  lemma ArchivedUnderOwnSeals(cfg: Config, o: Office, events: seq<Event>, id: string) returns (k: nat)
    requires OfficeSound(cfg, o) && AdmissibleRun(cfg, o, events) && CurrentState(o.tables, id) != MessageState.Archived
    requires CurrentState(Run(cfg, o, events).tables, id) == MessageState.Archived
    ensures k < |events| && ArchivedHere(cfg, Run(cfg, o, events[..k]), events[k], id)
    ensures IsCall(events[k]) && SealedBy(cfg, events[k].inv, Run(cfg, o, events).tables, id)
  {
    k := ArchivingStep(cfg, o, events, id);
    AdmissiblePrefix(cfg, o, events, k);
    RunKeepsSound(cfg, o, events[..k]);
    ArchivesAndSeals(cfg, Run(cfg, o, events[..k]), events[k], id);
    RunNext(cfg, o, events, k);
    SealedToTheEnd(cfg, o, events, k + 1, events[k].inv, id);
  }

  /** The seals that the call stored verify, and so are genuine: signed by its draft and master keys and by its secret, with a
      capability for the message's actor and enough imperial signatures. */
  ghost predicate GenuineBy(cfg: Config, inv: Invocation, t: Tables, id: string) {
    id in t.messages && SealTerms.Genuine(cfg.crypto, t.messages[id].body, SealsOf(t.seals, id), inv.context, inv.verifiedAt)
  }

  lemma SealedByIsGenuine(cfg: Config, inv: Invocation, t: Tables, id: string)
    ensures SealedBy(cfg, inv, t, id) <==> GenuineBy(cfg, inv, t, id)
  {
    if id in t.messages {
      SealTerms.VerdictExactly(cfg.crypto, t.messages[id].body, SealsOf(t.seals, id), inv.context, inv.verifiedAt);
    }
  }

  /** What an archived message ends up with in an admissible run is genuine by the call that archived it. */
  lemma ArchivedIsGenuine(cfg: Config, o: Office, events: seq<Event>, id: string, after: Tables) returns (k: nat)
    requires OfficeSound(cfg, o) && AdmissibleRun(cfg, o, events) && CurrentState(o.tables, id) != MessageState.Archived
    requires after == Run(cfg, o, events).tables && CurrentState(after, id) == MessageState.Archived
    ensures k < |events| && IsCall(events[k]) && GenuineBy(cfg, events[k].inv, after, id)
  {
    k := ArchivedUnderOwnSeals(cfg, o, events, id);
    SealedByIsGenuine(cfg, events[k].inv, after, id);
  }

  lemma ArchivesAndSeals(cfg: Config, o: Office, e: Event, id: string)
    requires OfficeSound(cfg, o) && Admissible(cfg, o, e) && CurrentState(o.tables, id) != MessageState.Archived
    requires CurrentState(Step(cfg, o, e).tables, id) == MessageState.Archived
    ensures ArchivedHere(cfg, o, e, id) && IsCall(e) && SealedBy(cfg, e.inv, Step(cfg, o, e).tables, id)
  {
    StepArchives(cfg, o, e, id);
    SealedAfterStep(cfg, o, e, id);
  }

  lemma SealedToTheEnd(cfg: Config, o: Office, events: seq<Event>, k: nat, inv: Invocation, id: string)
    requires OfficeSound(cfg, o) && AdmissibleRun(cfg, o, events) && k <= |events|
    requires CurrentState(Run(cfg, o, events[..k]).tables, id) == MessageState.Archived
    requires SealedBy(cfg, inv, Run(cfg, o, events[..k]).tables, id)
    ensures SealedBy(cfg, inv, Run(cfg, o, events).tables, id)
  {
    var t := Run(cfg, o, events[..k]).tables;
    ArchivedRests(cfg, o, events, k, id, t.messages[id].body, SealsOf(t.seals, id));
  }

  /** What a step archived, it has sealed by the time it ends: its own call's seals are stored. */
  lemma SealedAfterStep(cfg: Config, o: Office, e: Event, id: string)
    requires OfficeSound(cfg, o) && Admissible(cfg, o, e) && ArchivedHere(cfg, o, e, id)
    requires CurrentState(Step(cfg, o, e).tables, id) == MessageState.Archived
    ensures IsCall(e) && SealedBy(cfg, e.inv, Step(cfg, o, e).tables, id)
  {
  }
}
