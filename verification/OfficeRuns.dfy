/** Whole runs of the office, and what they keep. */
module OfficeRuns {
  import opened Wrappers
  import opened Kinds
  import opened SealChain
  import opened Archive
  import opened LawResolver
  import opened LogShape
  import opened Pipeline
  import opened PipelineSteps
  import opened PipelineEffects
  import opened PipelineGrounds
  import opened PipelineRuns
  import Consensus

  datatype Event =
    | Submission(m: Message, receivedAt: int)
    | Founding(m: Message, receivedAt: int, inv: Invocation)
    | Approval(id: string, office: string)
    | LawRead(lawType: string, at: int, nowMs: int)
    | LawDrop(dropped: Option<string>)
    | Agreement(message: Consensus.Event, viewChangeId: nat -> string)
    | Docket(id: string, inv: Invocation)
    | Worker(id: string, inv: Invocation, nowMs: int, reason: string)
    | Finalization(id: string, inv: Invocation)

  function Approve(o: Office, id: string, office: string): Office {
    match AddOfficeApproval(o.tables, id, office)
    case Failure(_) => o
    case Success(after) => o.(tables := after)
  }

  function ReadLaw(cfg: Config, o: Office, lawType: string, at: int, nowMs: int): Office {
    o.(cache := CacheAfter(o.tables.edicts, cfg.ttlMs, o.cache, lawType, at, nowMs),
       history := o.history + {Call(lawType, at, nowMs)})
  }

  function Agree(cfg: Config, o: Office, message: Consensus.Event, viewChangeId: nat -> string): Office {
    if o.replica.None? then o
    else o.(replica := Some(Consensus.Step(cfg.signer, cfg.pbft, viewChangeId, o.replica.value, message)))
  }

  function Step(cfg: Config, o: Office, e: Event): Office {
    match e
    case Submission(m, receivedAt) => Submit(cfg, o, m, receivedAt)
    case Founding(m, receivedAt, inv) => Found(cfg, o, inv, m, receivedAt)
    case Approval(id, office) => Approve(o, id, office)
    case LawRead(lawType, at, nowMs) => ReadLaw(cfg, o, lawType, at, nowMs)
    case LawDrop(dropped) => o.(cache := Invalidated(o.cache, dropped))
    case Agreement(message, viewChangeId) => Agree(cfg, o, message, viewChangeId)
    case Docket(id, inv) => ProcessDocket(cfg, o, inv, id).0
    case Worker(id, inv, nowMs, reason) => Work(cfg, o, inv, id, nowMs, reason)
    case Finalization(id, inv) => FinalizePending(cfg, o, inv, id).0
  }

  /** The steps the code does not guard itself are left out: docket steps and finalizations of messages that are not
      stored as pending, and genesis of an edict that a cached answer does not survive. */
  predicate Admissible(cfg: Config, o: Office, e: Event) {
    match e
    case Founding(m, _, inv) => SafeToFound(cfg, o, inv, m)
    case Docket(id, _) => CurrentState(o.tables, id) == Pending
    case Worker(id, _, _, _) => CurrentState(o.tables, id) == Pending
    case Finalization(id, _) => CurrentState(o.tables, id) == Pending
    case _ => true
  }

  function Run(cfg: Config, o: Office, events: seq<Event>): Office
    decreases |events|
  {
    if events == [] then o else Step(cfg, Run(cfg, o, events[..|events| - 1]), events[|events| - 1])
  }

  lemma RunNext(cfg: Config, o: Office, events: seq<Event>, k: nat)
    requires k < |events|
    ensures Run(cfg, o, events[..k + 1]) == Step(cfg, Run(cfg, o, events[..k]), events[k])
  {
    assert events[..k + 1][..k] == events[..k];
  }

  ghost predicate AdmissibleRun(cfg: Config, o: Office, events: seq<Event>) {
    forall k | 0 <= k < |events| :: Admissible(cfg, Run(cfg, o, events[..k]), events[k])
  }

  /** An office before its first message. */
  function NewOffice(replica: Option<Consensus.Replica>): Office {
    Office(EMPTY_TABLES, map[], {}, replica)
  }

  // ----- Steps -----

  lemma ConsistentWithMoreApprovals(d: Digests, t: Tables, approvals: set<(string, string)>)
    requires Consistent(d, t)
    ensures Consistent(d, t.(approvals := approvals))
  {
  }

  lemma ApproveKeepsSound(cfg: Config, o: Office, id: string, office: string)
    requires OfficeSound(cfg, o)
    ensures OfficeSound(cfg, Approve(o, id, office))
  {
    var after := Approve(o, id, office);
    ConsistentWithMoreApprovals(cfg.digests, o.tables, after.tables.approvals);
    assert Orderly(cfg, after);
    forall x | x in o.tables.messages ensures MessageSound(cfg, after.tables, x) {
      StaysSoundAmongMore(cfg, o.tables, after.tables, x);
    }
  }

  lemma SameTablesKeepSound(cfg: Config, o: Office, after: Office)
    requires OfficeSound(cfg, o) && after.tables == o.tables && CacheCoherent(cfg, after) && ReplicaValid(cfg, after)
    ensures OfficeSound(cfg, after)
  {
  }

  lemma LawStepKeepsSound(cfg: Config, o: Office, e: Event)
    requires OfficeSound(cfg, o) && (e.LawRead? || e.LawDrop? || e.Agreement?)
    ensures OfficeSound(cfg, Step(cfg, o, e))
  {
    match e
    case LawRead(lawType, at, nowMs) =>
      LookUpKeepsCoherent(o.tables.edicts, cfg.ttlMs, o.history, o.cache, lawType, at, nowMs);
      SameTablesKeepSound(cfg, o, Step(cfg, o, e));
    case LawDrop(dropped) =>
      InvalidatedKeepsCoherent(o.tables.edicts, cfg.ttlMs, o.history, o.cache, dropped);
      SameTablesKeepSound(cfg, o, Step(cfg, o, e));
    case Agreement(message, viewChangeId) =>
      if o.replica.Some? { Consensus.StepKeeps(cfg.signer, cfg.pbft, viewChangeId, o.replica.value, message); }
      SameTablesKeepSound(cfg, o, Step(cfg, o, e));
  }

  /** A call about a message that is not there changes nothing. */
  lemma UnknownMessageNoStep(cfg: Config, o: Office, e: Event)
    requires Orderly(cfg, o) && (e.Docket? || e.Worker? || e.Finalization?) && e.id !in o.tables.messages
    ensures Step(cfg, o, e) == o
  {
    UnknownIsBlank(cfg, o, e.id);
  }

  lemma CallKeepsSound(cfg: Config, o: Office, e: Event)
    requires OfficeSound(cfg, o) && Admissible(cfg, o, e) && (e.Docket? || e.Worker? || e.Finalization?)
    ensures OfficeSound(cfg, Step(cfg, o, e))
  {
    if e.id !in o.tables.messages {
      UnknownMessageNoStep(cfg, o, e);
    } else {
      match e
      case Docket(id, inv) => DocketKeepsSound(cfg, o, inv, id);
      case Worker(id, inv, nowMs, reason) => WorkKeepsSound(cfg, o, inv, id, nowMs, reason);
      case Finalization(id, inv) => FinalizeKeepsSound(cfg, o, inv, id);
    }
  }

  lemma StepKeepsSound(cfg: Config, o: Office, e: Event)
    requires OfficeSound(cfg, o) && Admissible(cfg, o, e)
    ensures OfficeSound(cfg, Step(cfg, o, e))
  {
    match e
    case Submission(m, receivedAt) => SubmitKeepsSound(cfg, o, m, receivedAt);
    case Founding(m, receivedAt, inv) => FoundingSafelyKeepsSound(cfg, o, inv, m, receivedAt);
    case Approval(id, office) => ApproveKeepsSound(cfg, o, id, office);
    case LawRead(_, _, _) => LawStepKeepsSound(cfg, o, e);
    case LawDrop(_) => LawStepKeepsSound(cfg, o, e);
    case Agreement(_, _) => LawStepKeepsSound(cfg, o, e);
    case Docket(_, _) => CallKeepsSound(cfg, o, e);
    case Worker(_, _, _, _) => CallKeepsSound(cfg, o, e);
    case Finalization(_, _) => CallKeepsSound(cfg, o, e);
  }

  // ----- Runs -----

  lemma NewOfficeIsSound(cfg: Config, replica: Option<Consensus.Replica>)
    requires replica.Some? ==> Consensus.LogValid(cfg.signer, cfg.pbft, replica.value)
    ensures OfficeSound(cfg, NewOffice(replica))
  {
  }

  /** So is every office reached from a new one. */
  lemma EveryRunIsSound(cfg: Config, replica: Option<Consensus.Replica>, events: seq<Event>)
    requires replica.Some? ==> Consensus.LogValid(cfg.signer, cfg.pbft, replica.value)
    requires AdmissibleRun(cfg, NewOffice(replica), events)
    ensures OfficeSound(cfg, Run(cfg, NewOffice(replica), events))
  {
    NewOfficeIsSound(cfg, replica);
    RunKeepsSound(cfg, NewOffice(replica), events);
  }

  lemma AdmissiblePrefix(cfg: Config, o: Office, events: seq<Event>, k: nat)
    requires AdmissibleRun(cfg, o, events) && k <= |events|
    ensures AdmissibleRun(cfg, o, events[..k])
  {
    forall i | 0 <= i < k ensures Admissible(cfg, Run(cfg, o, events[..k][..i]), events[..k][i]) {
      assert events[..k][..i] == events[..i];
    }
  }

  /** Every admissible run keeps the office sound. */
  lemma {:induction false} RunKeepsSound(cfg: Config, o: Office, events: seq<Event>)
    requires OfficeSound(cfg, o) && AdmissibleRun(cfg, o, events)
    ensures OfficeSound(cfg, Run(cfg, o, events))
    decreases |events|
  {
    if events != [] {
      var n := |events| - 1;
      AdmissiblePrefix(cfg, o, events, n);
      RunKeepsSound(cfg, o, events[..n]);
      StepKeepsSound(cfg, Run(cfg, o, events[..n]), events[n]);
    }
  }

  /** What a sound office says of one message's log, row by row. */
  lemma SoundLog(cfg: Config, o: Office, id: string, i: nat)
    requires OfficeSound(cfg, o) && id in o.tables.messages && i < |RowsOf(o.tables.log, id)|
    ensures var rows := RowsOf(o.tables.log, id);
            && rows[i].sequenceNo == i + 1
            && rows[i].fromState == (if i == 0 then Pending else rows[i - 1].toState)
            && (CanTransition(rows[i].fromState, rows[i].toState) || Founded(rows))
            && rows[i].hash == cfg.digests.transition(InputOf(rows[i]))
            && (rows[i].toState == MessageState.Archived || rows[i].toState == Rejected ==> i == |rows| - 1)
            && (rows[i].prevHash == (if i == 0 then "GENESIS" else rows[i - 1].hash) ||
                (i == |rows| - 1 && rows[i].toState == Rejected && rows[i].actorId == Some("gateway-worker")))
  {
    assert MessageSound(cfg, o.tables, id);
    SoundRows(cfg, RowsOf(o.tables.log, id), i);
  }

  lemma SoundRows(cfg: Config, rows: seq<Row>, i: nat)
    requires Walk(rows) && SelfHashed(cfg.digests, rows) && Chained(rows) && (OnlyAllowed(rows) || Founded(rows)) && i < |rows|
    ensures rows[i].sequenceNo == i + 1
    ensures rows[i].fromState == if i == 0 then Pending else rows[i - 1].toState
    ensures CanTransition(rows[i].fromState, rows[i].toState) || Founded(rows)
    ensures rows[i].toState == MessageState.Archived || rows[i].toState == Rejected ==> i == |rows| - 1
    ensures rows[i].prevHash == (if i == 0 then "GENESIS" else rows[i - 1].hash) ||
            (i == |rows| - 1 && rows[i].toState == Rejected && rows[i].actorId == Some("gateway-worker"))
  {
    if i < |rows| - 1 && OnlyAllowed(rows) { TerminalIsLast(rows, i); }
    assert i > 0 ==> rows[..i][i - 1] == rows[i - 1];
    ChainedLinks(rows, i);
  }

  lemma LinkedAt(rows: seq<Row>, i: nat)
    requires HashLinked(rows) && i < |rows|
    ensures rows[i].prevHash == if i == 0 then "GENESIS" else rows[i - 1].hash
  {
    assert i > 0 ==> rows[..i][i - 1] == rows[i - 1];
  }

  lemma ChainedLinks(rows: seq<Row>, i: nat)
    requires Chained(rows) && i < |rows|
    ensures rows[i].prevHash == (if i == 0 then "GENESIS" else rows[i - 1].hash) ||
            (i == |rows| - 1 && rows[i].toState == Rejected && rows[i].actorId == Some("gateway-worker"))
  {
    if HashLinked(rows) {
      LinkedAt(rows, i);
    } else if i < |rows| - 1 {
      LinkedAt(rows[..|rows| - 1], i);
    }
  }

  /** The seals of a message in a sound office: six in stage order that verified if it is archived, else none. */
  lemma SoundSeals(cfg: Config, o: Office, id: string)
    requires OfficeSound(cfg, o) && id in o.tables.messages
    ensures var seals := SealsOf(o.tables.seals, id);
            if CurrentState(o.tables, id) == MessageState.Archived
            then Linked(cfg.crypto, id, seals) && exists context, at ::
                   Verdict(cfg.crypto, o.tables.messages[id].body, seals, context, at) == Some(true)
            else seals == []
  {
    assert MessageSound(cfg, o.tables, id);
    CurrentIsStateAfter(o.tables, id);
    if CurrentState(o.tables, id) == MessageState.Archived {
      var context, at :|
        Verdict(cfg.crypto, o.tables.messages[id].body, SealsOf(o.tables.seals, id), context, at) == Some(true);
      VerifiedIsLinked(cfg.crypto, o.tables.messages[id].body, SealsOf(o.tables.seals, id), context, at);
    }
  }

  // ----- Every archived message was archived on grounds -----

  lemma FoundingLeavesLogs(cfg: Config, o: Office, inv: Invocation, m: Message, receivedAt: int, id: string)
    requires id != m.id
    ensures RowsOf(Found(cfg, o, inv, m, receivedAt).tables.log, id) == RowsOf(o.tables.log, id)
  {
    var chain := NewChain(cfg.crypto, m, inv.context, inv.seals);
    if Storable(o.tables, m) && chain.Success? {
      FoundSealedLeavesLogs(cfg, Submit(cfg, o, m, receivedAt), inv, m, chain.value, id);
    }
  }

  lemma FoundSealedLeavesLogs(cfg: Config, o: Office, inv: Invocation, m: Message, seals: seq<SealRecord>, id: string)
    requires id != m.id
    ensures RowsOf(FoundSealed(cfg, o, inv, m, seals).tables.log, id) == RowsOf(o.tables.log, id)
  {
    var (tables, failed) := PutSeals(o.tables, seals);
    PutSealsKeepsRest(o.tables, seals);
    var tr := FoundingTransition(inv, m);
    if failed.None? && AppendTransition(cfg.digests, tables, tr).Success? {
      AppendShape(cfg.digests, tables, tr);
      RowsOfAppend(tables.log, RowFor(cfg.digests, tables, tr), id);
    }
  }

  /** After a docket step the stored state is the one returned, and after a failed signing it is reviewed. */
  lemma StateAfterDocket(cfg: Config, o: Office, inv: Invocation, id: string, x: string)
    requires OfficeSound(cfg, o) && id in o.tables.messages && CurrentState(o.tables, id) == Pending
    ensures var r := ProcessDocket(cfg, o, inv, id);
            CurrentState(r.0.tables, x) ==
            if x != id then CurrentState(o.tables, x) else if r.1.Returned? then r.1.finalState else Reviewed
  {
    var r := ProcessDocket(cfg, o, inv, id);
    PendingFits(cfg, o, id);
    DocketEnds(cfg, o, inv, id);
    if x == id {
      Stored(cfg, r.0, id, if r.1.Returned? then r.1.finalState else Reviewed);
    } else {
      SameRowsSameState(o.tables, r.0.tables, x);
    }
  }

  lemma StateAfterFinalize(cfg: Config, o: Office, inv: Invocation, id: string, x: string)
    requires OfficeSound(cfg, o) && id in o.tables.messages && CurrentState(o.tables, id) == Pending
    ensures var r := FinalizePending(cfg, o, inv, id);
            CurrentState(r.0.tables, x) ==
            if x != id then CurrentState(o.tables, x)
            else if r.1.Returned? && !FinalizeGate(cfg, o, inv, id).Shut? then r.1.finalState else Pending
  {
    var r := FinalizePending(cfg, o, inv, id);
    PendingFits(cfg, o, id);
    if FinalizeGate(cfg, o, inv, id).Shut? {
      ShutFinalizeEnds(cfg, o, inv, id);
    } else {
      FinalizeEnds(cfg, o, inv, id);
      Stored(cfg, r.0, id, if r.1.Returned? then r.1.finalState else Pending);
      if x != id { SameRowsSameState(o.tables, r.0.tables, x); }
    }
  }

  lemma StateAfterCatch(cfg: Config, o: Office, id: string, nowMs: int, reason: string, x: string)
    requires OfficeSound(cfg, o) && id in o.tables.messages && CurrentState(o.tables, id) == Reviewed
    ensures CurrentState(CatchFailure(cfg, o, id, nowMs, reason).0.tables, x) ==
            if x == id then Rejected else CurrentState(o.tables, x)
  {
    CatchableLog(cfg, o.tables, id);
    assert MessageSound(cfg, o.tables, id);
    var row := CatchAppends(cfg, o, id, nowMs, reason);
    var after := CatchFailure(cfg, o, id, nowMs, reason).0;
    CaughtIsSound(cfg, RowsOf(o.tables.log, id), row);
    CurrentIsStateAfter(after.tables, id);
    if x != id { SameRowsSameState(o.tables, after.tables, x); }
  }

  /** The step is the one that archives the message, and these are the grounds it does so on. */
  ghost predicate ArchivedHere(cfg: Config, o: Office, e: Event, id: string) {
    match e
    case Docket(x, inv) => x == id && DocketArchivedHere(cfg, o, inv, id)
    case Worker(x, inv, _, _) => x == id && DocketArchivedHere(cfg, o, inv, id)
    case Finalization(x, inv) =>
      x == id && FinalizeArchivedHere(cfg, o, inv, id)
    case Founding(m, _, inv) => m.id == id && FoundedHere(cfg, o, e, id)
    case _ => false
  }

  /** A message nobody had stored, with a chain that came out and verified. */
  ghost predicate FoundedHere(cfg: Config, o: Office, e: Event, id: string)
    requires e.Founding?
  {
    Storable(o.tables, e.m) && ChainPasses(cfg, e.inv, e.m) && SealedBy(cfg, e.inv, Step(cfg, o, e).tables, id)
  }

  ghost predicate FinalizeArchivedHere(cfg: Config, o: Office, inv: Invocation, id: string) {
    && id in o.tables.messages && Archives(FinalizePending(cfg, o, inv, id))
    && SealedBy(cfg, inv, FinalizePending(cfg, o, inv, id).0.tables, id)
    && exists acks :: SealingMet(cfg, o.tables, inv, FinalizePending(cfg, o, inv, id).0,
                                 WithLawSnapshot(o.tables.messages[id].body, inv.now), acks)
  }

  ghost predicate DocketArchivedHere(cfg: Config, o: Office, inv: Invocation, id: string) {
    && id in o.tables.messages && Archives(ProcessDocket(cfg, o, inv, id))
    && SealedBy(cfg, inv, ProcessDocket(cfg, o, inv, id).0.tables, id)
    && exists g: Grounds ::
         ApplyRoutingLaw(cfg, o, inv, Normalized(cfg, o, inv, id)).1 == Success(g.m) &&
         DocketMet(cfg, o.tables, inv, ProcessDocket(cfg, o, inv, id).0, g)
  }

  lemma DocketArchivesHere(cfg: Config, o: Office, inv: Invocation, id: string)
    requires OfficeSound(cfg, o) && id in o.tables.messages && CurrentState(o.tables, id) == Pending
    requires Archives(ProcessDocket(cfg, o, inv, id))
    ensures DocketArchivedHere(cfg, o, inv, id)
  {
    PendingFits(cfg, o, id);
    DocketEnds(cfg, o, inv, id);
    var g := DocketArchivesOnGrounds(cfg, o, inv, id);
  }

  lemma FinalizeArchivesHere(cfg: Config, o: Office, inv: Invocation, id: string)
    requires OfficeSound(cfg, o) && id in o.tables.messages && CurrentState(o.tables, id) == Pending
    requires Archives(FinalizePending(cfg, o, inv, id))
    ensures FinalizeArchivedHere(cfg, o, inv, id)
  {
    PendingFits(cfg, o, id);
    if !FinalizeGate(cfg, o, inv, id).Shut? { FinalizeEnds(cfg, o, inv, id); } else { ShutFinalizeEnds(cfg, o, inv, id); }
    var acks := FinalizedOnGrounds(cfg, o, inv, id);
  }

  lemma DocketSettles(cfg: Config, o: Office, inv: Invocation, x: string, id: string)
    requires OfficeSound(cfg, o) && x in o.tables.messages && CurrentState(o.tables, x) == Pending
    ensures CurrentState(o.tables, id) == MessageState.Archived ==>
              CurrentState(ProcessDocket(cfg, o, inv, x).0.tables, id) == MessageState.Archived && id != x
    ensures CurrentState(ProcessDocket(cfg, o, inv, x).0.tables, id) == MessageState.Archived ==>
              CurrentState(o.tables, id) == MessageState.Archived || (x == id && DocketArchivedHere(cfg, o, inv, id))
  {
    StateAfterDocket(cfg, o, inv, x, id);
    if Archives(ProcessDocket(cfg, o, inv, x)) { DocketArchivesHere(cfg, o, inv, x); }
  }

  lemma FinalizeSettles(cfg: Config, o: Office, inv: Invocation, x: string, id: string)
    requires OfficeSound(cfg, o) && x in o.tables.messages && CurrentState(o.tables, x) == Pending
    ensures CurrentState(o.tables, id) == MessageState.Archived ==>
              CurrentState(FinalizePending(cfg, o, inv, x).0.tables, id) == MessageState.Archived
    ensures CurrentState(FinalizePending(cfg, o, inv, x).0.tables, id) == MessageState.Archived ==>
              CurrentState(o.tables, id) == MessageState.Archived || (x == id && FinalizeArchivedHere(cfg, o, inv, id))
  {
    StateAfterFinalize(cfg, o, inv, x, id);
    if Archives(FinalizePending(cfg, o, inv, x)) { FinalizeArchivesHere(cfg, o, inv, x); }
  }

  /** What the catch path leaves of the states after a docket step that threw. */
  lemma StateAfterWork(cfg: Config, o: Office, inv: Invocation, x: string, nowMs: int, reason: string, id: string)
    requires OfficeSound(cfg, o) && x in o.tables.messages && CurrentState(o.tables, x) == Pending
    ensures var docket := ProcessDocket(cfg, o, inv, x);
            CurrentState(Work(cfg, o, inv, x, nowMs, reason).tables, id) ==
            if docket.1.Threw? && id == x then Rejected else CurrentState(docket.0.tables, id)
  {
    if ProcessDocket(cfg, o, inv, x).1.Threw? {
      StateAfterDocket(cfg, o, inv, x, x);
      DocketKeepsSound(cfg, o, inv, x);
      DocketKeepsMessages(cfg, o, inv, x);
      StateAfterCatch(cfg, ProcessDocket(cfg, o, inv, x).0, x, nowMs, reason, id);
    }
  }

  lemma WorkerSettles(cfg: Config, o: Office, inv: Invocation, x: string, nowMs: int, reason: string, id: string)
    requires OfficeSound(cfg, o) && x in o.tables.messages && CurrentState(o.tables, x) == Pending
    ensures CurrentState(o.tables, id) == MessageState.Archived ==>
              CurrentState(Work(cfg, o, inv, x, nowMs, reason).tables, id) == MessageState.Archived
    ensures CurrentState(Work(cfg, o, inv, x, nowMs, reason).tables, id) == MessageState.Archived ==>
              CurrentState(o.tables, id) == MessageState.Archived || (x == id && DocketArchivedHere(cfg, o, inv, id))
  {
    DocketSettles(cfg, o, inv, x, id);
    StateAfterWork(cfg, o, inv, x, nowMs, reason, id);
  }

  lemma DocketCallSettles(cfg: Config, o: Office, e: Event, id: string, after: Office)
    requires OfficeSound(cfg, o) && e.Docket? && e.id in o.tables.messages
    requires CurrentState(o.tables, e.id) == Pending && after == Step(cfg, o, e)
    ensures CurrentState(o.tables, id) == MessageState.Archived ==> CurrentState(after.tables, id) == MessageState.Archived
    ensures CurrentState(after.tables, id) == MessageState.Archived ==>
              CurrentState(o.tables, id) == MessageState.Archived || ArchivedHere(cfg, o, e, id)
  {
    DocketSettles(cfg, o, e.inv, e.id, id);
  }

  lemma WorkerCallSettles(cfg: Config, o: Office, e: Event, id: string, after: Office)
    requires OfficeSound(cfg, o) && e.Worker? && e.id in o.tables.messages
    requires CurrentState(o.tables, e.id) == Pending && after == Step(cfg, o, e)
    ensures CurrentState(o.tables, id) == MessageState.Archived ==> CurrentState(after.tables, id) == MessageState.Archived
    ensures CurrentState(after.tables, id) == MessageState.Archived ==>
              CurrentState(o.tables, id) == MessageState.Archived || ArchivedHere(cfg, o, e, id)
  {
    WorkerSettles(cfg, o, e.inv, e.id, e.nowMs, e.reason, id);
  }

  lemma FinalizationCallSettles(cfg: Config, o: Office, e: Event, id: string, after: Office)
    requires OfficeSound(cfg, o) && e.Finalization? && e.id in o.tables.messages
    requires CurrentState(o.tables, e.id) == Pending && after == Step(cfg, o, e)
    ensures CurrentState(o.tables, id) == MessageState.Archived ==> CurrentState(after.tables, id) == MessageState.Archived
    ensures CurrentState(after.tables, id) == MessageState.Archived ==>
              CurrentState(o.tables, id) == MessageState.Archived || ArchivedHere(cfg, o, e, id)
  {
    FinalizeSettles(cfg, o, e.inv, e.id, id);
  }

  lemma DocketKeepsMessages(cfg: Config, o: Office, inv: Invocation, id: string)
    requires OfficeSound(cfg, o) && id in o.tables.messages && CurrentState(o.tables, id) == Pending
    ensures id in ProcessDocket(cfg, o, inv, id).0.tables.messages
  {
    PendingFits(cfg, o, id);
    DocketEnds(cfg, o, inv, id);
  }

  lemma FoundingSettles(cfg: Config, o: Office, m: Message, receivedAt: int, inv: Invocation)
    requires OfficeSound(cfg, o) && SafeToFound(cfg, o, inv, m)
    ensures !Storable(o.tables, m) ==> Step(cfg, o, Founding(m, receivedAt, inv)) == o
    ensures CurrentState(Step(cfg, o, Founding(m, receivedAt, inv)).tables, m.id) == MessageState.Archived ==>
              CurrentState(o.tables, m.id) == MessageState.Archived ||
              FoundedHere(cfg, o, Founding(m, receivedAt, inv), m.id)
  {
    if Storable(o.tables, m) {
      if ChainPasses(cfg, inv, m) {
        FoundsHere(cfg, o, m, receivedAt, inv);
      } else {
        UnsealedIsNotArchived(cfg, o, m, receivedAt, inv);
      }
    }
  }

  lemma FoundsHere(cfg: Config, o: Office, m: Message, receivedAt: int, inv: Invocation)
    requires OfficeSound(cfg, o) && SafeToFound(cfg, o, inv, m) && Storable(o.tables, m) && ChainPasses(cfg, inv, m)
    ensures FoundedHere(cfg, o, Founding(m, receivedAt, inv), m.id)
  {
    FoundingSafelyKeepsSound(cfg, o, inv, m, receivedAt);
  }

  lemma UnsealedIsNotArchived(cfg: Config, o: Office, m: Message, receivedAt: int, inv: Invocation)
    requires OfficeSound(cfg, o) && Storable(o.tables, m) && !ChainPasses(cfg, inv, m)
    ensures CurrentState(Found(cfg, o, inv, m, receivedAt).tables, m.id) == CurrentState(o.tables, m.id)
  {
    assert Found(cfg, o, inv, m, receivedAt) == Submit(cfg, o, m, receivedAt);
    SameRowsSameState(o.tables, Submit(cfg, o, m, receivedAt).tables, m.id);
  }

  /** A call about a pending message, or one about a message that is not there. */
  lemma CallSettles(cfg: Config, o: Office, e: Event, id: string, after: Office)
    requires OfficeSound(cfg, o) && Admissible(cfg, o, e) && (e.Docket? || e.Worker? || e.Finalization?) && after == Step(cfg, o, e)
    ensures CurrentState(o.tables, id) == MessageState.Archived ==> CurrentState(after.tables, id) == MessageState.Archived
    ensures CurrentState(after.tables, id) == MessageState.Archived ==>
              CurrentState(o.tables, id) == MessageState.Archived || ArchivedHere(cfg, o, e, id)
  {
    if e.id !in o.tables.messages {
      UnknownMessageNoStep(cfg, o, e);
    } else if e.Docket? {
      DocketCallSettles(cfg, o, e, id, after);
    } else if e.Worker? {
      WorkerCallSettles(cfg, o, e, id, after);
    } else {
      FinalizationCallSettles(cfg, o, e, id, after);
    }
  }

  /** A step that appends no row. */
  lemma QuietSettles(cfg: Config, o: Office, e: Event, id: string, after: Office)
    requires (e.Submission? || e.Approval? || e.LawRead? || e.LawDrop? || e.Agreement?) && after == Step(cfg, o, e)
    ensures CurrentState(after.tables, id) == CurrentState(o.tables, id)
  {
    SameRowsSameState(o.tables, after.tables, id);
  }

  /** Archived messages stay archived, and no step archives one but on grounds. */
  lemma StepSettles(cfg: Config, o: Office, e: Event, id: string, after: Office)
    requires OfficeSound(cfg, o) && Admissible(cfg, o, e) && after == Step(cfg, o, e)
    ensures CurrentState(o.tables, id) == MessageState.Archived && id in o.tables.messages ==>
              CurrentState(after.tables, id) == MessageState.Archived
    ensures CurrentState(after.tables, id) == MessageState.Archived ==>
              CurrentState(o.tables, id) == MessageState.Archived || ArchivedHere(cfg, o, e, id)
  {
    if e.Docket? || e.Worker? || e.Finalization? {
      CallSettles(cfg, o, e, id, after);
    } else if e.Founding? {
      FoundingStepSettles(cfg, o, e, id, after);
    } else {
      QuietSettles(cfg, o, e, id, after);
    }
  }

  lemma FoundingStepSettles(cfg: Config, o: Office, e: Event, id: string, after: Office)
    requires OfficeSound(cfg, o) && Admissible(cfg, o, e) && e.Founding? && after == Step(cfg, o, e)
    ensures CurrentState(o.tables, id) == MessageState.Archived && id in o.tables.messages ==>
              CurrentState(after.tables, id) == MessageState.Archived
    ensures CurrentState(after.tables, id) == MessageState.Archived ==>
              CurrentState(o.tables, id) == MessageState.Archived || ArchivedHere(cfg, o, e, id)
  {
    if e.m.id != id {
      FoundingLeavesLogs(cfg, o, e.inv, e.m, e.receivedAt, id);
      SameRowsSameState(o.tables, after.tables, id);
    } else {
      FoundingSettles(cfg, o, e.m, e.receivedAt, e.inv);
    }
  }

  /** Admissible steps keep the property. */
  ghost predicate KeptBySteps(cfg: Config, p: Office -> bool) {
    forall x: Office, e: Event | OfficeSound(cfg, x) && Admissible(cfg, x, e) && p(x) :: p(Step(cfg, x, e))
  }

  lemma KeptByStep(cfg: Config, x: Office, e: Event, p: Office -> bool)
    requires KeptBySteps(cfg, p) && OfficeSound(cfg, x) && Admissible(cfg, x, e) && p(x)
    ensures p(Step(cfg, x, e))
  {
  }

  lemma SoundAt(cfg: Config, o: Office, events: seq<Event>, k: nat)
    requires OfficeSound(cfg, o) && AdmissibleRun(cfg, o, events) && k <= |events|
    ensures OfficeSound(cfg, Run(cfg, o, events[..k]))
  {
    AdmissiblePrefix(cfg, o, events, k);
    RunKeepsSound(cfg, o, events[..k]);
  }

  lemma {:induction false} KeptUpTo(cfg: Config, o: Office, events: seq<Event>, k: nat, j: nat, p: Office -> bool)
    requires OfficeSound(cfg, o) && AdmissibleRun(cfg, o, events) && k <= j <= |events|
    requires p(Run(cfg, o, events[..k])) && KeptBySteps(cfg, p)
    ensures p(Run(cfg, o, events[..j]))
  {
    if k < j {
      var i := j - 1;
      KeptUpTo(cfg, o, events, k, i, p);
      SoundAt(cfg, o, events, i);
      KeptByStep(cfg, Run(cfg, o, events[..i]), events[i], p);
      RunNext(cfg, o, events, i);
    }
  }

  /** A property that holds at some point of a run and that admissible steps keep holds at its end. */
  lemma KeptByRun(cfg: Config, o: Office, events: seq<Event>, k: nat, p: Office -> bool)
    requires OfficeSound(cfg, o) && AdmissibleRun(cfg, o, events) && k <= |events|
    requires p(Run(cfg, o, events[..k])) && KeptBySteps(cfg, p)
    ensures p(Run(cfg, o, events))
  {
    KeptUpTo(cfg, o, events, k, |events|, p);
    assert events[..|events|] == events;
  }

  /** A property that a run brings about is brought about by one of its steps. */
  lemma {:induction false} SomeStepBrings(cfg: Config, o: Office, events: seq<Event>, p: Office -> bool) returns (k: nat)
    requires !p(o) && p(Run(cfg, o, events))
    ensures k < |events| && !p(Run(cfg, o, events[..k])) && p(Run(cfg, o, events[..k + 1]))
    decreases |events|
  {
    var n := |events| - 1;
    assert events[..n + 1] == events;
    if p(Run(cfg, o, events[..n])) {
      k := SomeStepBrings(cfg, o, events[..n], p);
      assert events[..n][..k] == events[..k] && events[..n][..k + 1] == events[..k + 1];
    } else {
      k := n;
    }
  }

  lemma StepArchives(cfg: Config, o: Office, e: Event, id: string)
    requires OfficeSound(cfg, o) && Admissible(cfg, o, e) && CurrentState(o.tables, id) != MessageState.Archived
    requires CurrentState(Step(cfg, o, e).tables, id) == MessageState.Archived
    ensures ArchivedHere(cfg, o, e, id)
  {
    StepSettles(cfg, o, e, id, Step(cfg, o, e));
  }

  lemma ArchivingStep(cfg: Config, o: Office, events: seq<Event>, id: string) returns (k: nat)
    requires CurrentState(o.tables, id) != MessageState.Archived
    requires CurrentState(Run(cfg, o, events).tables, id) == MessageState.Archived
    ensures k < |events| && CurrentState(Run(cfg, o, events[..k]).tables, id) != MessageState.Archived
    ensures CurrentState(Step(cfg, Run(cfg, o, events[..k]), events[k]).tables, id) == MessageState.Archived
  {
    k := SomeStepBrings(cfg, o, events, (x: Office) => CurrentState(x.tables, id) == MessageState.Archived);
    RunNext(cfg, o, events, k);
  }

  /** In every admissible run, a message that was not archived and is archived in the end was archived by one of
      the steps: by genesis, or by a call that had enough approvals, agreement where needed, enough imperial
      signatures, and, for a docket step, every law in force on its side; and the seals then stored verified in the
      context and at the time of that step. */
  lemma ArchivedOnGrounds(cfg: Config, o: Office, events: seq<Event>, id: string) returns (k: nat)
    requires OfficeSound(cfg, o) && AdmissibleRun(cfg, o, events) && CurrentState(o.tables, id) != MessageState.Archived
    requires CurrentState(Run(cfg, o, events).tables, id) == MessageState.Archived
    ensures k < |events| && ArchivedHere(cfg, Run(cfg, o, events[..k]), events[k], id)
  {
    k := ArchivingStep(cfg, o, events, id);
    AdmissiblePrefix(cfg, o, events, k);
    RunKeepsSound(cfg, o, events[..k]);
    StepArchives(cfg, Run(cfg, o, events[..k]), events[k], id);
  }
}
