/** A node that stopped following an office catches up with it by one sync. */
module OfficeSync {
  import opened Wrappers
  import opened Kinds
  import opened Archive
  import opened LogShape
  import opened SealChain
  import opened Sync
  import opened Convergence
  import opened PagedSync
  import opened Pipeline
  import opened PipelineSteps
  import opened PipelineEffects
  import opened PipelineRuns
  import opened OfficeRuns

  /** Logs only grow, and bodies and the node's own leaves stay. */
  ghost predicate Grown(t: Tables, after: Tables) {
    Behind(t, after) && BodiesAgree(t, after) && t.messages.Keys <= after.messages.Keys && after.localLeaves == t.localLeaves
  }

  lemma GrownTransitive(a: Tables, b: Tables, c: Tables)
    requires Grown(a, b) && Grown(b, c)
    ensures Grown(a, c)
  {
    forall id ensures RowsOf(a.log, id) <= RowsOf(c.log, id) {
      assert RowsOf(a.log, id) <= RowsOf(b.log, id) && RowsOf(b.log, id) <= RowsOf(c.log, id);
    }
  }

  lemma OneMessageGrown(t: Tables, after: Tables, id: string)
    requires LeavesOthers(t, after, id)
    ensures Grown(t, after)
  {
    forall x ensures RowsOf(t.log, x) <= RowsOf(after.log, x) {
      if x != id { assert RowsOf(after.log, x) == RowsOf(t.log, x); }
    }
  }

  lemma SubmitGrows(cfg: Config, o: Office, m: Message, receivedAt: int)
    ensures Grown(o.tables, Submit(cfg, o, m, receivedAt).tables)
  {
  }

  lemma DocketGrows(cfg: Config, o: Office, inv: Invocation, id: string)
    requires OfficeSound(cfg, o) && id in o.tables.messages && CurrentState(o.tables, id) == Pending
    ensures Grown(o.tables, ProcessDocket(cfg, o, inv, id).0.tables)
  {
    PendingFits(cfg, o, id);
    DocketEnds(cfg, o, inv, id);
    OneMessageGrown(o.tables, ProcessDocket(cfg, o, inv, id).0.tables, id);
  }

  lemma FinalizeGrows(cfg: Config, o: Office, inv: Invocation, id: string)
    requires OfficeSound(cfg, o) && id in o.tables.messages && CurrentState(o.tables, id) == Pending
    ensures Grown(o.tables, FinalizePending(cfg, o, inv, id).0.tables)
  {
    PendingFits(cfg, o, id);
    if FinalizeGate(cfg, o, inv, id).Shut? {
      ShutFinalizeEnds(cfg, o, inv, id);
    } else {
      FinalizeEnds(cfg, o, inv, id);
      OneMessageGrown(o.tables, FinalizePending(cfg, o, inv, id).0.tables, id);
    }
  }

  lemma WorkGrows(cfg: Config, o: Office, inv: Invocation, id: string, nowMs: int, reason: string)
    requires OfficeSound(cfg, o) && id in o.tables.messages && CurrentState(o.tables, id) == Pending
    ensures Grown(o.tables, Work(cfg, o, inv, id, nowMs, reason).tables)
  {
    var r := ProcessDocket(cfg, o, inv, id);
    DocketGrows(cfg, o, inv, id);
    if r.1.Threw? {
      DocketKeepsSound(cfg, o, inv, id);
      StateAfterDocket(cfg, o, inv, id, id);
      CatchableLog(cfg, r.0.tables, id);
      assert MessageSound(cfg, r.0.tables, id);
      var row := CatchAppends(cfg, r.0, id, nowMs, reason);
      var after := CatchFailure(cfg, r.0, id, nowMs, reason).0;
      OneMessageGrown(r.0.tables, after.tables, id);
      GrownTransitive(o.tables, r.0.tables, after.tables);
    }
  }

  lemma SealedFoundingGrows(cfg: Config, o: Office, inv: Invocation, m: Message, seals: seq<SealRecord>)
    ensures Grown(o.tables, FoundSealed(cfg, o, inv, m, seals).tables)
  {
    var (tables, failed) := PutSeals(o.tables, seals);
    PutSealsKeepsRest(o.tables, seals);
    var tr := FoundingTransition(inv, m);
    if failed.None? && AppendTransition(cfg.digests, tables, tr).Success? {
      AppendLeavesOthers(cfg.digests, tables, tr);
      OneMessageGrown(tables, AppendTransition(cfg.digests, tables, tr).value, m.id);
    }
  }

  lemma FoundingGrows(cfg: Config, o: Office, inv: Invocation, m: Message, receivedAt: int)
    ensures Grown(o.tables, Found(cfg, o, inv, m, receivedAt).tables)
  {
    if Storable(o.tables, m) {
      var submitted := Submit(cfg, o, m, receivedAt);
      SubmitGrows(cfg, o, m, receivedAt);
      var chain := NewChain(cfg.crypto, m, inv.context, inv.seals);
      if chain.Success? {
        SealedFoundingGrows(cfg, submitted, inv, m, chain.value);
        GrownTransitive(o.tables, submitted.tables, FoundSealed(cfg, submitted, inv, m, chain.value).tables);
      }
    }
  }

  lemma CallGrows(cfg: Config, o: Office, e: Event)
    requires OfficeSound(cfg, o) && Admissible(cfg, o, e) && (e.Docket? || e.Worker? || e.Finalization?)
    ensures Grown(o.tables, Step(cfg, o, e).tables)
  {
    if e.id !in o.tables.messages {
      UnknownMessageNoStep(cfg, o, e);
    } else {
      match e
      case Docket(id, inv) => DocketGrows(cfg, o, inv, id);
      case Worker(id, inv, nowMs, reason) => WorkGrows(cfg, o, inv, id, nowMs, reason);
      case Finalization(id, inv) => FinalizeGrows(cfg, o, inv, id);
    }
  }

  lemma StepGrows(cfg: Config, o: Office, e: Event)
    requires OfficeSound(cfg, o) && Admissible(cfg, o, e)
    ensures Grown(o.tables, Step(cfg, o, e).tables)
  {
    match e
    case Submission(m, receivedAt) => SubmitGrows(cfg, o, m, receivedAt);
    case Founding(m, receivedAt, inv) => FoundingGrows(cfg, o, inv, m, receivedAt);
    case Docket(_, _) => CallGrows(cfg, o, e);
    case Worker(_, _, _, _) => CallGrows(cfg, o, e);
    case Finalization(_, _) => CallGrows(cfg, o, e);
    case _ =>
  }

  lemma OneMoreStepGrows(cfg: Config, early: Tables, o: Office, e: Event)
    requires OfficeSound(cfg, o) && Admissible(cfg, o, e) && Grown(early, o.tables)
    ensures Grown(early, Step(cfg, o, e).tables)
  {
    StepGrows(cfg, o, e);
    GrownTransitive(early, o.tables, Step(cfg, o, e).tables);
  }

  ghost function GrownFrom(early: Tables): Office -> bool {
    (o: Office) => Grown(early, o.tables)
  }

  lemma StepsKeepGrown(cfg: Config, early: Tables)
    ensures KeptBySteps(cfg, GrownFrom(early))
  {
    forall o: Office, e: Event | OfficeSound(cfg, o) && Admissible(cfg, o, e) && GrownFrom(early)(o)
      ensures GrownFrom(early)(Step(cfg, o, e))
    {
      OneMoreStepGrows(cfg, early, o, e);
    }
  }

  /** No log is ever cut or rewritten in a run, and no message is changed or lost. */
  lemma RunGrows(cfg: Config, o: Office, events: seq<Event>, k: nat)
    requires OfficeSound(cfg, o) && AdmissibleRun(cfg, o, events) && k <= |events|
    ensures Grown(Run(cfg, o, events[..k]).tables, Run(cfg, o, events).tables)
  {
    var early := Run(cfg, o, events[..k]).tables;
    StepsKeepGrown(cfg, early);
    KeptByRun(cfg, o, events, k, GrownFrom(early));
  }

  lemma SoundOfficeIsSoundPeer(cfg: Config, o: Office)
    requires OfficeSound(cfg, o)
    ensures SoundPeer(cfg.digests, o.tables)
  {
    forall id ensures Walk(RowsOf(o.tables.log, id)) && SelfHashed(cfg.digests, RowsOf(o.tables.log, id)) {
      if id in o.tables.messages { assert MessageSound(cfg, o.tables, id); } else { UnknownIsBlank(cfg, o, id); }
    }
  }

  /** A node that holds what an office held at any earlier point of its run, and whose root differs from the
      office's, catches up by one sync over the whole log, exactly if every message that comes in finds the one it
      names: then there is no error, nothing is unresolved, and every log, both indexes, and the constitutional and
      legislative roots are the office's. If not, the foreign key breaks the sync off. */
  lemma StaleNodeCatchesUp(cfg: Config, o: Office, events: seq<Event>, k: nat, cursor: int, limit: int, scope: Scope,
                           clock: nat -> int)
    requires OfficeSound(cfg, o) && AdmissibleRun(cfg, o, events) && k <= |events|
    requires CoversAll(Run(cfg, o, events).tables, cursor, limit)
    requires MerkleRootOf(cfg.digests, Run(cfg, o, events[..k]).tables, scope) !=
             MerkleRootOf(cfg.digests, Run(cfg, o, events).tables, scope)
    ensures var d, stale, current := cfg.digests, Run(cfg, o, events[..k]).tables, Run(cfg, o, events).tables;
            var (after, result) := SyncWith(d, stale, PeerOf(d, current), cursor, limit, scope, clock);
            if ReferencesArrive(stale, current, |current.log|)
            then result.Success? && result.value.unresolved == 0 && Agrees(d, after, current)
            else result == Failure(UnknownReference)
  {
    SoundBehind(cfg, o, events, k);
    SyncConverges(cfg.digests, Run(cfg, o, events[..k]).tables, Run(cfg, o, events).tables, cursor, limit, scope, clock);
  }

  lemma SoundBehind(cfg: Config, o: Office, events: seq<Event>, k: nat)
    requires OfficeSound(cfg, o) && AdmissibleRun(cfg, o, events) && k <= |events|
    ensures OfficeSound(cfg, Run(cfg, o, events[..k])) && OfficeSound(cfg, Run(cfg, o, events))
    ensures Grown(Run(cfg, o, events[..k]).tables, Run(cfg, o, events).tables)
    ensures SoundPeer(cfg.digests, Run(cfg, o, events).tables)
  {
    AdmissiblePrefix(cfg, o, events, k);
    RunKeepsSound(cfg, o, events[..k]);
    RunKeepsSound(cfg, o, events);
    RunGrows(cfg, o, events, k);
    SoundOfficeIsSoundPeer(cfg, Run(cfg, o, events));
  }

  /** With a limit on the range it takes several syncs, each going on where the one before stopped. They bring in the
      office's rows one after the other up to the first that finds the roots agreed; the rows past it that the node did
      not have are left out. */
  lemma StaleNodeCatchesUpByPages(cfg: Config, o: Office, events: seq<Event>, k: nat, limit: nat, scope: Scope, clock: nat -> int,
                                  states: seq<Tables>, pages: nat) returns (j: nat)
    requires OfficeSound(cfg, o) && AdmissibleRun(cfg, o, events) && k <= |events| && |states| == pages + 1
    requires var stale, current := Run(cfg, o, events[..k]).tables, Run(cfg, o, events).tables;
             Paged(cfg.digests, stale, current, limit, scope, clock, states) && ReferencesArrive(stale, current, |current.log|) &&
             Reach(|current.log|, limit, pages) == |current.log|
    ensures var d, stale, current := cfg.digests, Run(cfg, o, events[..k]).tables, Run(cfg, o, events).tables;
            j <= pages && Apart(d, current, scope, states, j) && (j < pages ==> RootsAgree(d, states[j], current, scope)) &&
            CaughtUpAt(d, stale, current, states[pages], Reach(|current.log|, limit, j)) &&
            (Reach(|current.log|, limit, j) == |current.log| ==> Agrees(d, states[pages], current))
  {
    SoundBehind(cfg, o, events, k);
    j := PagesConverge(cfg.digests, Run(cfg, o, events[..k]).tables, Run(cfg, o, events).tables, limit, scope, clock, states, pages);
  }
}
