/** Calls the pipeline does not guard against, and exactly what they break. */
module PipelineLimits {
  import opened Wrappers
  import opened Kinds
  import opened SealChain
  import opened Archive
  import opened LogShape
  import opened Pipeline
  import opened PipelineSteps
  import opened PipelineEffects
  import opened PipelineGrounds
  import opened PipelineExactly
  import opened PipelineRuns
  import SealTerms

  // ----- The worker's catch path -----

  lemma AppendedAllowed(rows: seq<Row>, row: Row)
    requires OnlyAllowed(rows)
    ensures OnlyAllowed(rows + [row]) <==> CanTransition(row.fromState, row.toState)
  {
    assert (rows + [row])[|rows|] == row;
  }

  /** The log is empty, or its last row carries its own hash as its previous hash. */
  predicate LastNamesItself(rows: seq<Row>) {
    rows == [] || rows[|rows| - 1].prevHash == rows[|rows| - 1].hash
  }

  lemma CaughtBreaksExactly(d: Digests, rows: seq<Row>, row: Row)
    requires Walk(rows) && OnlyAllowed(rows) && HashLinked(rows) && StateAfter(rows) != Rejected && CaughtRow(d, rows, row)
    ensures Walk(rows + [row]) && StateAfter(rows + [row]) == Rejected
    ensures OnlyAllowed(rows + [row]) <==> Catchable(StateAfter(rows))
    ensures HashLinked(rows + [row]) <==> LastNamesItself(rows)
  {
    AppendedAllowed(rows, row);
    RejectableExactly(StateAfter(rows));
    LinkAppend(rows, row);
    WalkAppend(rows, row);
  }

  lemma RejectableExactly(s: MessageState)
    requires s != Rejected
    ensures CanTransition(s, Rejected) <==> Catchable(s)
  {
  }

  /** The catch path's rejection is an allowed edge except from authorized and archived; and it stays hash-linked
      exactly when the log was empty or its last row happens to carry its own hash as its previous hash. */
  lemma CatchBreaksExactly(cfg: Config, o: Office, id: string, nowMs: int, reason: string, s: MessageState)
    requires Orderly(cfg, o) && Track(cfg.digests, o.tables, id, s) && s != Rejected && HashLinked(RowsOf(o.tables.log, id))
    ensures var rows, after := RowsOf(o.tables.log, id), RowsOf(CatchFailure(cfg, o, id, nowMs, reason).0.tables.log, id);
            Walk(after) && StateAfter(after) == Rejected && (OnlyAllowed(after) <==> Catchable(s)) &&
            (HashLinked(after) <==> LastNamesItself(rows))
  {
    Stored(cfg, o, id, s);
    var rows := RowsOf(o.tables.log, id);
    var row := CatchAppends(cfg, o, id, nowMs, reason);
    var after := RowsOf(CatchFailure(cfg, o, id, nowMs, reason).0.tables.log, id);
    assert after == rows + [row];
    CaughtBreaksExactly(cfg.digests, rows, row);
  }

  // ----- Finalizing whatever is stored -----

  /** The store's guard lets every edge pass that starts at the stored state, so the next such row is accepted. */
  lemma AcceptedFromStored(cfg: Config, o: Office, inv: Invocation, m: Message, to: MessageState, reason: Option<string>)
    returns (row: Row)
    requires Walk(RowsOf(o.tables.log, m.id)) && m.id in o.tables.messages
    ensures var next := AppendNext(cfg, o, inv, m, CurrentState(o.tables, m.id), to, reason);
            next.Success? && next.value.tables.seals == o.tables.seals && m.id in next.value.tables.messages &&
            RowsOf(next.value.tables.log, m.id) == RowsOf(o.tables.log, m.id) + [row] &&
            Walk(RowsOf(next.value.tables.log, m.id)) && CurrentState(next.value.tables, m.id) == to &&
            next.value.tables.messages.Keys == o.tables.messages.Keys &&
            next.value.tables.messages[m.id].body == o.tables.messages[m.id].body
    ensures row.fromState == CurrentState(o.tables, m.id) && row.toState == to
  {
    var rows, current := RowsOf(o.tables.log, m.id), CurrentState(o.tables, m.id);
    var tr := NextTransition(o.tables, inv, m, current, to, reason);
    CurrentIsStateAfter(o.tables, m.id);
    TakenInWalk(o.tables, m.id, |rows| + 1);
    assert tr.sequenceNo == |rows| + 1;
    row := RowFor(cfg.digests, o.tables, tr);
    AppendLeavesOthers(cfg.digests, o.tables, tr);
    AppendShape(cfg.digests, o.tables, tr);
    WalkAppend(rows, row);
    CurrentIsStateAfter(AppendTransition(cfg.digests, o.tables, tr).value, m.id);
  }

  /** Archiving at once goes through from any stored state. */
  lemma ArchiveNowAppends(cfg: Config, o: Office, inv: Invocation, m: Message) returns (first: Row, last: Row)
    requires Walk(RowsOf(o.tables.log, m.id)) && m.id in o.tables.messages
    ensures var r := ArchiveNow(cfg, o, inv, m);
            Archives(r) && RowsOf(r.0.tables.log, m.id) == RowsOf(o.tables.log, m.id) + [first] + [last] &&
            CurrentState(r.0.tables, m.id) == MessageState.Archived && r.0.tables.seals == o.tables.seals &&
            m.id in r.0.tables.messages && r.0.tables.messages[m.id].body == o.tables.messages[m.id].body
    ensures first.fromState == CurrentState(o.tables, m.id) && first.toState == Authorized
    ensures last.fromState == Authorized && last.toState == MessageState.Archived
  {
    first := AcceptedFromStored(cfg, o, inv, m, Authorized, None);
    var authorized := AppendNext(cfg, o, inv, m, CurrentState(o.tables, m.id), Authorized, None).value;
    last := AcceptedFromStored(cfg, authorized, inv, m, MessageState.Archived, None);
  }

  lemma RejectNowAppends(cfg: Config, o: Office, inv: Invocation, m: Message, reason: string) returns (row: Row)
    requires Walk(RowsOf(o.tables.log, m.id)) && m.id in o.tables.messages
    ensures var r := RejectNow(cfg, o, inv, m, reason);
            r.1 == Returned(Rejected, Some(reason)) && RowsOf(r.0.tables.log, m.id) == RowsOf(o.tables.log, m.id) + [row] &&
            CurrentState(r.0.tables, m.id) == Rejected && r.0.tables.seals == o.tables.seals
    ensures row.fromState == CurrentState(o.tables, m.id) && row.toState == Rejected
  {
    row := AcceptedFromStored(cfg, o, inv, m, Rejected, Some(reason));
  }

  /** The ids of the seals the call would make, up to the first that is stored already. */
  function FreeIds(t: Tables, seals: seq<SealRecord>): (k: nat)
    ensures k <= |seals|
    ensures forall i, j | 0 <= i < k && 0 <= j < |t.seals| :: t.seals[j].sealId != seals[i].sealId
    ensures k < |seals| ==> exists j :: 0 <= j < |t.seals| && t.seals[j].sealId == seals[k].sealId
  {
    if seals == [] || exists j | 0 <= j < |t.seals| :: t.seals[j].sealId == seals[0].sealId then 0
    else FreeIds(t, seals[1..]) + 1
  }

  /** Storing seals stops at the first whose id is taken and leaves the ones before it. */
  lemma {:induction false} PutSealsStops(t: Tables, seals: seq<SealRecord>, id: string, k: nat)
    requires FreshSeals(seals, id) && id in t.messages && k <= |seals|
    requires forall i, j | 0 <= i < k && 0 <= j < |t.seals| :: t.seals[j].sealId != seals[i].sealId
    requires k < |seals| ==> exists j :: 0 <= j < |t.seals| && t.seals[j].sealId == seals[k].sealId
    ensures PutSeals(t, seals).0 == t.(seals := t.seals + seals[..k])
    ensures PutSeals(t, seals).1.None? <==> k == |seals|
    decreases |seals|
  {
    if k == 0 {
      assert t.seals + seals[..0] == t.seals;
    } else {
      var after := t.(seals := t.seals + [seals[0]]);
      assert AppendSeal(t, seals[0]) == Success(after);
      if k < |seals| {
        var j :| 0 <= j < |t.seals| && t.seals[j].sealId == seals[k].sealId;
        assert after.seals[j].sealId == seals[1..][k - 1].sealId;
      }
      PutSealsStops(after, seals[1..], id, k - 1);
      assert t.seals + [seals[0]] + seals[1..][..k - 1] == t.seals + seals[..k];
    }
  }

  /** How a finalization behind open gates ends, whatever state is stored: it archives when the seals pass and their
      ids are free, throws when they are not, and rejects when the seals do not pass. */
  lemma SealAndArchiveLands(cfg: Config, o: Office, inv: Invocation, m: Message)
    requires Walk(RowsOf(o.tables.log, m.id)) && m.id in o.tables.messages && SealingWorks(cfg.crypto, inv.context)
    ensures CurrentState(SealAndArchive(cfg, o, inv, m).0.tables, m.id) ==
            if !SealsPass(inv, m) then Rejected
            else if IdsFree(cfg, o.tables, inv, m) then MessageState.Archived else CurrentState(o.tables, m.id)
    ensures OnlyAllowed(RowsOf(o.tables.log, m.id)) ==>
              (OnlyAllowed(RowsOf(SealAndArchive(cfg, o, inv, m).0.tables.log, m.id)) <==>
                 KeepsAllowed(cfg, o.tables, inv, m, CurrentState(o.tables, m.id)))
  {
    ChainPassesExactly(cfg, inv, m);
    if !SealTerms.Enough(m, inv.context) {
      RejectedLands(cfg, o, inv, m, "insufficient-imperial-authority");
    } else if !SealsPass(inv, m) {
      RejectedLands(cfg, o, inv, m, "invalid-seal-chain");
    } else {
      StoredLands(cfg, o, inv, m);
    }
  }

  /** The id that the call's first seal would get is stored. */
  predicate FirstIdTaken(t: Tables, inv: Invocation, id: string) {
    exists j | 0 <= j < |t.seals| :: t.seals[j].sealId == SealId(id, Stage.Caoni, inv.seals(0))
  }

  /** None of the ids that the call's six seals would get is stored. */
  predicate IdsFree(cfg: Config, t: Tables, inv: Invocation, m: Message) {
    forall i, j | 0 <= i < 6 && 0 <= j < |t.seals| :: t.seals[j].sealId != SealId(m.id, STAGE_ORDER[i], inv.seals(i))
  }

  /** What sealing from a stored state appends is allowed. */
  predicate KeepsAllowed(cfg: Config, t: Tables, inv: Invocation, m: Message, s: MessageState) {
    if SealsPass(inv, m) then IdsFree(cfg, t, inv, m) ==> Sealable(s) else CanTransition(s, Rejected)
  }

  lemma RejectedLands(cfg: Config, o: Office, inv: Invocation, m: Message, reason: string)
    requires Walk(RowsOf(o.tables.log, m.id)) && m.id in o.tables.messages
    ensures CurrentState(RejectNow(cfg, o, inv, m, reason).0.tables, m.id) == Rejected
    ensures OnlyAllowed(RowsOf(o.tables.log, m.id)) ==>
              (OnlyAllowed(RowsOf(RejectNow(cfg, o, inv, m, reason).0.tables.log, m.id)) <==>
                 CanTransition(CurrentState(o.tables, m.id), Rejected))
  {
    var row := RejectNowAppends(cfg, o, inv, m, reason);
    if OnlyAllowed(RowsOf(o.tables.log, m.id)) { AppendedAllowed(RowsOf(o.tables.log, m.id), row); }
  }

  /** The chain a call makes, its ids, and where storing it stops. */
  lemma ChainIds(cfg: Config, t: Tables, inv: Invocation, m: Message) returns (seals: seq<SealRecord>)
    requires SealingWorks(cfg.crypto, inv.context) && SealsPass(inv, m) && m.id in t.messages
    ensures NewChain(cfg.crypto, m, inv.context, inv.seals) == Success(seals) && |seals| == 6 && FreshSeals(seals, m.id)
    ensures Verdict(cfg.crypto, m, seals, inv.context, inv.verifiedAt) == Some(true)
    ensures PutSeals(t, seals).0 == t.(seals := t.seals + seals[..FreeIds(t, seals)])
    ensures PutSeals(t, seals).1.None? <==> IdsFree(cfg, t, inv, m)
    ensures FreeIds(t, seals) == 6 <==> IdsFree(cfg, t, inv, m)
    ensures FreeIds(t, seals) == 0 <==> FirstIdTaken(t, inv, m.id)
  {
    ChainPassesExactly(cfg, inv, m);
    seals := NewChain(cfg.crypto, m, inv.context, inv.seals).value;
    NewChainIsFresh(cfg.crypto, m, inv.context, inv.seals, seals);
    NewChainIds(cfg.crypto, m, inv.context, inv.seals, seals);
    PutSealsStops(t, seals, m.id, FreeIds(t, seals));
    if FreeIds(t, seals) < 6 {
      var k := FreeIds(t, seals);
      var j :| 0 <= j < |t.seals| && t.seals[j].sealId == seals[k].sealId;
      assert t.seals[j].sealId == SealId(m.id, STAGE_ORDER[k], inv.seals(k));
    }
  }

  lemma StoredLands(cfg: Config, o: Office, inv: Invocation, m: Message)
    requires Walk(RowsOf(o.tables.log, m.id)) && m.id in o.tables.messages
    requires SealingWorks(cfg.crypto, inv.context) && SealsPass(inv, m)
    ensures CurrentState(SealAndArchive(cfg, o, inv, m).0.tables, m.id) ==
            if IdsFree(cfg, o.tables, inv, m) then MessageState.Archived else CurrentState(o.tables, m.id)
    ensures OnlyAllowed(RowsOf(o.tables.log, m.id)) ==>
              (OnlyAllowed(RowsOf(SealAndArchive(cfg, o, inv, m).0.tables.log, m.id)) <==>
                 (IdsFree(cfg, o.tables, inv, m) ==> Sealable(CurrentState(o.tables, m.id))))
  {
    var seals := ChainIds(cfg, o.tables, inv, m);
    var stored := o.(tables := PutSeals(o.tables, seals).0);
    SameRowsSameState(o.tables, stored.tables, m.id);
    SealAndArchiveIs(cfg, o, inv, m, seals);
    if IdsFree(cfg, o.tables, inv, m) {
      var first, last := ArchiveNowAppends(cfg, stored, inv, m);
      if OnlyAllowed(RowsOf(o.tables.log, m.id)) { TwoAppendedAllowed(RowsOf(o.tables.log, m.id), first, last); }
    }
  }

  lemma SealAndArchiveIs(cfg: Config, o: Office, inv: Invocation, m: Message, seals: seq<SealRecord>)
    requires NewChain(cfg.crypto, m, inv.context, inv.seals) == Success(seals)
    requires Verdict(cfg.crypto, m, seals, inv.context, inv.verifiedAt) == Some(true)
    ensures var (tables, failed) := PutSeals(o.tables, seals); var stored := o.(tables := tables);
            SealAndArchive(cfg, o, inv, m) ==
            if failed.Some? then (stored, Threw(StoreFailed(failed.value))) else ArchiveNow(cfg, stored, inv, m)
  {
  }

  /** Finalization never looks at the stored state. From any state and for every outcome: its log keeps to allowed
      edges exactly when a gate is closed, or the seals pass and either the message was pending or reviewed or the
      store refuses a seal id, or the seals do not pass and the state could be rejected. */
  lemma FinalizeAllowedExactly(cfg: Config, o: Office, inv: Invocation, id: string, s: MessageState)
    requires Orderly(cfg, o) && Track(cfg.digests, o.tables, id, s) && SealingWorks(cfg.crypto, inv.context)
    ensures var m := WithLawSnapshot(o.tables.messages[id].body, inv.now);
            OnlyAllowed(RowsOf(FinalizePending(cfg, o, inv, id).0.tables.log, id)) <==>
              (FinalizeGate(cfg, o, inv, id) == Open ==> KeepsAllowed(cfg, o.tables, inv, m, s))
  {
    FinalizeIs(cfg, o, inv, id);
    Stored(cfg, o, id, s);
    var m := WithLawSnapshot(o.tables.messages[id].body, inv.now);
    var o1 := Gates(cfg, o, inv, 0, m).0;
    if FinalizeGate(cfg, o, inv, id) == Open { SealAndArchiveLands(cfg, o1, inv, m); }
  }

  /** Where the message is afterwards: in particular an archived message is rejected exactly when the gates are open
      and the seals do not pass. */
  lemma FinalizeLandsExactly(cfg: Config, o: Office, inv: Invocation, id: string)
    requires Orderly(cfg, o) && id in o.tables.messages && Walk(RowsOf(o.tables.log, id))
    requires SealingWorks(cfg.crypto, inv.context)
    ensures var m := WithLawSnapshot(o.tables.messages[id].body, inv.now);
            CurrentState(FinalizePending(cfg, o, inv, id).0.tables, id) ==
            if FinalizeGate(cfg, o, inv, id) != Open then CurrentState(o.tables, id)
            else if !SealsPass(inv, m) then Rejected
            else if IdsFree(cfg, o.tables, inv, m) then MessageState.Archived else CurrentState(o.tables, id)
  {
    FinalizeIs(cfg, o, inv, id);
    var m := WithLawSnapshot(o.tables.messages[id].body, inv.now);
    var o1 := Gates(cfg, o, inv, 0, m).0;
    if FinalizeGate(cfg, o, inv, id) == Open { SealAndArchiveLands(cfg, o1, inv, m); }
  }

  lemma FinalizeIs(cfg: Config, o: Office, inv: Invocation, id: string)
    requires Orderly(cfg, o) && id in o.tables.messages
    ensures WithLawSnapshot(o.tables.messages[id].body, inv.now).id == id
    ensures Gates(cfg, o, inv, 0, WithLawSnapshot(o.tables.messages[id].body, inv.now)).0.tables == o.tables
    ensures var m := WithLawSnapshot(o.tables.messages[id].body, inv.now); var o1 := Gates(cfg, o, inv, 0, m).0;
            if FinalizeGate(cfg, o, inv, id) == Open then FinalizePending(cfg, o, inv, id) == SealAndArchive(cfg, o1, inv, m)
            else FinalizePending(cfg, o, inv, id).0 == o1
  {
    assert o.tables.messages[id].body.id == id;
    var m := WithLawSnapshot(o.tables.messages[id].body, inv.now);
    GatesConsult(cfg, o, inv, 0, m);
    OpenGates(cfg, Gates(cfg, o, inv, 0, m).0, inv, m);
  }

  lemma ChainAdds(cfg: Config, t: Tables, inv: Invocation, m: Message) returns (seals: seq<SealRecord>, more: seq<SealRecord>)
    requires SealingWorks(cfg.crypto, inv.context) && SealsPass(inv, m) && m.id in t.messages
    ensures NewChain(cfg.crypto, m, inv.context, inv.seals) == Success(seals)
    ensures Verdict(cfg.crypto, m, seals, inv.context, inv.verifiedAt) == Some(true)
    ensures PutSeals(t, seals).0 == t.(seals := t.seals + more)
    ensures forall i | 0 <= i < |more| :: more[i].messageId == m.id
    ensures more == [] <==> FirstIdTaken(t, inv, m.id)
  {
    seals := ChainIds(cfg, t, inv, m);
    var k := FreeIds(t, seals);
    more := seals[..k];
    FreshPrefix(seals, m.id, k);
  }

  lemma FreshPrefix(seals: seq<SealRecord>, id: string, k: nat)
    requires FreshSeals(seals, id) && k <= |seals|
    ensures forall i | 0 <= i < k :: seals[..k][i].messageId == id
    ensures seals[..k] == [] <==> k == 0
  {
  }

  /** The seals that a passing call adds, which are none exactly when its first id is taken. */
  lemma SealsAdded(cfg: Config, o: Office, inv: Invocation, m: Message, after: Tables) returns (more: seq<SealRecord>)
    requires after == SealAndArchive(cfg, o, inv, m).0.tables
    requires Walk(RowsOf(o.tables.log, m.id)) && m.id in o.tables.messages
    requires SealingWorks(cfg.crypto, inv.context) && SealsPass(inv, m)
    ensures SealsOf(after.seals, m.id) == SealsOf(o.tables.seals, m.id) + more
    ensures m.id in after.messages && after.messages[m.id].body == o.tables.messages[m.id].body
    ensures more == [] <==> FirstIdTaken(o.tables, inv, m.id)
  {
    var seals;
    seals, more := ChainAdds(cfg, o.tables, inv, m);
    AfterStoring(cfg, o, inv, m, seals, after);
    OwnSealsAppended(o.tables.seals, more, m.id);
  }

  /** Archiving does not touch the seals just stored. */
  lemma AfterStoring(cfg: Config, o: Office, inv: Invocation, m: Message, seals: seq<SealRecord>, after: Tables)
    requires Walk(RowsOf(o.tables.log, m.id)) && m.id in o.tables.messages
    requires NewChain(cfg.crypto, m, inv.context, inv.seals) == Success(seals)
    requires Verdict(cfg.crypto, m, seals, inv.context, inv.verifiedAt) == Some(true)
    requires exists more :: PutSeals(o.tables, seals).0 == o.tables.(seals := more)
    requires after == SealAndArchive(cfg, o, inv, m).0.tables
    ensures after.seals == PutSeals(o.tables, seals).0.seals
    ensures m.id in after.messages && after.messages[m.id].body == o.tables.messages[m.id].body
  {
    SealAndArchiveIs(cfg, o, inv, m, seals);
    var stored := o.(tables := PutSeals(o.tables, seals).0);
    if PutSeals(o.tables, seals).1.None? { var first, last := ArchiveNowAppends(cfg, stored, inv, m); }
  }

  lemma OwnSealsAppended(stored: seq<SealRecord>, more: seq<SealRecord>, id: string)
    requires forall i | 0 <= i < |more| :: more[i].messageId == id
    ensures SealsOf(stored + more, id) == SealsOf(stored, id) + more
  {
    SealsOfAppend(stored, more, id);
    SealsOfOwn(more, id);
  }

  /** The six seals of an archived message after another finalization with open gates and passing seals: they get
      company, and then no context verifies them any more, exactly unless the very first new id is taken. */
  lemma RefinalizedSealsExactly(cfg: Config, o: Office, inv: Invocation, id: string, s: MessageState)
    requires Orderly(cfg, o) && Track(cfg.digests, o.tables, id, s) && SealingWorks(cfg.crypto, inv.context)
    requires Sealed(cfg.crypto, o.tables, id) && FinalizeGate(cfg, o, inv, id) == Open
    requires SealsPass(inv, WithLawSnapshot(o.tables.messages[id].body, inv.now))
    ensures Sealed(cfg.crypto, FinalizePending(cfg, o, inv, id).0.tables, id) <==> FirstIdTaken(o.tables, inv, id)
  {
    FinalizeIs(cfg, o, inv, id);
    var m := WithLawSnapshot(o.tables.messages[id].body, inv.now);
    var more := SealsAdded(cfg, Gates(cfg, o, inv, 0, m).0, inv, m, FinalizePending(cfg, o, inv, id).0.tables);
    SealedWithMore(cfg.crypto, o.tables, FinalizePending(cfg, o, inv, id).0.tables, id, more);
  }

  lemma SealedWithMore(c: Crypto, t: Tables, after: Tables, id: string, more: seq<SealRecord>)
    requires Sealed(c, t, id) && id in after.messages && after.messages[id].body == t.messages[id].body
    requires SealsOf(after.seals, id) == SealsOf(t.seals, id) + more
    ensures Sealed(c, after, id) <==> more == []
  {
    var context, at :| Verdict(c, t.messages[id].body, SealsOf(t.seals, id), context, at) == Some(true);
    assert |SealsOf(t.seals, id)| == 6;
    if more == [] {
      assert SealsOf(after.seals, id) == SealsOf(t.seals, id);
      assert Verdict(c, after.messages[id].body, SealsOf(after.seals, id), context, at) == Some(true);
    }
  }

  lemma TwoAppendedAllowed(rows: seq<Row>, first: Row, last: Row)
    requires OnlyAllowed(rows) && first.toState == Authorized
    requires last.fromState == Authorized && last.toState == MessageState.Archived
    ensures OnlyAllowed(rows + [first] + [last]) <==> Sealable(first.fromState)
  {
    AppendedAllowed(rows, first);
    if OnlyAllowed(rows + [first]) { AppendedAllowed(rows + [first], last); }
    assert (rows + [first] + [last])[|rows|] == first;
  }

  // ----- A docket step on what is not pending -----

  predicate Refuses(s: MessageState) {
    s != Pending && s != Validated && s != Reviewed
  }

  lemma GuardFromPending(s: MessageState, to: MessageState)
    requires s != Pending && (to == Validated || to == Rejected)
    ensures CanTransition(s, to) <==> to == Rejected && !Refuses(s)
  {
  }

  lemma AppendFromPending(cfg: Config, o: Office, inv: Invocation, m: Message, to: MessageState, reason: Option<string>, s: MessageState)
    requires Track(cfg.digests, o.tables, m.id, s) && s != Pending && (to == Validated || to == Rejected)
    ensures AppendNext(cfg, o, inv, m, Pending, to, reason).Success? <==> to == Rejected && !Refuses(s)
    ensures AppendNext(cfg, o, inv, m, Pending, to, reason).Failure? ==>
              AppendNext(cfg, o, inv, m, Pending, to, reason) == Failure(InvalidTransition(s, to))
    ensures AppendNext(cfg, o, inv, m, Pending, to, reason).Success? ==>
              !Walk(RowsOf(AppendNext(cfg, o, inv, m, Pending, to, reason).value.tables.log, m.id))
  {
    Stored(cfg, o, m.id, s);
    var tr := NextTransition(o.tables, inv, m, Pending, to, reason);
    TakenInWalk(o.tables, m.id, |RowsOf(o.tables.log, m.id)| + 1);
    assert tr.sequenceNo == |RowsOf(o.tables.log, m.id)| + 1;
    GuardFromPending(s, to);
    assert GuardAccepts(CurrentState(o.tables, m.id), tr) <==> to == Rejected && !Refuses(s);
    if AppendTransition(cfg.digests, o.tables, tr).Success? {
      AppendLeavesOthers(cfg.digests, o.tables, tr);
      WalkAppend(RowsOf(o.tables.log, m.id), RowFor(cfg.digests, o.tables, tr));
    }
  }

  /** A docket step claims to start from pending without looking. On a message that is not, it is refused with
      nothing written, unless routing fails while the message is validated or reviewed: that rejection is
      accepted and leaves a log that no longer follows on. */
  lemma DocketOffPendingExactly(cfg: Config, o: Office, inv: Invocation, id: string, s: MessageState)
    requires Orderly(cfg, o) && Track(cfg.digests, o.tables, id, s) && s != Pending
    ensures var r, routed := ProcessDocket(cfg, o, inv, id), ApplyRoutingLaw(cfg, o, inv, Normalized(cfg, o, inv, id)).1;
            if routed.Failure? && !Refuses(s) then
              r.1 == Returned(Rejected, Some(routed.error)) && !Walk(RowsOf(r.0.tables.log, id))
            else
              (r.0.tables == o.tables &&
               r.1 == Threw(StoreFailed(InvalidTransition(s, if routed.Failure? then Rejected else Validated))))
  {
    assert o.tables.messages[id].body.id == id;
    var normalized := Normalized(cfg, o, inv, id);
    var (o1, routed) := ApplyRoutingLaw(cfg, o, inv, normalized);
    RoutedIsCopy(cfg, o, inv, id);
    RoutingConsults(cfg, o, inv, normalized);
    match routed
    case Failure(reason) => AppendFromPending(cfg, o1, inv, normalized, Rejected, Some(reason), s);
    case Success(m) => AppendFromPending(cfg, o1, inv, m, Validated, None, s);
  }

  // ----- A worker's step on what is not pending -----

  /** A walk along allowed edges. */
  ghost predicate Proper(rows: seq<Row>) {
    Walk(rows) && OnlyAllowed(rows)
  }

  /** After the docket step has refused, or rejected amiss, the worker rejects: always, also what was archived. The
      log is a walk along allowed edges afterwards exactly when the message was rejected already, or routing went
      through while it was validated or reviewed. */
  lemma WorkOffPendingExactly(cfg: Config, o: Office, inv: Invocation, id: string, nowMs: int, reason: string, s: MessageState)
    requires Orderly(cfg, o) && Track(cfg.digests, o.tables, id, s) && s != Pending
    ensures var routed := ApplyRoutingLaw(cfg, o, inv, Normalized(cfg, o, inv, id)).1;
            Proper(RowsOf(Work(cfg, o, inv, id, nowMs, reason).tables.log, id)) <==>
              s == Rejected || (routed.Success? && !Refuses(s))
    ensures CurrentState(Work(cfg, o, inv, id, nowMs, reason).tables, id) == Rejected
  {
    if ApplyRoutingLaw(cfg, o, inv, Normalized(cfg, o, inv, id)).1.Failure? && !Refuses(s) {
      RejectedAmiss(cfg, o, inv, id, nowMs, reason, s);
    } else {
      RefusedThenCaught(cfg, o, inv, id, nowMs, reason, s);
    }
  }

  lemma RejectedAmiss(cfg: Config, o: Office, inv: Invocation, id: string, nowMs: int, reason: string, s: MessageState)
    requires Orderly(cfg, o) && Track(cfg.digests, o.tables, id, s) && s != Pending && !Refuses(s)
    requires ApplyRoutingLaw(cfg, o, inv, Normalized(cfg, o, inv, id)).1.Failure?
    ensures !Proper(RowsOf(Work(cfg, o, inv, id, nowMs, reason).tables.log, id))
    ensures CurrentState(Work(cfg, o, inv, id, nowMs, reason).tables, id) == Rejected
  {
    DocketOffPendingExactly(cfg, o, inv, id, s);
    RoutingRejects(cfg, o, inv, id, s);
  }

  lemma RefusedThenCaught(cfg: Config, o: Office, inv: Invocation, id: string, nowMs: int, reason: string, s: MessageState)
    requires Orderly(cfg, o) && Track(cfg.digests, o.tables, id, s) && s != Pending
    requires ApplyRoutingLaw(cfg, o, inv, Normalized(cfg, o, inv, id)).1.Success? || Refuses(s)
    ensures Proper(RowsOf(Work(cfg, o, inv, id, nowMs, reason).tables.log, id)) <==> s == Rejected || !Refuses(s)
    ensures CurrentState(Work(cfg, o, inv, id, nowMs, reason).tables, id) == Rejected
  {
    var refused := RefusedOffice(cfg, o, inv, id, nowMs, reason, s);
    CaughtAfter(cfg, refused, id, nowMs, reason, s, Work(cfg, o, inv, id, nowMs, reason).tables);
  }

  lemma RefusedOffice(cfg: Config, o: Office, inv: Invocation, id: string, nowMs: int, reason: string, s: MessageState)
    returns (refused: Office)
    requires Orderly(cfg, o) && Track(cfg.digests, o.tables, id, s) && s != Pending
    requires ApplyRoutingLaw(cfg, o, inv, Normalized(cfg, o, inv, id)).1.Success? || Refuses(s)
    ensures Orderly(cfg, refused) && refused.tables == o.tables
    ensures Work(cfg, o, inv, id, nowMs, reason).tables == CatchFailure(cfg, refused, id, nowMs, reason).0.tables
  {
    DocketOffPendingExactly(cfg, o, inv, id, s);
    DocketOffPendingOrderly(cfg, o, inv, id, s);
    refused := ProcessDocket(cfg, o, inv, id).0;
  }

  lemma CaughtAfter(cfg: Config, o: Office, id: string, nowMs: int, reason: string, s: MessageState, after: Tables)
    requires Orderly(cfg, o) && Track(cfg.digests, o.tables, id, s) && s != Pending
    requires after == CatchFailure(cfg, o, id, nowMs, reason).0.tables
    ensures CurrentState(after, id) == Rejected
    ensures Proper(RowsOf(after.log, id)) <==> s == Rejected || !Refuses(s)
  {
    Stored(cfg, o, id, s);
    if s != Rejected {
      var row := CatchAppends(cfg, o, id, nowMs, reason);
      CaughtProper(cfg.digests, RowsOf(o.tables.log, id), row);
      CurrentIsStateAfter(after, id);
    }
  }

  lemma CaughtProper(d: Digests, rows: seq<Row>, row: Row)
    requires Walk(rows) && OnlyAllowed(rows) && StateAfter(rows) != Rejected && StateAfter(rows) != Pending && CaughtRow(d, rows, row)
    ensures Walk(rows + [row]) && StateAfter(rows + [row]) == Rejected
    ensures Proper(rows + [row]) <==> !Refuses(StateAfter(rows))
  {
    AppendedAllowed(rows, row);
    RejectableExactly(StateAfter(rows));
    WalkAppend(rows, row);
  }

  lemma DocketOffPendingOrderly(cfg: Config, o: Office, inv: Invocation, id: string, s: MessageState)
    requires Orderly(cfg, o) && Track(cfg.digests, o.tables, id, s) && s != Pending
    requires ApplyRoutingLaw(cfg, o, inv, Normalized(cfg, o, inv, id)).1.Success? || Refuses(s)
    ensures Orderly(cfg, ProcessDocket(cfg, o, inv, id).0) && ProcessDocket(cfg, o, inv, id).0.tables == o.tables
  {
    assert o.tables.messages[id].body.id == id;
    var normalized := Normalized(cfg, o, inv, id);
    var (o1, routed) := ApplyRoutingLaw(cfg, o, inv, normalized);
    RoutedIsCopy(cfg, o, inv, id);
    RoutingConsults(cfg, o, inv, normalized);
    match routed
    case Failure(reason) => AppendFromPending(cfg, o1, inv, normalized, Rejected, Some(reason), s);
    case Success(m) => AppendFromPending(cfg, o1, inv, m, Validated, None, s);
  }

  /** The routing rejection that the store lets in: it is the latest row all the same. */
  lemma RoutingRejects(cfg: Config, o: Office, inv: Invocation, id: string, s: MessageState)
    requires Orderly(cfg, o) && Track(cfg.digests, o.tables, id, s) && s != Pending && !Refuses(s)
    requires ApplyRoutingLaw(cfg, o, inv, Normalized(cfg, o, inv, id)).1.Failure?
    ensures CurrentState(ProcessDocket(cfg, o, inv, id).0.tables, id) == Rejected
  {
    assert o.tables.messages[id].body.id == id;
    var normalized := Normalized(cfg, o, inv, id);
    var (o1, routed) := ApplyRoutingLaw(cfg, o, inv, normalized);
    RoutingConsults(cfg, o, inv, normalized);
    AppendFromPending(cfg, o1, inv, normalized, Rejected, Some(routed.error), s);
    var tr := NextTransition(o1.tables, inv, normalized, Pending, Rejected, Some(routed.error));
    AppendLeavesOthers(cfg.digests, o1.tables, tr);
    var rows, row := RowsOf(o.tables.log, id), RowFor(cfg.digests, o1.tables, tr);
    LatestIsLast(rows);
    assert (rows + [row])[..|rows|] == rows;
  }
}
