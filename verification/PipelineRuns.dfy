/** The office over whole runs: every message's log, seals and states stay right, whatever the order of calls. */
module PipelineRuns {
  import opened Wrappers
  import opened Kinds
  import opened SealChain
  import opened Archive
  import opened Law
  import opened LawResolver
  import opened LogShape
  import opened Pipeline
  import opened PipelineSteps
  import opened PipelineEffects
  import Consensus

  // ----- What is right about one message -----

  /** Hash-linked, except that the worker's catch path may have added a last rejection that names the previous
      row's own previous hash instead of the previous row's hash. */
  ghost predicate Chained(rows: seq<Row>) {
    HashLinked(rows) ||
    (rows != [] && HashLinked(rows[..|rows| - 1]) && CaughtLast(rows))
  }

  predicate CaughtLast(rows: seq<Row>)
    requires rows != []
  {
    var n := |rows| - 1;
    && rows[n].toState == Rejected && rows[n].actorId == Some("gateway-worker")
    && rows[n].prevHash == if n > 0 then rows[n - 1].prevHash else "GENESIS"
  }

  /** A log that genesis wrote: straight from pending to archived, an edge the table of transitions lacks. */
  predicate Founded(rows: seq<Row>) {
    |rows| == 1 && rows[0].fromState == Pending && rows[0].toState == MessageState.Archived
  }

  /** The log is contiguous, chained and self-hashed, uses allowed edges only unless genesis wrote it, and there
      are six verified seals if it has arrived at archived and no seal at all otherwise. */
  ghost predicate MessageSound(cfg: Config, t: Tables, id: string) {
    var rows := RowsOf(t.log, id);
    && Walk(rows) && SelfHashed(cfg.digests, rows) && Chained(rows)
    && (OnlyAllowed(rows) || Founded(rows))
    && if StateAfter(rows) == MessageState.Archived then Sealed(cfg.crypto, t, id) else SealsOf(t.seals, id) == []
  }

  ghost predicate OfficeSound(cfg: Config, o: Office) {
    Orderly(cfg, o) && forall id | id in o.tables.messages :: MessageSound(cfg, o.tables, id)
  }

  // ----- Reading it off -----

  lemma PendingFits(cfg: Config, o: Office, id: string)
    requires OfficeSound(cfg, o) && id in o.tables.messages && CurrentState(o.tables, id) == Pending
    ensures StateFit(cfg, o.tables, id, Pending) && HashLinked(RowsOf(o.tables.log, id))
  {
    assert MessageSound(cfg, o.tables, id);
    CurrentIsStateAfter(o.tables, id);
  }

  lemma FitIsSound(cfg: Config, t: Tables, id: string, s: MessageState)
    requires StateFit(cfg, t, id, s) && HashLinked(RowsOf(t.log, id))
    ensures MessageSound(cfg, t, id)
  {
  }

  lemma OthersStaySound(cfg: Config, t: Tables, after: Tables, id: string, x: string)
    requires LeavesOthers(t, after, id) && x != id && x in t.messages && MessageSound(cfg, t, x)
    ensures MessageSound(cfg, after, x)
  {
    if StateAfter(RowsOf(t.log, x)) == MessageState.Archived {
      var context, at :| Verdict(cfg.crypto, t.messages[x].body, SealsOf(t.seals, x), context, at) == Some(true);
      assert Verdict(cfg.crypto, after.messages[x].body, SealsOf(after.seals, x), context, at) == Some(true);
    }
  }

  lemma OneMessageMoved(cfg: Config, o: Office, after: Office, id: string)
    requires OfficeSound(cfg, o) && LeavesOthers(o.tables, after.tables, id) && Orderly(cfg, after)
    requires id in o.tables.messages ==> MessageSound(cfg, after.tables, id)
    ensures OfficeSound(cfg, after)
  {
    forall x | x in after.tables.messages ensures MessageSound(cfg, after.tables, x) {
      if x != id { OthersStaySound(cfg, o.tables, after.tables, id, x); }
    }
  }

  lemma OnwardKeepsSound(cfg: Config, o: Office, after: Office, id: string)
    requires OfficeSound(cfg, o) && Onward(cfg, o, after, id) && (id in o.tables.messages ==> MessageSound(cfg, after.tables, id))
    ensures OfficeSound(cfg, after)
  {
    OneMessageMoved(cfg, o, after, id);
  }

  lemma EndsSound(cfg: Config, inv: Invocation, o: Office, r: (Office, Outcome), id: string, sealsFrom: MessageState)
    requires OfficeSound(cfg, o) && id in o.tables.messages && HashLinked(RowsOf(o.tables.log, id))
    requires Ends(cfg, inv, o, r, id, sealsFrom)
    ensures OfficeSound(cfg, r.0)
  {
    FitIsSound(cfg, r.0.tables, id, if r.1.Returned? then r.1.finalState else sealsFrom);
    OnwardKeepsSound(cfg, o, r.0, id);
  }

  lemma DocketKeepsSound(cfg: Config, o: Office, inv: Invocation, id: string)
    requires OfficeSound(cfg, o) && id in o.tables.messages && CurrentState(o.tables, id) == Pending
    ensures OfficeSound(cfg, ProcessDocket(cfg, o, inv, id).0)
  {
    PendingFits(cfg, o, id);
    DocketEnds(cfg, o, inv, id);
    EndsSound(cfg, inv, o, ProcessDocket(cfg, o, inv, id), id, Reviewed);
  }

  lemma FinalizeKeepsSound(cfg: Config, o: Office, inv: Invocation, id: string)
    requires OfficeSound(cfg, o) && id in o.tables.messages && CurrentState(o.tables, id) == Pending
    ensures OfficeSound(cfg, FinalizePending(cfg, o, inv, id).0)
  {
    PendingFits(cfg, o, id);
    if FinalizeGate(cfg, o, inv, id).Shut? {
      ShutFinalizeEnds(cfg, o, inv, id);
      ConsultedIsOnward(cfg, o, FinalizePending(cfg, o, inv, id).0, id);
      OnwardKeepsSound(cfg, o, FinalizePending(cfg, o, inv, id).0, id);
    } else {
      FinalizeEnds(cfg, o, inv, id);
      EndsSound(cfg, inv, o, FinalizePending(cfg, o, inv, id), id, Pending);
    }
  }

  lemma SameRowsSameState(t: Tables, after: Tables, id: string)
    requires RowsOf(after.log, id) == RowsOf(t.log, id)
    ensures CurrentState(after, id) == CurrentState(t, id)
  {
  }

  /** Storing seals touches nothing else. */
  lemma {:induction false} PutSealsKeepsRest(t: Tables, seals: seq<SealRecord>)
    ensures PutSeals(t, seals).0 == t.(seals := PutSeals(t, seals).0.seals)
    decreases |seals|
  {
    if seals != [] && AppendSeal(t, seals[0]).Success? { PutSealsKeepsRest(AppendSeal(t, seals[0]).value, seals[1..]); }
  }

  // ----- The worker's catch path -----

  /** Where the catch path finds a message it may still reject, or has nothing left to do. */
  predicate Catchable(s: MessageState) {
    s != Authorized && s != MessageState.Archived
  }

  /** The row the catch path adds to a log. */
  ghost predicate CaughtRow(d: Digests, rows: seq<Row>, row: Row) {
    && row.sequenceNo == |rows| + 1 && row.fromState == StateAfter(rows) && row.toState == Rejected
    && row.prevHash == (if rows == [] then "GENESIS" else rows[|rows| - 1].prevHash)
    && row.actorId == Some("gateway-worker") && row.hash == d.transition(InputOf(row))
  }

  lemma CatchAccepted(d: Digests, t: Tables, id: string, nowMs: int, reason: string)
    requires Walk(RowsOf(t.log, id)) && id in t.messages
    ensures var tr := CatchTransition(t, id, nowMs, reason);
            AppendTransition(d, t, tr).Success? && CaughtRow(d, RowsOf(t.log, id), RowFor(d, t, tr))
  {
    CurrentIsStateAfter(t, id);
    WalkIsRead(t, id);
    TakenInWalk(t, id, |RowsOf(t.log, id)| + 1);
  }

  /** A rejection leaves the laws as they are, so the office stays in order. */
  lemma RejectionKeepsOrder(cfg: Config, o: Office, tr: Transition)
    requires Orderly(cfg, o) && tr.toState == Rejected && AppendTransition(cfg.digests, o.tables, tr).Success?
    ensures Orderly(cfg, o.(tables := AppendTransition(cfg.digests, o.tables, tr).value))
    ensures AppendTransition(cfg.digests, o.tables, tr).value.seals == o.tables.seals
  {
    AppendShape(cfg.digests, o.tables, tr);
    EdictsAfterAppend(cfg.digests, o.tables, tr);
    AppendTransitionKeeps(cfg.digests, o.tables, tr);
  }

  lemma CatchAppends(cfg: Config, o: Office, id: string, nowMs: int, reason: string) returns (row: Row)
    requires Orderly(cfg, o) && id in o.tables.messages && Walk(RowsOf(o.tables.log, id))
    requires CurrentState(o.tables, id) != Rejected
    ensures CaughtRow(cfg.digests, RowsOf(o.tables.log, id), row)
    ensures var (after, failed) := CatchFailure(cfg, o, id, nowMs, reason);
            failed.None? && LeavesOthers(o.tables, after.tables, id) && Orderly(cfg, after) &&
            after.tables.seals == o.tables.seals && RowsOf(after.tables.log, id) == RowsOf(o.tables.log, id) + [row]
  {
    var tr := CatchTransition(o.tables, id, nowMs, reason);
    CatchAccepted(cfg.digests, o.tables, id, nowMs, reason);
    AppendLeavesOthers(cfg.digests, o.tables, tr);
    RejectionKeepsOrder(cfg, o, tr);
    row := RowFor(cfg.digests, o.tables, tr);
  }

  lemma CaughtIsSound(cfg: Config, rows: seq<Row>, row: Row)
    requires Walk(rows) && SelfHashed(cfg.digests, rows) && HashLinked(rows) && OnlyAllowed(rows)
    requires Catchable(StateAfter(rows)) && StateAfter(rows) != Rejected && CaughtRow(cfg.digests, rows, row)
    ensures var more := rows + [row];
            Walk(more) && SelfHashed(cfg.digests, more) && Chained(more) && OnlyAllowed(more) && StateAfter(more) == Rejected
  {
    RowsExtended(cfg.digests, rows, row);
    assert (rows + [row])[..|rows|] == rows;
  }

  lemma UnfinishedLog(rows: seq<Row>)
    requires StateAfter(rows) != Rejected && StateAfter(rows) != MessageState.Archived
    ensures Chained(rows) ==> HashLinked(rows)
    ensures !Founded(rows)
  {
  }

  lemma CatchableLog(cfg: Config, t: Tables, id: string)
    requires MessageSound(cfg, t, id) && Catchable(CurrentState(t, id)) && CurrentState(t, id) != Rejected
    ensures var rows := RowsOf(t.log, id);
            StateAfter(rows) == CurrentState(t, id) && HashLinked(rows) && OnlyAllowed(rows) && SealsOf(t.seals, id) == []
  {
    CurrentIsStateAfter(t, id);
    UnfinishedLog(RowsOf(t.log, id));
  }

  /** The catch path keeps the office sound where it may still reject; the row it adds is linked amiss. */
  lemma CatchKeepsSound(cfg: Config, o: Office, id: string, nowMs: int, reason: string)
    requires OfficeSound(cfg, o) && id in o.tables.messages && Catchable(CurrentState(o.tables, id))
    ensures OfficeSound(cfg, CatchFailure(cfg, o, id, nowMs, reason).0)
  {
    if CurrentState(o.tables, id) != Rejected {
      CatchableLog(cfg, o.tables, id);
      var row := CatchAppends(cfg, o, id, nowMs, reason);
      CaughtIsSound(cfg, RowsOf(o.tables.log, id), row);
      SoundAfterCatch(cfg, o.tables, CatchFailure(cfg, o, id, nowMs, reason).0.tables, id, row);
      OneMessageMoved(cfg, o, CatchFailure(cfg, o, id, nowMs, reason).0, id);
    }
  }

  lemma SoundAfterCatch(cfg: Config, t: Tables, after: Tables, id: string, row: Row)
    requires RowsOf(after.log, id) == RowsOf(t.log, id) + [row] && SealsOf(t.seals, id) == [] && after.seals == t.seals
    requires var more := RowsOf(t.log, id) + [row];
             Walk(more) && SelfHashed(cfg.digests, more) && Chained(more) && OnlyAllowed(more) && StateAfter(more) == Rejected
    ensures MessageSound(cfg, after, id)
  {
  }

  /** The worker's step: a docket step, and the catch path when it throws. */
  function Work(cfg: Config, o: Office, inv: Invocation, id: string, nowMs: int, reason: string): Office {
    var r := ProcessDocket(cfg, o, inv, id);
    if r.1.Threw? then CatchFailure(cfg, r.0, id, nowMs, reason).0 else r.0
  }

  lemma WorkKeepsSound(cfg: Config, o: Office, inv: Invocation, id: string, nowMs: int, reason: string)
    requires OfficeSound(cfg, o) && id in o.tables.messages && CurrentState(o.tables, id) == Pending
    ensures OfficeSound(cfg, Work(cfg, o, inv, id, nowMs, reason))
  {
    var r := ProcessDocket(cfg, o, inv, id);
    DocketKeepsSound(cfg, o, inv, id);
    if r.1.Threw? {
      PendingFits(cfg, o, id);
      DocketEnds(cfg, o, inv, id);
      Stored(cfg, r.0, id, Reviewed);
      CatchKeepsSound(cfg, r.0, id, nowMs, reason);
    }
  }

  // ----- New messages -----

  function Submit(cfg: Config, o: Office, m: Message, receivedAt: int): Office {
    match AppendMessage(cfg.digests, o.tables, m, receivedAt)
    case Failure(_) => o
    case Success(after) => o.(tables := after)
  }

  lemma {:induction false} NoSealsOfUnknown(seals: seq<SealRecord>, id: string)
    requires forall i | 0 <= i < |seals| :: seals[i].messageId != id
    ensures SealsOf(seals, id) == []
  {
    if seals != [] { NoSealsOfUnknown(seals[..|seals| - 1], id); }
  }

  lemma UnknownIsBlank(cfg: Config, o: Office, id: string)
    requires Orderly(cfg, o) && id !in o.tables.messages
    ensures RowsOf(o.tables.log, id) == [] && SealsOf(o.tables.seals, id) == []
  {
    NoRowsNoMessage(o.tables.log, id);
    NoSealsOfUnknown(o.tables.seals, id);
  }

  lemma SubmitKeepsSound(cfg: Config, o: Office, m: Message, receivedAt: int)
    requires OfficeSound(cfg, o)
    ensures OfficeSound(cfg, Submit(cfg, o, m, receivedAt))
    ensures Storable(o.tables, m) ==> StateFit(cfg, Submit(cfg, o, m, receivedAt).tables, m.id, Pending)
  {
    if Storable(o.tables, m) {
      var after := Submit(cfg, o, m, receivedAt);
      AppendMessageKeeps(cfg.digests, o.tables, m, receivedAt);
      UnknownIsBlank(cfg, o, m.id);
      forall x | x in after.tables.messages ensures MessageSound(cfg, after.tables, x) {
        if x != m.id { StaysSoundAmongMore(cfg, o.tables, after.tables, x); }
      }
    }
  }

  lemma StaysSoundAmongMore(cfg: Config, t: Tables, after: Tables, x: string)
    requires x in t.messages && x in after.messages && after.messages[x].body == t.messages[x].body
    requires after.log == t.log && after.seals == t.seals && MessageSound(cfg, t, x)
    ensures MessageSound(cfg, after, x)
  {
    if StateAfter(RowsOf(t.log, x)) == MessageState.Archived {
      var context, at :| Verdict(cfg.crypto, t.messages[x].body, SealsOf(t.seals, x), context, at) == Some(true);
      assert Verdict(cfg.crypto, after.messages[x].body, SealsOf(after.seals, x), context, at) == Some(true);
    }
  }

  // ----- Genesis -----

  function FoundingTransition(inv: Invocation, m: Message): Transition {
    Transition(m.id, Pending, MessageState.Archived, 1, Some(m.actor.id), Some(inv.stamps(1).sealedAt), None, Some("GENESIS"),
               inv.stamps(1).at)
  }

  /** The chain comes out and verifies. */
  predicate ChainPasses(cfg: Config, inv: Invocation, m: Message) {
    var chain := NewChain(cfg.crypto, m, inv.context, inv.seals);
    chain.Success? && Verdict(cfg.crypto, m, chain.value, inv.context, inv.verifiedAt) == Some(true)
  }

  /** Genesis stores a message with its seals and archives it at once; where it throws, what it did stays. */
  function Found(cfg: Config, o: Office, inv: Invocation, m: Message, receivedAt: int): Office {
    if !Storable(o.tables, m) then o else
      var submitted := Submit(cfg, o, m, receivedAt);
      match NewChain(cfg.crypto, m, inv.context, inv.seals)
      case Failure(_) => submitted
      case Success(seals) =>
        if Verdict(cfg.crypto, m, seals, inv.context, inv.verifiedAt) != Some(true) then submitted
        else FoundSealed(cfg, submitted, inv, m, seals)
  }

  function FoundSealed(cfg: Config, o: Office, inv: Invocation, m: Message, seals: seq<SealRecord>): Office {
    var (tables, failed) := PutSeals(o.tables, seals);
    if failed.Some? then o.(tables := tables)
    else match AppendTransition(cfg.digests, tables, FoundingTransition(inv, m))
      case Failure(_) => o.(tables := tables)
      case Success(after) => o.(tables := after)
  }

  /** Indexing the edict would leave the cached answer about its law type standing. */
  predicate CacheUnharmed(cfg: Config, o: Office, inv: Invocation, m: Message) {
    Indexable(m) ==>
      Unharmed(o.tables.edicts, cfg.ttlMs, o.history, o.cache, m.id, EdictRowOf(m, inv.stamps(1).sealedAt))
  }

  /** Genesis archives nothing, or what it archives leaves the cache standing. */
  predicate SafeToFound(cfg: Config, o: Office, inv: Invocation, m: Message) {
    Storable(o.tables, m) && ChainPasses(cfg, inv, m) ==> CacheUnharmed(cfg, o, inv, m)
  }

  lemma FoundingAppends(cfg: Config, t: Tables, inv: Invocation, m: Message) returns (row: Row)
    requires m.id in t.messages && RowsOf(t.log, m.id) == []
    ensures AppendTransition(cfg.digests, t, FoundingTransition(inv, m)).Success?
    ensures var after := AppendTransition(cfg.digests, t, FoundingTransition(inv, m)).value;
            LeavesOthers(t, after, m.id) && after.seals == t.seals && RowsOf(after.log, m.id) == [row]
    ensures row.sequenceNo == 1 && row.fromState == Pending && row.toState == MessageState.Archived
    ensures row.prevHash == "GENESIS" && row.hash == cfg.digests.transition(InputOf(row))
  {
    var tr := FoundingTransition(inv, m);
    TakenInWalk(t, m.id, 1);
    row := RowFor(cfg.digests, t, tr);
    AppendLeavesOthers(cfg.digests, t, tr);
    AppendShape(cfg.digests, t, tr);
    assert [] + [row] == [row];
  }

  lemma LeavesOthersTransitive(a: Tables, b: Tables, c: Tables, id: string)
    requires LeavesOthers(a, b, id) && LeavesOthers(b, c, id)
    ensures LeavesOthers(a, c, id)
  {
  }

  lemma FoundedIsSound(cfg: Config, t: Tables, after: Tables, m: Message, row: Row)
    requires m.id in t.messages && m.id in after.messages && after.messages[m.id].body == t.messages[m.id].body
    requires after.seals == t.seals && Sealed(cfg.crypto, t, m.id) && RowsOf(after.log, m.id) == [row]
    requires row.sequenceNo == 1 && row.fromState == Pending && row.toState == MessageState.Archived
    requires row.prevHash == "GENESIS" && row.hash == cfg.digests.transition(InputOf(row))
    ensures MessageSound(cfg, after, m.id)
  {
    var context, at :| Verdict(cfg.crypto, t.messages[m.id].body, SealsOf(t.seals, m.id), context, at) == Some(true);
    assert Verdict(cfg.crypto, after.messages[m.id].body, SealsOf(after.seals, m.id), context, at) == Some(true);
  }

  lemma FoundingEdicts(cfg: Config, t: Tables, inv: Invocation, m: Message)
    requires m.id in t.messages && t.messages[m.id].body == m && RowsOf(t.log, m.id) == []
    ensures AppendTransition(cfg.digests, t, FoundingTransition(inv, m)).Success?
    ensures AppendTransition(cfg.digests, t, FoundingTransition(inv, m)).value.edicts ==
            if Indexable(m) then t.edicts[m.id := EdictRowOf(m, inv.stamps(1).sealedAt)] else t.edicts
  {
    var tr := FoundingTransition(inv, m);
    TakenInWalk(t, m.id, 1);
    EdictsAfterAppend(cfg.digests, t, tr);
  }

  lemma UnarchivedNotIndexed(d: Digests, t: Tables, id: string)
    requires Consistent(d, t) && RowsOf(t.log, id) == []
    ensures id !in t.edicts
  {
    assert id in t.messages ==> MessageConsistent(d, t.messages[id], id, RowsOf(t.log, id));
  }

  lemma FoundingKeepsCache(cfg: Config, o: Office, inv: Invocation, m: Message)
    requires Orderly(cfg, o) && CacheUnharmed(cfg, o, inv, m) && m.id in o.tables.messages && o.tables.messages[m.id].body == m
    requires RowsOf(o.tables.log, m.id) == []
    requires AppendTransition(cfg.digests, o.tables, FoundingTransition(inv, m)).Success?
    ensures CacheCoherent(cfg, o.(tables := AppendTransition(cfg.digests, o.tables, FoundingTransition(inv, m)).value))
  {
    FoundingEdicts(cfg, o.tables, inv, m);
    if Indexable(m) {
      UnarchivedNotIndexed(cfg.digests, o.tables, m.id);
      IndexedCacheExactly(o.tables.edicts, cfg.ttlMs, o.history, o.cache, m.id, EdictRowOf(m, inv.stamps(1).sealedAt));
    }
  }

  /** What genesis appends to a sealed message leaves the office sound. */
  lemma FoundingKeepsSound(cfg: Config, o: Office, inv: Invocation, m: Message)
    requires Orderly(cfg, o) && CacheUnharmed(cfg, o, inv, m) && m.id in o.tables.messages && o.tables.messages[m.id].body == m
    requires RowsOf(o.tables.log, m.id) == [] && Sealed(cfg.crypto, o.tables, m.id)
    ensures AppendTransition(cfg.digests, o.tables, FoundingTransition(inv, m)).Success?
    ensures var after := o.(tables := AppendTransition(cfg.digests, o.tables, FoundingTransition(inv, m)).value);
            Orderly(cfg, after) && LeavesOthers(o.tables, after.tables, m.id) && MessageSound(cfg, after.tables, m.id)
  {
    var row := FoundingAppends(cfg, o.tables, inv, m);
    AppendTransitionKeeps(cfg.digests, o.tables, FoundingTransition(inv, m));
    var after := AppendTransition(cfg.digests, o.tables, FoundingTransition(inv, m)).value;
    FoundedIsSound(cfg, o.tables, after, m, row);
    StillKeyed(o.tables, after, m.id);
    FoundingKeepsCache(cfg, o, inv, m);
  }

  lemma StillKeyed(t: Tables, after: Tables, id: string)
    requires SealsKeyed(t) && LeavesOthers(t, after, id) && after.seals == t.seals
    ensures SealsKeyed(after)
  {
  }

  lemma FoundSealedKeepsSound(cfg: Config, o: Office, inv: Invocation, m: Message, seals: seq<SealRecord>)
    requires OfficeSound(cfg, o) && CacheUnharmed(cfg, o, inv, m) && m.id in o.tables.messages && o.tables.messages[m.id].body == m
    requires RowsOf(o.tables.log, m.id) == [] && SealsOf(o.tables.seals, m.id) == [] && FreshSeals(seals, m.id)
    requires Verdict(cfg.crypto, m, seals, inv.context, inv.verifiedAt) == Some(true)
    ensures OfficeSound(cfg, FoundSealed(cfg, o, inv, m, seals))
  {
    SealsStoredOnward(cfg, o, seals, m.id);
    var stored := o.(tables := o.tables.(seals := o.tables.seals + seals));
    assert Sealed(cfg.crypto, stored.tables, m.id);
    FoundingKeepsSound(cfg, stored, inv, m);
    var after := FoundSealed(cfg, o, inv, m, seals);
    LeavesOthersTransitive(o.tables, stored.tables, after.tables, m.id);
    OneMessageMoved(cfg, o, after, m.id);
  }

  lemma FoundSealedIsSealed(cfg: Config, o: Office, inv: Invocation, m: Message, seals: seq<SealRecord>)
    requires Orderly(cfg, o) && m.id in o.tables.messages && o.tables.messages[m.id].body == m
    requires RowsOf(o.tables.log, m.id) == [] && SealsOf(o.tables.seals, m.id) == [] && FreshSeals(seals, m.id)
    requires Verdict(cfg.crypto, m, seals, inv.context, inv.verifiedAt) == Some(true)
    ensures SealedBy(cfg, inv, FoundSealed(cfg, o, inv, m, seals).tables, m.id)
  {
    ChainStored(o.tables, seals, m.id);
    var stored := o.tables.(seals := o.tables.seals + seals);
    var row := FoundingAppends(cfg, stored, inv, m);
    assert FoundSealed(cfg, o, inv, m, seals).tables == AppendTransition(cfg.digests, stored, FoundingTransition(inv, m)).value;
  }

  /** What genesis writes for a message it archives: one row from pending to archived. */
  lemma FoundingWrites(cfg: Config, o: Office, inv: Invocation, m: Message, receivedAt: int)
    requires OfficeSound(cfg, o) && Storable(o.tables, m) && ChainPasses(cfg, inv, m)
    ensures var stamp := inv.stamps(1);
            Found(cfg, o, inv, m, receivedAt).tables.log == o.tables.log +
              [Row(m.id, Pending, MessageState.Archived, 1, Some(m.actor.id), Some(stamp.sealedAt), None, "GENESIS",
                   cfg.digests.transition(HashInput(m.id, Pending, MessageState.Archived, 1, Some(m.actor.id), "GENESIS", stamp.at)),
                   stamp.at)]
  {
    var submitted := Submit(cfg, o, m, receivedAt);
    var seals := NewChain(cfg.crypto, m, inv.context, inv.seals).value;
    SubmitKeepsSound(cfg, o, m, receivedAt);
    UnknownIsBlank(cfg, o, m.id);
    NewChainIsFresh(cfg.crypto, m, inv.context, inv.seals, seals);
    ChainStored(submitted.tables, seals, m.id);
    FoundingRow(cfg, submitted.tables.(seals := submitted.tables.seals + seals), inv, m);
  }

  lemma FoundingRow(cfg: Config, t: Tables, inv: Invocation, m: Message)
    requires m.id in t.messages && RowsOf(t.log, m.id) == []
    ensures AppendTransition(cfg.digests, t, FoundingTransition(inv, m)).Success?
    ensures var stamp := inv.stamps(1);
            AppendTransition(cfg.digests, t, FoundingTransition(inv, m)).value.log == t.log +
              [Row(m.id, Pending, MessageState.Archived, 1, Some(m.actor.id), Some(stamp.sealedAt), None, "GENESIS",
                   cfg.digests.transition(HashInput(m.id, Pending, MessageState.Archived, 1, Some(m.actor.id), "GENESIS", stamp.at)),
                   stamp.at)]
  {
    TakenInWalk(t, m.id, 1);
    AppendShape(cfg.digests, t, FoundingTransition(inv, m));
  }

  lemma FoundingSafelyKeepsSound(cfg: Config, o: Office, inv: Invocation, m: Message, receivedAt: int)
    requires OfficeSound(cfg, o) && SafeToFound(cfg, o, inv, m)
    ensures OfficeSound(cfg, Found(cfg, o, inv, m, receivedAt))
    ensures Storable(o.tables, m) && ChainPasses(cfg, inv, m) ==>
              SealedBy(cfg, inv, Found(cfg, o, inv, m, receivedAt).tables, m.id)
  {
    if Storable(o.tables, m) {
      SubmitKeepsSound(cfg, o, m, receivedAt);
      UnknownIsBlank(cfg, o, m.id);
      var chain := NewChain(cfg.crypto, m, inv.context, inv.seals);
      if chain.Success? && Verdict(cfg.crypto, m, chain.value, inv.context, inv.verifiedAt) == Some(true) {
        NewChainIsFresh(cfg.crypto, m, inv.context, inv.seals, chain.value);
        FoundSealedKeepsSound(cfg, Submit(cfg, o, m, receivedAt), inv, m, chain.value);
        FoundSealedIsSealed(cfg, Submit(cfg, o, m, receivedAt), inv, m, chain.value);
      }
    }
  }

  /** Genesis drops no cached law, and keeps the office sound exactly when it archives nothing or the cached answer about
      the founded edict's law type stands: some call that may have kept it asked about a moment before the edict's
      effective date, or the edict leaves the answer as it is. */
  lemma FoundKeepsSoundExactly(cfg: Config, o: Office, inv: Invocation, m: Message, receivedAt: int)
    requires OfficeSound(cfg, o)
    ensures OfficeSound(cfg, Found(cfg, o, inv, m, receivedAt)) <==> SafeToFound(cfg, o, inv, m)
  {
    if SafeToFound(cfg, o, inv, m) {
      FoundingSafelyKeepsSound(cfg, o, inv, m, receivedAt);
    } else {
      FoundedEdicts(cfg, o, inv, m, receivedAt);
      NewIsNotIndexed(cfg, o, m.id);
      IndexedCacheExactly(o.tables.edicts, cfg.ttlMs, o.history, o.cache, m.id, EdictRowOf(m, inv.stamps(1).sealedAt));
    }
  }

  lemma NewIsNotIndexed(cfg: Config, o: Office, id: string)
    requires Orderly(cfg, o) && id !in o.tables.messages
    ensures id !in o.tables.edicts
  {
  }

  /** For the first edict of its type, which does not name itself as superseded, beside a cached answer: exactly when
      some call that may have kept the answer asked about a moment before the edict takes effect. */
  lemma FoundingFirstEdictExactly(cfg: Config, o: Office, inv: Invocation, m: Message, receivedAt: int)
    requires OfficeSound(cfg, o) && Storable(o.tables, m) && ChainPasses(cfg, inv, m)
    requires Indexable(m) && m.payload.lawType.value in o.cache
    requires EdictRowOf(m, inv.stamps(1).sealedAt).supersededEdictId != Some(m.id)
    requires forall x | x in o.tables.edicts :: o.tables.edicts[x].lawType != m.payload.lawType.value
    ensures OfficeSound(cfg, Found(cfg, o, inv, m, receivedAt)) <==>
              exists c | c in o.history :: MayHaveKept(c, m.payload.lawType.value, cfg.ttlMs, o.cache[m.payload.lawType.value]) &&
                                           c.at < EdictRowOf(m, inv.stamps(1).sealedAt).effectiveDate
  {
    FoundKeepsSoundExactly(cfg, o, inv, m, receivedAt);
    FirstEdictUnharmedExactly(o.tables.edicts, cfg.ttlMs, o.history, o.cache, m.id, EdictRowOf(m, inv.stamps(1).sealedAt));
  }

  lemma FoundedEdicts(cfg: Config, o: Office, inv: Invocation, m: Message, receivedAt: int)
    requires OfficeSound(cfg, o) && Storable(o.tables, m) && ChainPasses(cfg, inv, m) && Indexable(m)
    ensures var after := Found(cfg, o, inv, m, receivedAt);
            after.tables.edicts == o.tables.edicts[m.id := EdictRowOf(m, inv.stamps(1).sealedAt)] &&
            after.cache == o.cache && after.history == o.history
  {
    var submitted := Submit(cfg, o, m, receivedAt);
    var seals := NewChain(cfg.crypto, m, inv.context, inv.seals).value;
    SubmitKeepsSound(cfg, o, m, receivedAt);
    UnknownIsBlank(cfg, o, m.id);
    NewChainIsFresh(cfg.crypto, m, inv.context, inv.seals, seals);
    ChainStored(submitted.tables, seals, m.id);
    FoundingEdicts(cfg, submitted.tables.(seals := submitted.tables.seals + seals), inv, m);
  }
}
