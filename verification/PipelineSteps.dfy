/** What one pipeline call does to the message it is about, and what it leaves alone. */
module PipelineSteps {
  import opened Wrappers
  import opened Kinds
  import opened SealChain
  import opened Archive
  import opened Law
  import opened LawResolver
  import opened LogShape
  import opened Pipeline
  import Consensus

  // ----- One message in the tables -----

  /** The message's log is a walk over allowed transitions that has arrived at `s`. */
  ghost predicate Track(d: Digests, t: Tables, id: string, s: MessageState) {
    && id in t.messages
    && Walk(RowsOf(t.log, id)) && OnlyAllowed(RowsOf(t.log, id)) && SelfHashed(d, RowsOf(t.log, id))
    && StateAfter(RowsOf(t.log, id)) == s
  }

  /** Six seals that verified for the stored message, in some context at some time. */
  ghost predicate Sealed(c: Crypto, t: Tables, id: string) {
    id in t.messages &&
    exists context, at :: Verdict(c, t.messages[id].body, SealsOf(t.seals, id), context, at) == Some(true)
  }

  /** Seals are stored exactly for archived messages. */
  ghost predicate StateFit(cfg: Config, t: Tables, id: string, s: MessageState) {
    Track(cfg.digests, t, id, s) &&
    if s == MessageState.Archived then Sealed(cfg.crypto, t, id) else SealsOf(t.seals, id) == []
  }

  ghost predicate SealsKeyed(t: Tables) {
    forall i | 0 <= i < |t.seals| ::
      t.seals[i].sealId.messageId == t.seals[i].messageId && t.seals[i].messageId in t.messages
  }

  /** Nothing changes but the one message's own log, which only grows, and its seals and columns. */
  ghost predicate LeavesOthers(t: Tables, after: Tables, id: string) {
    && after.messages.Keys == t.messages.Keys
    && (forall x | x in t.messages :: after.messages[x].body == t.messages[x].body)
    && after.approvals == t.approvals && after.localLeaves == t.localLeaves
    && (forall x | x != id :: RowsOf(after.log, x) == RowsOf(t.log, x))
    && (forall x | x != id :: SealsOf(after.seals, x) == SealsOf(t.seals, x))
    && RowsOf(t.log, id) <= RowsOf(after.log, id)
  }

  /** And a hash-linked log stays linked. */
  ghost predicate Moves(t: Tables, after: Tables, id: string) {
    LeavesOthers(t, after, id) && (HashLinked(RowsOf(t.log, id)) ==> HashLinked(RowsOf(after.log, id)))
  }

  ghost predicate ReplicaValid(cfg: Config, o: Office) {
    o.replica.Some? ==> Consensus.LogValid(cfg.signer, cfg.pbft, o.replica.value)
  }

  ghost predicate CacheCoherent(cfg: Config, o: Office) {
    Coherent(o.tables.edicts, cfg.ttlMs, o.history, o.cache)
  }

  /** What holds of the office as a whole, whatever its messages are up to. */
  ghost predicate Orderly(cfg: Config, o: Office) {
    Consistent(cfg.digests, o.tables) && SealsKeyed(o.tables) && CacheCoherent(cfg, o) && ReplicaValid(cfg, o)
  }

  /** A stretch of one call on message `id`. */
  ghost predicate Onward(cfg: Config, o: Office, after: Office, id: string) {
    Moves(o.tables, after.tables, id) && o.history <= after.history && (Orderly(cfg, o) ==> Orderly(cfg, after))
  }

  lemma OnwardTransitive(cfg: Config, a: Office, b: Office, c: Office, id: string)
    requires Onward(cfg, a, b, id) && Onward(cfg, b, c, id)
    ensures Onward(cfg, a, c, id)
  {
  }

  // ----- Consulting laws and consensus -----

  /** Only the cache and the replica have changed. */
  ghost predicate Consulted(cfg: Config, o: Office, after: Office) {
    after.tables == o.tables && o.history <= after.history && (Orderly(cfg, o) ==> Orderly(cfg, after))
  }

  lemma ConsultedIsOnward(cfg: Config, o: Office, after: Office, id: string)
    requires Consulted(cfg, o, after)
    ensures Onward(cfg, o, after, id)
  {
  }

  lemma LoadLawConsults<T>(cfg: Config, o: Office, inv: Invocation, k: nat, lawType: string, at: int, parse: string -> Option<T>)
    ensures Consulted(cfg, o, LoadLaw(cfg, o, inv, k, lawType, at, parse).0)
    ensures LoadLaw(cfg, o, inv, k, lawType, at, parse).0.replica == o.replica
  {
    if CacheCoherent(cfg, o) {
      LookUpKeepsCoherent(o.tables.edicts, cfg.ttlMs, o.history, o.cache, lawType, at, inv.lookups(k));
    }
  }

  lemma RoutingConsults(cfg: Config, o: Office, inv: Invocation, m: Message)
    ensures Consulted(cfg, o, ApplyRoutingLaw(cfg, o, inv, m).0)
  {
    LoadLawConsults(cfg, o, inv, 0, "routing", SnapshotAt(m), cfg.rules.routing);
  }

  lemma ReviewConsults(cfg: Config, o: Office, inv: Invocation, m: Message)
    ensures Consulted(cfg, o, Review(cfg, o, inv, m).0)
  {
    var o1 := LoadLaw(cfg, o, inv, 1, "appointment", SnapshotAt(m), cfg.rules.appointment).0;
    LoadLawConsults(cfg, o, inv, 1, "appointment", SnapshotAt(m), cfg.rules.appointment);
    LoadLawConsults(cfg, o1, inv, 2, "classification", SnapshotAt(m), cfg.rules.classification);
  }

  lemma ConsensusConsults(cfg: Config, o: Office, inv: Invocation, m: Message)
    ensures Consulted(cfg, o, ConsensusGate(cfg, o, inv, m).0)
  {
    if o.replica.Some? && ReplicaValid(cfg, o) {
      var r := o.replica.value;
      Consensus.SignAndAppendKeeps(cfg.signer, cfg.pbft, r,
        Consensus.ToSign(m.id, r.viewNo, inv.nodeId, Consensus.PrePrepare, inv.proposedAt));
    }
  }

  lemma GatesConsult(cfg: Config, o: Office, inv: Invocation, k: nat, m: Message)
    ensures Consulted(cfg, o, Gates(cfg, o, inv, k, m).0)
  {
    LoadLawConsults(cfg, o, inv, k, "protocol", SnapshotAt(m), cfg.rules.protocol);
    ConsensusConsults(cfg, AcksGate(cfg, o, inv, k, m).0, inv, m);
  }

  // ----- Appending -----

  lemma NextRow(d: Digests, t: Tables, tr: Transition)
    requires Walk(RowsOf(t.log, tr.messageId)) && tr.prevTransitionHash.None?
    ensures RowFor(d, t, tr).prevHash == HashAfter(RowsOf(t.log, tr.messageId))
    ensures RowFor(d, t, tr).hash == d.transition(InputOf(RowFor(d, t, tr)))
  {
    if RowsOf(t.log, tr.messageId) != [] { LatestIsLast(RowsOf(t.log, tr.messageId)); }
  }

  lemma RowsExtended(d: Digests, rows: seq<Row>, row: Row)
    requires Walk(rows) && OnlyAllowed(rows) && SelfHashed(d, rows)
    requires row.sequenceNo == |rows| + 1 && row.fromState == StateAfter(rows) && CanTransition(row.fromState, row.toState)
    requires row.hash == d.transition(InputOf(row))
    ensures Walk(rows + [row]) && OnlyAllowed(rows + [row]) && SelfHashed(d, rows + [row])
    ensures StateAfter(rows + [row]) == row.toState
  {
    WalkAppend(rows, row);
  }

  /** The walk's next transition is accepted. */
  lemma NextIsAccepted(cfg: Config, t: Tables, inv: Invocation, m: Message, from: MessageState, to: MessageState, reason: Option<string>)
    requires Track(cfg.digests, t, m.id, from)
    ensures var tr := NextTransition(t, inv, m, from, to, reason);
            tr.sequenceNo == |RowsOf(t.log, m.id)| + 1 && AppendTransition(cfg.digests, t, tr).Success?
  {
    CurrentIsStateAfter(t, m.id);
    TakenInWalk(t, m.id, |RowsOf(t.log, m.id)| + 1);
  }

  lemma AppendLeavesOthers(d: Digests, t: Tables, tr: Transition)
    requires AppendTransition(d, t, tr).Success?
    ensures LeavesOthers(t, AppendTransition(d, t, tr).value, tr.messageId)
    ensures RowsOf(AppendTransition(d, t, tr).value.log, tr.messageId) == RowsOf(t.log, tr.messageId) + [RowFor(d, t, tr)]
  {
    AppendShape(d, t, tr);
    var after, row := AppendTransition(d, t, tr).value, RowFor(d, t, tr);
    forall x ensures RowsOf(after.log, x) == RowsOf(t.log, x) + (if x == tr.messageId then [row] else []) {
      RowsOfAppend(t.log, row, x);
    }
  }

  lemma AppendMoves(d: Digests, t: Tables, tr: Transition)
    requires AppendTransition(d, t, tr).Success?
    requires HashLinked(RowsOf(t.log, tr.messageId)) ==>
               RowFor(d, t, tr).prevHash == HashAfter(RowsOf(t.log, tr.messageId))
    ensures Moves(t, AppendTransition(d, t, tr).value, tr.messageId)
    ensures RowsOf(AppendTransition(d, t, tr).value.log, tr.messageId) == RowsOf(t.log, tr.messageId) + [RowFor(d, t, tr)]
  {
    AppendLeavesOthers(d, t, tr);
    if HashLinked(RowsOf(t.log, tr.messageId)) { LinkAppend(RowsOf(t.log, tr.messageId), RowFor(d, t, tr)); }
  }

  lemma EdictsAfterAppend(d: Digests, t: Tables, tr: Transition)
    requires AppendTransition(d, t, tr).Success?
    ensures AppendTransition(d, t, tr).value.edicts ==
            if tr.toState == MessageState.Archived && Indexable(t.messages[tr.messageId].body)
            then t.edicts[tr.messageId := EdictRowOf(t.messages[tr.messageId].body, tr.sealedAt.GetOr(tr.at))]
            else t.edicts
    ensures tr.toState != MessageState.Archived ==> AppendTransition(d, t, tr).value.types == t.types
  {
  }

  /** An allowed next transition goes through and takes the message there. */
  lemma AppendNextMoves(cfg: Config, o: Office, inv: Invocation, m: Message, from: MessageState, to: MessageState, reason: Option<string>)
    requires Track(cfg.digests, o.tables, m.id, from) && CanTransition(from, to)
    ensures AppendNext(cfg, o, inv, m, from, to, reason).Success?
    ensures var after := AppendNext(cfg, o, inv, m, from, to, reason).value;
            after == o.(tables := after.tables) && after.tables.seals == o.tables.seals &&
            Moves(o.tables, after.tables, m.id) && Track(cfg.digests, after.tables, m.id, to) &&
            (Consistent(cfg.digests, o.tables) ==> Consistent(cfg.digests, after.tables)) &&
            (to != MessageState.Archived ==> after.tables.edicts == o.tables.edicts)
  {
    var d, t, tr := cfg.digests, o.tables, NextTransition(o.tables, inv, m, from, to, reason);
    NextIsAccepted(cfg, t, inv, m, from, to, reason);
    NextRow(d, t, tr);
    AppendMoves(d, t, tr);
    AppendShape(d, t, tr);
    EdictsAfterAppend(d, t, tr);
    RowsExtended(d, RowsOf(t.log, m.id), RowFor(d, t, tr));
    if Consistent(d, t) { AppendTransitionKeeps(d, t, tr); }
  }

  lemma AppendNextOnward(cfg: Config, o: Office, inv: Invocation, m: Message, from: MessageState, to: MessageState, reason: Option<string>)
    requires Track(cfg.digests, o.tables, m.id, from) && CanTransition(from, to) && to != MessageState.Archived
    ensures AppendNext(cfg, o, inv, m, from, to, reason).Success?
    ensures var after := AppendNext(cfg, o, inv, m, from, to, reason).value;
            Onward(cfg, o, after, m.id) && Track(cfg.digests, after.tables, m.id, to) &&
            after.tables.seals == o.tables.seals && after.tables.edicts == o.tables.edicts
  {
    AppendNextMoves(cfg, o, inv, m, from, to, reason);
  }

  lemma ConcludeOnward(cfg: Config, o: Office, inv: Invocation, m: Message, from: MessageState, to: MessageState,
                       reason: Option<string>, reported: Option<string>)
    requires Track(cfg.digests, o.tables, m.id, from) && SealsOf(o.tables.seals, m.id) == []
    requires CanTransition(from, to) && to != MessageState.Archived
    ensures var r := Conclude(cfg, o, inv, m, from, to, reason, reported);
            r.1 == Returned(to, reported) && Onward(cfg, o, r.0, m.id) && StateFit(cfg, r.0.tables, m.id, to)
  {
    AppendNextOnward(cfg, o, inv, m, from, to, reason);
  }

  // ----- Seals -----

  lemma {:induction false} SealsOfAppend(a: seq<SealRecord>, b: seq<SealRecord>, id: string)
    ensures SealsOf(a + b, id) == SealsOf(a, id) + SealsOf(b, id)
  {
    if b == [] {
      assert a + b == a;
    } else {
      var n := |b| - 1;
      SealsOfAppend(a, b[..n], id);
      assert (a + b)[..|a + b| - 1] == a + b[..n];
    }
  }

  lemma {:induction false} SealsOfOwn(seals: seq<SealRecord>, id: string)
    requires forall i | 0 <= i < |seals| :: seals[i].messageId == id
    ensures SealsOf(seals, id) == seals
    ensures forall x | x != id :: SealsOf(seals, x) == []
  {
    if seals != [] {
      var n := |seals| - 1;
      SealsOfOwn(seals[..n], id);
      assert seals == seals[..n] + [seals[n]];
    }
  }

  lemma {:induction false} NoSealsNoId(t: Tables, seals: seq<SealRecord>, id: string)
    requires SealsOf(seals, id) == []
    requires forall i | 0 <= i < |seals| :: seals[i].sealId.messageId == seals[i].messageId
    ensures forall i | 0 <= i < |seals| :: seals[i].sealId.messageId != id
  {
    if seals != [] { NoSealsNoId(t, seals[..|seals| - 1], id); }
  }

  /** Seals with new, different ids all get stored. */
  lemma {:induction false} PutSealsStores(t: Tables, seals: seq<SealRecord>)
    requires forall i | 0 <= i < |seals| :: seals[i].messageId in t.messages
    requires forall i, j | 0 <= i < |seals| && 0 <= j < |t.seals| :: t.seals[j].sealId != seals[i].sealId
    requires forall i, j | 0 <= i < j < |seals| :: seals[i].sealId != seals[j].sealId
    ensures PutSeals(t, seals) == (t.(seals := t.seals + seals), None)
    decreases |seals|
  {
    if seals == [] {
      assert t.seals + seals == t.seals;
    } else {
      var after := t.(seals := t.seals + [seals[0]]);
      assert AppendSeal(t, seals[0]) == Success(after);
      PutSealsStores(after, seals[1..]);
      assert t.seals + [seals[0]] + seals[1..] == t.seals + seals;
    }
  }

  lemma KeyedAfter(t: Tables, seals: seq<SealRecord>, id: string)
    requires SealsKeyed(t) && id in t.messages && FreshSeals(seals, id)
    ensures SealsKeyed(t.(seals := t.seals + seals))
  {
  }

  /** New seals of a message without seals are stored whole and touch no other message's seals. */
  lemma ChainStored(t: Tables, seals: seq<SealRecord>, id: string)
    requires SealsKeyed(t) && SealsOf(t.seals, id) == [] && id in t.messages && FreshSeals(seals, id)
    ensures PutSeals(t, seals) == (t.(seals := t.seals + seals), None)
    ensures SealsOf(t.seals + seals, id) == seals
    ensures forall x | x != id :: SealsOf(t.seals + seals, x) == SealsOf(t.seals, x)
  {
    NoSealsNoId(t, t.seals, id);
    PutSealsStores(t, seals);
    SealsOfOwn(seals, id);
    SealsOfAppend(t.seals, seals, id);
    assert [] + seals == seals;
    forall x | x != id ensures SealsOf(t.seals + seals, x) == SealsOf(t.seals, x) {
      SealsOfAppend(t.seals, seals, x);
      assert SealsOf(t.seals, x) + [] == SealsOf(t.seals, x);
    }
  }

  // ----- Archiving -----

  /** The pipeline's copy of a message agrees with the stored one where it matters later. */
  predicate CopyOf(m: Message, body: Message) {
    m.id == body.id && m.genre == body.genre && m.actor == body.actor && m.payload.lawType == body.payload.lawType
  }

  lemma SealsStayVerified(cfg: Config, t: Tables, m: Message, context: SealContext, at: int)
    requires m.id in t.messages && CopyOf(m, t.messages[m.id].body)
    requires Verdict(cfg.crypto, m, SealsOf(t.seals, m.id), context, at) == Some(true)
    ensures Sealed(cfg.crypto, t, m.id)
  {
    VerdictOfCopy(cfg.crypto, m, t.messages[m.id].body, SealsOf(t.seals, m.id), context, at);
  }

  lemma IndexedLawType(cfg: Config, t: Tables, id: string)
    requires Consistent(cfg.digests, t) && id in t.messages && Indexable(t.messages[id].body)
    ensures id in t.edicts ==> t.edicts[id].lawType == t.messages[id].body.payload.lawType.value
  {
    if id in t.edicts { assert t.edicts[id] == EdictRowOf(t.messages[id].body, t.messages[id].archivedAt.value); }
  }

  lemma IndexingKeepsCoherent(cfg: Config, o: Office, m: Message, row: EdictRow)
    requires CacheCoherent(cfg, o) && m.genre == "edict" && m.payload.lawType == Some(row.lawType)
    requires m.id in o.tables.edicts ==> o.tables.edicts[m.id].lawType == row.lawType
    ensures Coherent(o.tables.edicts[m.id := row], cfg.ttlMs, o.history, DropAfter(o.cache, m))
  {
    ArchivingKeepsCoherent(o.tables.edicts, cfg.ttlMs, o.history, o.cache, m.id, row);
    assert DropAfter(o.cache, m) == Invalidated(o.cache, DropFor(Some(row.lawType)));
  }

  /** Archiving indexes an edict and drops the answers it may have changed. */
  lemma ArchivedCacheCoherent(cfg: Config, o: Office, tables: Tables, m: Message, sealedAt: int)
    requires Orderly(cfg, o) && m.id in o.tables.messages && CopyOf(m, o.tables.messages[m.id].body)
    requires tables.edicts ==
             var body := o.tables.messages[m.id].body;
             if Indexable(body) then o.tables.edicts[m.id := EdictRowOf(body, sealedAt)] else o.tables.edicts
    ensures Coherent(tables.edicts, cfg.ttlMs, o.history, DropAfter(o.cache, m))
  {
    var body := o.tables.messages[m.id].body;
    if Indexable(body) {
      IndexedLawType(cfg, o.tables, m.id);
      IndexingKeepsCoherent(cfg, o, m, EdictRowOf(body, sealedAt));
    } else {
      InvalidatedKeepsCoherent(o.tables.edicts, cfg.ttlMs, o.history, o.cache, DropFor(m.payload.lawType));
    }
  }
}
