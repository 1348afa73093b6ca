/** What a sync does not bring: seals are not copied and cached laws are not dropped. */
module OfficeReplicas {
  import opened Wrappers
  import opened Kinds
  import opened Archive
  import opened Law
  import opened LawResolver
  import opened LogShape
  import opened Ordering
  import opened SealChain
  import opened Sync
  import opened Convergence
  import opened Pipeline
  import opened PipelineSteps
  import opened PipelineRuns
  import opened OfficeRuns
  import opened OfficeSync
  import opened PagedSync
  import opened RootAgreement

  // ----- Any sync -----

  ghost function SameSealsAs(t: Tables): (Progress, nat) -> bool {
    (p: Progress, k: nat) => p.tables.seals == t.seals && t.messages.Keys <= p.tables.messages.Keys
  }

  lemma EnterLeavesSeals(d: Digests, t: Tables, tr: Transition)
    ensures Enter(d, t, tr).0.seals == t.seals && Enter(d, t, tr).0.messages.Keys == t.messages.Keys
  {
    if AppendTransition(d, t, tr).Success? { AppendShape(d, t, tr); }
  }

  lemma SyncRowLeavesSeals(d: Digests, t: Tables, peer: Peer, raw: Raw, receivedAt: int)
    ensures SyncRow(d, t, peer, raw, receivedAt).0.seals == t.seals
    ensures t.messages.Keys <= SyncRow(d, t, peer, raw, receivedAt).0.messages.Keys
  {
    match FromWire(raw)
    case None =>
    case Some(tr) =>
      var o := Obtain(d, t, peer, tr.messageId, receivedAt);
      if o.Some? && o.value.Success? { EnterLeavesSeals(d, o.value.value, tr); }
  }

  lemma NextLeavesSeals(d: Digests, t: Tables, p: Progress, k: nat, peer: Peer, raw: Raw, receivedAt: int, next: Progress)
    requires SameSealsAs(t)(p, k) && next == Next(d, p, peer, raw, receivedAt)
    ensures SameSealsAs(t)(next, k + 1)
  {
    NextTables(d, p, peer, raw, receivedAt);
    SyncRowLeavesSeals(d, p.tables, peer, raw, receivedAt);
  }

  /** Whatever the peer answers, a sync brings no seal. */
  lemma SyncLeavesSeals(d: Digests, t: Tables, peer: Peer, cursor: int, limit: int, scope: Scope, clock: nat -> int)
    ensures var after := SyncWith(d, t, peer, cursor, limit, scope, clock).0;
            after.seals == t.seals && t.messages.Keys <= after.messages.Keys
  {
    var range := peer.getSyncRange(cursor, limit);
    forall p, j: nat | j < |range| && SameSealsAs(t)(p, j) ensures SameSealsAs(t)(Next(d, p, peer, range[j], clock(j)), j + 1) {
      NextLeavesSeals(d, t, p, j, peer, range[j], clock(j), Next(d, p, peer, range[j], clock(j)));
    }
    AfterInduction(d, t, peer, range, clock, |range|, SameSealsAs(t));
  }

  // ----- The cache of a node that syncs -----

  /** The row archives an edict that was not indexed. */
  ghost predicate BringsEdict(d: Digests, t: Tables, peer: Peer, raw: Raw, receivedAt: int, tr: Transition) {
    var step := SyncRow(d, t, peer, raw, receivedAt);
    && FromWire(raw) == Some(tr) && step.1 == Applied && tr.toState == MessageState.Archived
    && tr.messageId in step.0.messages && Indexable(step.0.messages[tr.messageId].body) && tr.messageId !in t.edicts
  }

  lemma EnteredEdicts(d: Digests, t: Tables, tr: Transition)
    requires Enter(d, t, tr).1 == Applied && tr.toState == MessageState.Archived
    ensures var after := Enter(d, t, tr).0;
            tr.messageId in t.messages && tr.messageId in after.messages &&
            after.messages[tr.messageId].body == t.messages[tr.messageId].body &&
            after.edicts == (if Indexable(t.messages[tr.messageId].body)
                             then t.edicts[tr.messageId := EdictRowOf(t.messages[tr.messageId].body, tr.sealedAt.GetOr(tr.at))]
                             else t.edicts)
  {
    AppendShape(d, t, tr);
    EdictsAfterAppend(d, t, tr);
  }

  lemma BroughtEdict(d: Digests, t: Tables, peer: Peer, raw: Raw, receivedAt: int, tr: Transition, after: Tables)
    requires BringsEdict(d, t, peer, raw, receivedAt, tr) && after == SyncRow(d, t, peer, raw, receivedAt).0
    ensures tr.messageId in after.messages && Indexable(after.messages[tr.messageId].body)
    ensures after.edicts == t.edicts[tr.messageId := EdictRowOf(after.messages[tr.messageId].body, tr.sealedAt.GetOr(tr.at))]
  {
    var stored := Obtain(d, t, peer, tr.messageId, receivedAt);
    assert stored.Some? && stored.value.Success? && stored.value.value.edicts == t.edicts;
    EnteredEdicts(d, stored.value.value, tr);
  }

  /** A sync drops no cached law either. A row of it that archives a new edict leaves the cache coherent exactly if the
      cached answer about the edict's law type survives the edict. */
  lemma SyncedEdictCacheExactly(cfg: Config, o: Office, peer: Peer, raw: Raw, receivedAt: int, tr: Transition, after: Tables)
    requires CacheCoherent(cfg, o) && BringsEdict(cfg.digests, o.tables, peer, raw, receivedAt, tr)
    requires after == SyncRow(cfg.digests, o.tables, peer, raw, receivedAt).0
    ensures tr.messageId in after.messages && Indexable(after.messages[tr.messageId].body)
    ensures CacheCoherent(cfg, o.(tables := after)) <==>
              Unharmed(o.tables.edicts, cfg.ttlMs, o.history, o.cache, tr.messageId,
                       EdictRowOf(after.messages[tr.messageId].body, tr.sealedAt.GetOr(tr.at)))
  {
    BroughtEdict(cfg.digests, o.tables, peer, raw, receivedAt, tr, after);
    IndexedCacheExactly(o.tables.edicts, cfg.ttlMs, o.history, o.cache, tr.messageId,
                        EdictRowOf(after.messages[tr.messageId].body, tr.sealedAt.GetOr(tr.at)));
  }

  // ----- A node that follows an office -----

  /** The node holds more of the office's logs than the stale one did, with the stale one's seals. */
  ghost predicate Following(cfg: Config, stale: Office, current: Office, after: Tables) {
    && OfficeSound(cfg, stale) && OfficeSound(cfg, current) && Grown(stale.tables, current.tables)
    && Consistent(cfg.digests, after) && Behind(stale.tables, after) && Behind(after, current.tables)
    && BodiesAgree(after, current.tables)
    && after.seals == stale.tables.seals && stale.tables.messages.Keys <= after.messages.Keys
  }

  predicate IsArchived(t: Tables, id: string) {
    StateAfter(RowsOf(t.log, id)) == MessageState.Archived
  }

  /** Nothing is archived that was not archived before. */
  ghost predicate NothingArchivedSince(before: Tables, after: Tables) {
    forall id | IsArchived(after, id) :: IsArchived(before, id)
  }

  ghost predicate RowsSound(cfg: Config, rows: seq<Row>) {
    Walk(rows) && SelfHashed(cfg.digests, rows) && Chained(rows) && (OnlyAllowed(rows) || Founded(rows))
  }

  lemma LinksOfPrefix(rows: seq<Row>, k: nat)
    requires HashLinked(rows) && k <= |rows|
    ensures HashLinked(rows[..k])
  {
    forall i | 0 <= i < k ensures rows[..k][i].prevHash == HashAfter(rows[..k][..i]) {
      assert rows[..k][..i] == rows[..i];
    }
  }

  lemma ChainedPrefix(rows: seq<Row>, k: nat)
    requires Chained(rows) && k <= |rows|
    ensures Chained(rows[..k])
  {
    if HashLinked(rows) {
      LinksOfPrefix(rows, k);
    } else if k < |rows| {
      LinksOfPrefix(rows[..|rows| - 1], k);
      assert rows[..|rows| - 1][..k] == rows[..k];
    } else {
      assert rows[..k] == rows;
    }
  }

  /** So far a sound log is sound too. */
  lemma SoundPrefix(cfg: Config, rows: seq<Row>, all: seq<Row>)
    requires RowsSound(cfg, all) && rows <= all
    ensures RowsSound(cfg, rows)
  {
    var k := |rows|;
    assert rows == all[..k];
    WalkPrefix(all, k);
    ChainedPrefix(all, k);
  }

  /** What has arrived at archived grows no more. */
  lemma ArchivedIsWhole(cfg: Config, rows: seq<Row>, all: seq<Row>)
    requires RowsSound(cfg, all) && rows <= all && StateAfter(rows) == MessageState.Archived
    ensures rows == all
  {
    SoundRows(cfg, all, |rows| - 1);
    assert all[|rows| - 1] == rows[|rows| - 1];
  }

  /** In a sound office every log is sound, of unknown messages too. */
  lemma EveryLogSound(cfg: Config, o: Office, id: string)
    requires OfficeSound(cfg, o)
    ensures RowsSound(cfg, RowsOf(o.tables.log, id))
  {
    if id in o.tables.messages { assert MessageSound(cfg, o.tables, id); } else { UnknownIsBlank(cfg, o, id); }
  }

  /** Seals are there exactly for the archived. */
  lemma SealsOfSound(cfg: Config, o: Office, id: string)
    requires OfficeSound(cfg, o)
    ensures if IsArchived(o.tables, id) then Sealed(cfg.crypto, o.tables, id) else SealsOf(o.tables.seals, id) == []
  {
    if id in o.tables.messages { assert MessageSound(cfg, o.tables, id); } else { UnknownIsBlank(cfg, o, id); }
  }

  /** The node's logs are sound, and those of what was archived before are as they were. */
  lemma LogOnNode(cfg: Config, stale: Office, current: Office, after: Tables, id: string)
    requires Following(cfg, stale, current, after)
    ensures RowsSound(cfg, RowsOf(after.log, id))
    ensures IsArchived(stale.tables, id) ==> RowsOf(after.log, id) == RowsOf(stale.tables.log, id)
  {
    EveryLogSound(cfg, current, id);
    var before, rows, all := RowsOf(stale.tables.log, id), RowsOf(after.log, id), RowsOf(current.tables.log, id);
    assert before <= rows <= all;
    SoundPrefix(cfg, rows, all);
    if IsArchived(stale.tables, id) { ArchivedIsWhole(cfg, before, rows); }
  }

  lemma BodyOnNode(cfg: Config, stale: Office, current: Office, after: Tables, id: string)
    requires Following(cfg, stale, current, after) && RowsOf(stale.tables.log, id) != []
    ensures id in stale.tables.messages && id in after.messages
    ensures after.messages[id].body == stale.tables.messages[id].body
  {
    HasRowsHasMessage(cfg.digests, stale.tables, id);
  }

  /** With the seals of the stale node a message is sealed exactly if it was archived there. */
  lemma SealedOnNode(cfg: Config, stale: Office, current: Office, after: Tables, id: string)
    requires Following(cfg, stale, current, after) && id in after.messages
    ensures Sealed(cfg.crypto, after, id) <==> IsArchived(stale.tables, id)
  {
    SealsOfSound(cfg, stale, id);
    if IsArchived(stale.tables, id) {
      BodyOnNode(cfg, stale, current, after, id);
      var context, at :|
        Verdict(cfg.crypto, stale.tables.messages[id].body, SealsOf(stale.tables.seals, id), context, at) == Some(true);
      assert Verdict(cfg.crypto, after.messages[id].body, SealsOf(after.seals, id), context, at) == Some(true);
    }
  }

  /** A message on the node is sound exactly if it has not been archived since. */
  lemma MessageOnNode(cfg: Config, stale: Office, current: Office, after: Tables, id: string)
    requires Following(cfg, stale, current, after) && id in after.messages
    ensures MessageSound(cfg, after, id) <==> (IsArchived(after, id) ==> IsArchived(stale.tables, id))
  {
    LogOnNode(cfg, stale, current, after, id);
    SealedOnNode(cfg, stale, current, after, id);
    SealsOfSound(cfg, stale, id);
  }

  lemma {:induction false} ArchivedSomewhere(rows: seq<Row>) returns (i: nat)
    requires ArchivedAt(rows).Some?
    ensures i < |rows| && rows[i].toState == MessageState.Archived
  {
    i := |rows| - 1;
    if rows[i].toState != MessageState.Archived { i := ArchivedSomewhere(rows[..i]); }
  }

  lemma ArchivedAtWhenArchived(cfg: Config, rows: seq<Row>)
    requires RowsSound(cfg, rows)
    ensures ArchivedAt(rows).Some? <==> StateAfter(rows) == MessageState.Archived
  {
    if ArchivedAt(rows).Some? {
      var i := ArchivedSomewhere(rows);
      SoundRows(cfg, rows, i);
    }
  }

  /** The row of one message where both archives hold the same log and the same body of it. */
  lemma SameColumns(d: Digests, a: Tables, b: Tables, id: string)
    requires Consistent(d, a) && Consistent(d, b) && id in a.messages && id in b.messages
    requires RowsOf(a.log, id) == RowsOf(b.log, id) && a.messages[id].body == b.messages[id].body
    ensures a.messages[id].archivedAt == b.messages[id].archivedAt && a.messages[id].contentHash == b.messages[id].contentHash
    ensures a.messages[id].constitutional == b.messages[id].constitutional
  {
    assert MessageConsistent(d, a.messages[id], id, RowsOf(a.log, id));
    assert MessageConsistent(d, b.messages[id], id, RowsOf(b.log, id));
  }

  /** The row of a message in a table whose logs are sound says whether it is archived. */
  lemma ColumnSaysArchived(cfg: Config, t: Tables, id: string)
    requires Consistent(cfg.digests, t) && id in t.messages && RowsSound(cfg, RowsOf(t.log, id))
    ensures t.messages[id].archivedAt.Some? <==> IsArchived(t, id)
  {
    assert MessageConsistent(cfg.digests, t.messages[id], id, RowsOf(t.log, id));
    ArchivedAtWhenArchived(cfg, RowsOf(t.log, id));
  }

  /** What is indexed on either side was archived before. */
  lemma IndexedWasArchived(cfg: Config, stale: Office, current: Office, after: Tables, id: string)
    requires Following(cfg, stale, current, after) && NothingArchivedSince(stale.tables, after)
    requires id in after.edicts || id in stale.tables.edicts
    ensures IsArchived(stale.tables, id)
  {
    EveryLogSound(cfg, stale, id);
    LogOnNode(cfg, stale, current, after, id);
    if id in after.edicts { ColumnSaysArchived(cfg, after, id); } else { ColumnSaysArchived(cfg, stale.tables, id); }
  }

  lemma SameIndexRow(cfg: Config, stale: Office, current: Office, after: Tables, id: string)
    requires Following(cfg, stale, current, after) && IsArchived(stale.tables, id)
    ensures SameRow(after.edicts, stale.tables.edicts, id)
  {
    LogOnNode(cfg, stale, current, after, id);
    BodyOnNode(cfg, stale, current, after, id);
    SameColumns(cfg.digests, after, stale.tables, id);
  }

  ghost predicate SameRow(a: EdictIndex, b: EdictIndex, id: string) {
    (id in a <==> id in b) && (id in a && id in b ==> a[id] == b[id])
  }

  lemma SameRowOnNode(cfg: Config, stale: Office, current: Office, after: Tables, id: string)
    requires Following(cfg, stale, current, after) && NothingArchivedSince(stale.tables, after)
    ensures SameRow(after.edicts, stale.tables.edicts, id)
  {
    if id in after.edicts || id in stale.tables.edicts {
      IndexedWasArchived(cfg, stale, current, after, id);
      SameIndexRow(cfg, stale, current, after, id);
    }
  }

  lemma SameRowsSameIndex(a: EdictIndex, b: EdictIndex)
    requires forall id :: SameRow(a, b, id)
    ensures a == b
  {
    forall id ensures id in a <==> id in b { assert SameRow(a, b, id); }
    forall id | id in a ensures a[id] == b[id] { assert SameRow(a, b, id); }
  }

  lemma SameIndexOnNode(cfg: Config, stale: Office, current: Office, after: Tables)
    requires Following(cfg, stale, current, after) && NothingArchivedSince(stale.tables, after)
    ensures after.edicts == stale.tables.edicts
  {
    forall id ensures SameRow(after.edicts, stale.tables.edicts, id) { SameRowOnNode(cfg, stale, current, after, id); }
    SameRowsSameIndex(after.edicts, stale.tables.edicts);
  }

  /** The node's office is sound exactly when nothing has been archived since. */
  lemma NodeSoundExactly(cfg: Config, stale: Office, current: Office, after: Tables)
    requires Following(cfg, stale, current, after)
    ensures OfficeSound(cfg, stale.(tables := after)) <==> NothingArchivedSince(stale.tables, after)
  {
    if NothingArchivedSince(stale.tables, after) {
      SameIndexOnNode(cfg, stale, current, after);
      forall id | id in after.messages ensures MessageSound(cfg, after, id) { MessageOnNode(cfg, stale, current, after, id); }
      assert Orderly(cfg, stale.(tables := after));
    }
    if OfficeSound(cfg, stale.(tables := after)) {
      forall id | IsArchived(after, id) ensures IsArchived(stale.tables, id) {
        HasRowsHasMessage(cfg.digests, after, id);
        MessageOnNode(cfg, stale, current, after, id);
      }
    }
  }

  lemma CaughtUpFollows(cfg: Config, stale: Office, current: Office, after: Tables, k: nat)
    requires OfficeSound(cfg, stale) && OfficeSound(cfg, current) && Grown(stale.tables, current.tables)
    requires CaughtUpAt(cfg.digests, stale.tables, current.tables, after, k)
    requires after.seals == stale.tables.seals && stale.tables.messages.Keys <= after.messages.Keys
    ensures Following(cfg, stale, current, after)
  {
    LogsBetween(stale.tables, current.tables, after, k);
  }

  /** A sync brings rows and bodies, never a seal, and drops no cached law. So whatever its limit, and however it ends,
      a sync of a node that stopped following an office at some point of its run leaves a sound office exactly when it
      has archived nothing on the node. */
  lemma SyncSoundExactly(cfg: Config, o: Office, events: seq<Event>, k: nat, cursor: int, limit: int, scope: Scope,
                         clock: nat -> int)
    requires OfficeSound(cfg, o) && AdmissibleRun(cfg, o, events) && k <= |events| && cursor <= 0
    ensures var stale, current := Run(cfg, o, events[..k]), Run(cfg, o, events);
            var after := SyncWith(cfg.digests, stale.tables, PeerOf(cfg.digests, current.tables), cursor, limit, scope, clock).0;
            OfficeSound(cfg, stale.(tables := after)) <==> NothingArchivedSince(stale.tables, after)
  {
    SoundBehind(cfg, o, events, k);
    SyncedSoundExactly(cfg, Run(cfg, o, events[..k]), Run(cfg, o, events), cursor, limit, scope, clock);
  }

  lemma SyncedSoundExactly(cfg: Config, stale: Office, current: Office, cursor: int, limit: int, scope: Scope, clock: nat -> int)
    requires OfficeSound(cfg, stale) && OfficeSound(cfg, current) && Grown(stale.tables, current.tables) && cursor <= 0
    ensures var after := SyncWith(cfg.digests, stale.tables, PeerOf(cfg.digests, current.tables), cursor, limit, scope, clock).0;
            OfficeSound(cfg, stale.(tables := after)) <==> NothingArchivedSince(stale.tables, after)
  {
    var d := cfg.digests;
    var after := SyncWith(d, stale.tables, PeerOf(d, current.tables), cursor, limit, scope, clock).0;
    SoundOfficeIsSoundPeer(cfg, current);
    var k := SyncReaches(d, stale.tables, current.tables, cursor, limit, scope, clock);
    SyncLeavesSeals(d, stale.tables, PeerOf(d, current.tables), cursor, limit, scope, clock);
    CaughtUpFollows(cfg, stale, current, after, k);
    NodeSoundExactly(cfg, stale, current, after);
  }

  // ----- Roots that have not moved -----

  lemma LeafOfArchived(cfg: Config, before: Office, after: Office, id: string)
    requires OfficeSound(cfg, before) && OfficeSound(cfg, after) && Grown(before.tables, after.tables)
    requires IsArchived(before.tables, id)
    ensures id in before.tables.messages && id in after.tables.messages
    ensures before.tables.messages[id].body == after.tables.messages[id].body
    ensures before.tables.messages[id].archivedAt == after.tables.messages[id].archivedAt
    ensures before.tables.messages[id].contentHash == after.tables.messages[id].contentHash
    ensures before.tables.messages[id].constitutional == after.tables.messages[id].constitutional
  {
    EveryLogSound(cfg, after, id);
    ArchivedIsWhole(cfg, RowsOf(before.tables.log, id), RowsOf(after.tables.log, id));
    HasRowsHasMessage(cfg.digests, before.tables, id);
    HasRowsHasMessage(cfg.digests, after.tables, id);
    SameColumns(cfg.digests, before.tables, after.tables, id);
  }

  lemma SameLeaves(cfg: Config, before: Office, after: Office, scope: Scope)
    requires OfficeSound(cfg, before) && OfficeSound(cfg, after) && Grown(before.tables, after.tables)
    requires NothingArchivedSince(before.tables, after.tables)
    ensures LeafSet(before.tables, scope) == LeafSet(after.tables, scope)
  {
    forall leaf | leaf in LeafSet(before.tables, scope) ensures leaf in LeafSet(after.tables, scope) {
      var id :| id in before.tables.messages && InScope(scope, before.tables.messages[id]) &&
                leaf == Leaf(before.tables.messages[id].archivedAt.value, id, before.tables.messages[id].contentHash);
      EveryLogSound(cfg, before, id);
      ColumnSaysArchived(cfg, before.tables, id);
      LeafOfArchived(cfg, before, after, id);
    }
    forall leaf | leaf in LeafSet(after.tables, scope) ensures leaf in LeafSet(before.tables, scope) {
      var id :| id in after.tables.messages && InScope(scope, after.tables.messages[id]) &&
                leaf == Leaf(after.tables.messages[id].archivedAt.value, id, after.tables.messages[id].contentHash);
      EveryLogSound(cfg, after, id);
      ColumnSaysArchived(cfg, after.tables, id);
      LeafOfArchived(cfg, before, after, id);
    }
  }

  /** While nothing is archived no root moves. */
  lemma RootsStay(cfg: Config, before: Office, after: Office, scope: Scope)
    requires OfficeSound(cfg, before) && OfficeSound(cfg, after) && Grown(before.tables, after.tables)
    requires NothingArchivedSince(before.tables, after.tables)
    ensures MerkleRootOf(cfg.digests, before.tables, scope) == MerkleRootOf(cfg.digests, after.tables, scope)
  {
    SameLeaves(cfg, before, after, scope);
  }

  /** What an office has done without archiving anything does not come: a node that stopped following it before finds
      equal roots and takes nothing, though the office's logs hold more. */
  lemma UnarchivedRowsDoNotCome(cfg: Config, o: Office, events: seq<Event>, k: nat, cursor: int, limit: int, scope: Scope,
                                clock: nat -> int)
    requires OfficeSound(cfg, o) && AdmissibleRun(cfg, o, events) && k <= |events|
    requires NothingArchivedSince(Run(cfg, o, events[..k]).tables, Run(cfg, o, events).tables)
    ensures var stale, current := Run(cfg, o, events[..k]).tables, Run(cfg, o, events).tables;
            var root := MerkleRootOf(cfg.digests, stale, scope);
            SyncWith(cfg.digests, stale, PeerOf(cfg.digests, current), cursor, limit, scope, clock) ==
            (stale, Success(SyncResult(root, root, false, 0, 0, 0, 0)))
  {
    SoundBehind(cfg, o, events, k);
    var stale, current := Run(cfg, o, events[..k]), Run(cfg, o, events);
    RootsStay(cfg, stale, current, scope);
    AgreedSyncBringsNothing(cfg.digests, stale.tables, current.tables, cursor, limit, scope, clock);
  }

  /** So a sync of the whole log that goes through leaves a sound office only if it found nothing to do: where the roots
      differ something has been archived, and it arrives without its seals. */
  lemma CatchUpSoundExactly(cfg: Config, o: Office, events: seq<Event>, k: nat, cursor: int, limit: int, scope: Scope,
                            clock: nat -> int)
    requires OfficeSound(cfg, o) && AdmissibleRun(cfg, o, events) && k <= |events|
    requires var current := Run(cfg, o, events).tables;
             CoversAll(current, cursor, limit) && ReferencesArrive(Run(cfg, o, events[..k]).tables, current, |current.log|)
    ensures var stale, current := Run(cfg, o, events[..k]), Run(cfg, o, events);
            var after := SyncWith(cfg.digests, stale.tables, PeerOf(cfg.digests, current.tables), cursor, limit, scope, clock).0;
            OfficeSound(cfg, stale.(tables := after)) <==> RootsAgree(cfg.digests, stale.tables, current.tables, scope)
  {
    SoundBehind(cfg, o, events, k);
    WholeSyncSoundExactly(cfg, Run(cfg, o, events[..k]), Run(cfg, o, events), cursor, limit, scope, clock);
  }

  lemma WholeSyncSoundExactly(cfg: Config, stale: Office, current: Office, cursor: int, limit: int, scope: Scope, clock: nat -> int)
    requires OfficeSound(cfg, stale) && OfficeSound(cfg, current) && Grown(stale.tables, current.tables)
    requires CoversAll(current.tables, cursor, limit) && ReferencesArrive(stale.tables, current.tables, |current.tables.log|)
    ensures var after := SyncWith(cfg.digests, stale.tables, PeerOf(cfg.digests, current.tables), cursor, limit, scope, clock).0;
            OfficeSound(cfg, stale.(tables := after)) <==> RootsAgree(cfg.digests, stale.tables, current.tables, scope)
  {
    var d := cfg.digests;
    var after := SyncWith(d, stale.tables, PeerOf(d, current.tables), cursor, limit, scope, clock).0;
    SyncedSoundExactly(cfg, stale, current, cursor, limit, scope, clock);
    if !RootsAgree(d, stale.tables, current.tables, scope) {
      SoundOfficeIsSoundPeer(cfg, current);
      SyncConverges(d, stale.tables, current.tables, cursor, limit, scope, clock);
      if NothingArchivedSince(stale.tables, after) { SameAsThere(cfg, stale, current, after, scope); }
    }
  }

  lemma SameAsThere(cfg: Config, stale: Office, current: Office, after: Tables, scope: Scope)
    requires OfficeSound(cfg, stale) && OfficeSound(cfg, current) && Grown(stale.tables, current.tables)
    requires SameLogs(after, current.tables) && NothingArchivedSince(stale.tables, after)
    ensures RootsAgree(cfg.digests, stale.tables, current.tables, scope)
  {
    forall id | IsArchived(current.tables, id) ensures IsArchived(stale.tables, id) {
      assert RowsOf(after.log, id) == RowsOf(current.tables.log, id);
      assert IsArchived(after, id);
    }
    RootsStay(cfg, stale, current, scope);
  }
}
