/** A sync with a peer whose logs extend the local ones makes both archives tell the same story. */
module Convergence {
  import opened Wrappers
  import opened Kinds
  import opened Sorting
  import opened Ordering
  import opened MerkleTree
  import opened Archive
  import opened Law
  import opened LogShape
  import opened Sync

  /** The peer's logs are walks whose rows carry their own digests, in a consistent archive. */
  ghost predicate SoundPeer(d: Digests, r: Tables) {
    Consistent(d, r) && forall id :: Walk(RowsOf(r.log, id)) && SelfHashed(d, RowsOf(r.log, id))
  }

  ghost predicate BodiesAgree(l: Tables, r: Tables) {
    forall id | id in l.messages && id in r.messages :: l.messages[id].body == r.messages[id].body
  }

  /** Every local log is a prefix of the peer's. */
  ghost predicate Behind(l: Tables, r: Tables) {
    forall id :: RowsOf(l.log, id) <= RowsOf(r.log, id)
  }

  /** The peer answers from the given tables. */
  ghost predicate Serves(peer: Peer, r: Tables) {
    forall id :: Fetch(peer, id) == if id in r.messages then Some(r.messages[id].body) else None
  }

  // ----- One row -----

  lemma WireRoundTrip(row: Row)
    ensures FromWire(ToWire(row)) == Some(AsTransition(row))
  {
  }

  lemma KnownInLog(t: Tables, row: Row)
    requires row in RowsOf(t.log, row.messageId)
    ensures Known(t.log, AsTransition(row))
  {
    var i :| 0 <= i < |t.log| && t.log[i] == row;
  }

  /** The row the store writes for a copied transition is the copied row, recomputed hash included. */
  lemma CopiedRow(d: Digests, t: Tables, row: Row)
    requires row.hash == d.transition(InputOf(row))
    ensures RowFor(d, t, AsTransition(row)) == row
  {
  }

  /** The next row of a walk passes the store's guard and its uniqueness check. */
  lemma NextRowEnters(d: Digests, t: Tables, row: Row)
    requires Walk(RowsOf(t.log, row.messageId)) && Walk(RowsOf(t.log, row.messageId) + [row])
    requires row.hash == d.transition(InputOf(row)) && row.messageId in t.messages
    ensures Enter(d, t, AsTransition(row)).1 == Applied
    ensures Enter(d, t, AsTransition(row)).0.log == t.log + [row]
    ensures Enter(d, t, AsTransition(row)).0.messages.Keys == t.messages.Keys
  {
    var tr, id := AsTransition(row), row.messageId;
    WalkAppend(RowsOf(t.log, id), row);
    CurrentIsStateAfter(t, id);
    TakenInWalk(t, id, row.sequenceNo);
    NotKnown(t, tr);
    CopiedRow(d, t, row);
    AppendShape(d, t, tr);
  }

  lemma NotKnown(t: Tables, tr: Transition)
    requires !SequenceTaken(t.log, tr.messageId, tr.sequenceNo)
    ensures !Known(t.log, tr)
  {
  }

  // ----- All rows -----

  function Longer(a: seq<Row>, b: seq<Row>): seq<Row> {
    if |a| >= |b| then a else b
  }

  /** What the local archive holds when the peer's row `k` comes by: its own messages and those the rows before are about. */
  function HeldBefore(l: Tables, r: Tables, k: nat): set<string>
    requires k <= |r.log|
  {
    l.messages.Keys + set i | 0 <= i < k :: r.log[i].messageId
  }

  lemma HeldNext(l: Tables, r: Tables, k: nat)
    requires k < |r.log|
    ensures HeldBefore(l, r, k + 1) == HeldBefore(l, r, k) + {r.log[k].messageId}
  {
  }

  /** The message that the peer's row `k` is about is there, or the one it names is. */
  predicate Arrives(l: Tables, r: Tables, k: nat)
    requires k < |r.log|
  {
    var id := r.log[k].messageId;
    id in HeldBefore(l, r, k) || (id in r.messages && ReferenceIn(HeldBefore(l, r, k), r.messages[id].body))
  }

  /** Every message comes in after the one it names, or that one is there already. */
  ghost predicate ReferencesArrive(l: Tables, r: Tables, upTo: nat)
    requires upTo <= |r.log|
  {
    forall k: nat | k < upTo :: Arrives(l, r, k)
  }

  /** Every log is the local one or as much of the peer's as has come by. */
  ghost predicate LogsCaughtUp(l: Tables, r: Tables, log: seq<Row>, k: nat)
    requires k <= |r.log|
  {
    forall id :: RowsOf(log, id) == Longer(RowsOf(l.log, id), RowsOf(r.log[..k], id))
  }

  /** So it is after `k` of the peer's rows, and the messages are those that the rows so far are about besides. */
  ghost predicate CaughtUp(d: Digests, l: Tables, r: Tables, t: Tables, k: nat)
    requires k <= |r.log|
  {
    && Consistent(d, t)
    && BodiesAgree(t, r)
    && t.messages.Keys == HeldBefore(l, r, k)
    && LogsCaughtUp(l, r, t.log, k)
  }

  lemma NthRow(log: seq<Row>, k: nat)
    requires k < |log|
    ensures var id := log[k].messageId; var j := |RowsOf(log[..k], id)|;
            j < |RowsOf(log, id)| && RowsOf(log, id)[j] == log[k] &&
            RowsOf(log, id)[..j] == RowsOf(log[..k], id) && RowsOf(log, id)[..j + 1] == RowsOf(log[..k], id) + [log[k]]
  {
    var id := log[k].messageId;
    RowsOfPrefix(log, k, id);
    RowsOfNext(log, k, id);
  }

  /** A row the local log has already. */
  lemma RowAlreadyThere(d: Digests, l: Tables, r: Tables, peer: Peer, t: Tables, k: nat, now: int)
    requires Serves(peer, r) && SoundPeer(d, r) && Behind(l, r) && k < |r.log| && CaughtUp(d, l, r, t, k)
    requires |RowsOf(l.log, r.log[k].messageId)| > |RowsOf(r.log[..k], r.log[k].messageId)|
    ensures SyncRow(d, t, peer, ToWire(r.log[k]), now) == (t, Skipped) && r.log[k].messageId in t.messages
  {
    var row, id := r.log[k], r.log[k].messageId;
    NthRow(r.log, k);
    var local, j := RowsOf(l.log, id), |RowsOf(r.log[..k], id)|;
    assert local[j] == row;
    assert RowsOf(t.log, id) == local;
    assert row in RowsOf(t.log, id);
    KnownInLog(t, row);
    WireRoundTrip(row);
    assert row.messageId in t.messages by { var i :| 0 <= i < |t.log| && t.log[i] == row; }
  }

  lemma StoredFromPeer(d: Digests, r: Tables, t: Tables, m: Message, now: int)
    requires Consistent(d, t) && BodiesAgree(t, r) && Storable(t, m) && m.id in r.messages && r.messages[m.id].body == m
    ensures var stored := AppendMessage(d, t, m, now).value;
            Consistent(d, stored) && BodiesAgree(stored, r) && stored.messages.Keys == t.messages.Keys + {m.id} && stored.log == t.log
  {
    AppendMessageKeeps(d, t, m, now);
  }

  /** A message the local archive lacks comes from the peer if the one it names is there. */
  lemma ObtainFromPeer(d: Digests, r: Tables, peer: Peer, t: Tables, id: string, now: int)
    requires Serves(peer, r) && Consistent(d, r) && Consistent(d, t) && BodiesAgree(t, r) && id in r.messages
    requires id in t.messages || ReferenceIn(t.messages.Keys, r.messages[id].body)
    ensures Obtain(d, t, peer, id, now).Some? && Obtain(d, t, peer, id, now).value.Success?
    ensures var stored := Obtain(d, t, peer, id, now).value.value;
            Consistent(d, stored) && BodiesAgree(stored, r) && stored.messages.Keys == t.messages.Keys + {id} && stored.log == t.log
  {
    if id !in t.messages {
      assert MessageConsistent(d, r.messages[id], id, RowsOf(r.log, id));
      assert Fetch(peer, id) == Some(r.messages[id].body);
      StoredFromPeer(d, r, t, r.messages[id].body, now);
    } else {
      assert t.messages.Keys + {id} == t.messages.Keys;
    }
  }

  /** And not if it is not. */
  lemma RefusedFromPeer(d: Digests, r: Tables, peer: Peer, t: Tables, id: string, now: int)
    requires Serves(peer, r) && Consistent(d, r) && id in r.messages
    requires id !in t.messages && !ReferenceIn(t.messages.Keys, r.messages[id].body)
    ensures Obtain(d, t, peer, id, now) == Some(Failure(UnknownReference))
  {
    assert MessageConsistent(d, r.messages[id], id, RowsOf(r.log, id));
    assert Fetch(peer, id) == Some(r.messages[id].body);
  }

  lemma SyncRowIs(d: Digests, t: Tables, peer: Peer, row: Row, now: int)
    requires Obtain(d, t, peer, row.messageId, now).Some? && Obtain(d, t, peer, row.messageId, now).value.Success?
    ensures SyncRow(d, t, peer, ToWire(row), now) ==
            Enter(d, Obtain(d, t, peer, row.messageId, now).value.value, AsTransition(row))
  {
    WireRoundTrip(row);
  }

  lemma EnterKeepsBodies(d: Digests, t: Tables, r: Tables, tr: Transition)
    requires BodiesAgree(t, r)
    ensures BodiesAgree(Enter(d, t, tr).0, r) && Enter(d, t, tr).0.messages.Keys == t.messages.Keys
  {
    if AppendTransition(d, t, tr).Success? { AppendShape(d, t, tr); }
  }

  /** A row the local log lacks. */
  lemma RowComesIn(d: Digests, l: Tables, r: Tables, peer: Peer, t: Tables, k: nat, now: int)
    requires Serves(peer, r) && SoundPeer(d, r) && Behind(l, r) && k < |r.log| && CaughtUp(d, l, r, t, k)
    requires |RowsOf(l.log, r.log[k].messageId)| <= |RowsOf(r.log[..k], r.log[k].messageId)| && Arrives(l, r, k)
    ensures var step := SyncRow(d, t, peer, ToWire(r.log[k]), now);
            step.1 == Applied && step.0.log == t.log + [r.log[k]] && Consistent(d, step.0) && BodiesAgree(step.0, r) &&
            step.0.messages.Keys == t.messages.Keys + {r.log[k].messageId}
  {
    var row, id := r.log[k], r.log[k].messageId;
    NthRow(r.log, k);
    var all, j := RowsOf(r.log, id), |RowsOf(r.log[..k], id)|;
    LongerIs(RowsOf(l.log, id), RowsOf(r.log[..k], id), all);
    assert RowsOf(t.log, id) == all[..j];
    WalkPrefix(all, j);
    WalkPrefix(all, j + 1);
    ObtainFromPeer(d, r, peer, t, id, now);
    var stored := Obtain(d, t, peer, id, now).value.value;
    SyncRowIs(d, t, peer, row, now);
    NextRowEnters(d, stored, row);
    EnterKeeps(d, stored, AsTransition(row));
    EnterKeepsBodies(d, stored, r, AsTransition(row));
  }

  lemma LongerIs(a: seq<Row>, b: seq<Row>, all: seq<Row>)
    requires a <= all && b <= all && |a| <= |b|
    ensures Longer(a, b) == b
  {
    if |a| == |b| { assert a == all[..|a|] == b; }
  }

  lemma LogsAfterRow(l: Tables, r: Tables, before: seq<Row>, after: seq<Row>, k: nat, id: string)
    requires Behind(l, r) && k < |r.log|
    requires RowsOf(before, id) == Longer(RowsOf(l.log, id), RowsOf(r.log[..k], id))
    requires after == if |RowsOf(l.log, r.log[k].messageId)| > |RowsOf(r.log[..k], r.log[k].messageId)|
                      then before else before + [r.log[k]]
    ensures RowsOf(after, id) == Longer(RowsOf(l.log, id), RowsOf(r.log[..k + 1], id))
  {
    RowsOfNext(r.log, k, id);
    RowsOfPrefix(r.log, k, id);
    RowsOfAppend(before, r.log[k], id);
    var a, b, all := RowsOf(l.log, id), RowsOf(r.log[..k], id), RowsOf(r.log, id);
    if r.log[k].messageId == id && |a| <= |b| { LongerIs(a, b, all); }
  }

  lemma AllLogsAfterRow(l: Tables, r: Tables, before: seq<Row>, after: seq<Row>, k: nat)
    requires Behind(l, r) && k < |r.log| && LogsCaughtUp(l, r, before, k)
    requires after == if |RowsOf(l.log, r.log[k].messageId)| > |RowsOf(r.log[..k], r.log[k].messageId)|
                      then before else before + [r.log[k]]
    ensures LogsCaughtUp(l, r, after, k + 1)
  {
    forall id ensures RowsOf(after, id) == Longer(RowsOf(l.log, id), RowsOf(r.log[..k + 1], id)) {
      LogsAfterRow(l, r, before, after, k, id);
    }
  }

  lemma StillHeld(ids: set<string>, id: string)
    requires id in ids
    ensures ids + {id} == ids
  {
  }

  lemma OneRowFurther(d: Digests, l: Tables, r: Tables, peer: Peer, t: Tables, k: nat, now: int)
    requires Serves(peer, r) && SoundPeer(d, r) && Behind(l, r) && k < |r.log| && CaughtUp(d, l, r, t, k) && Arrives(l, r, k)
    ensures var step := SyncRow(d, t, peer, ToWire(r.log[k]), now);
            step.1 in {Applied, Skipped} && CaughtUp(d, l, r, step.0, k + 1)
  {
    var step, m := SyncRow(d, t, peer, ToWire(r.log[k]), now), r.log[k].messageId;
    if |RowsOf(l.log, m)| > |RowsOf(r.log[..k], m)| {
      RowAlreadyThere(d, l, r, peer, t, k, now);
      StillHeld(t.messages.Keys, m);
    } else {
      RowComesIn(d, l, r, peer, t, k, now);
    }
    AllLogsAfterRow(l, r, t.log, step.0.log, k);
    HeldNext(l, r, k);
  }

  /** A row whose message names one that is not there ends the sync. */
  lemma RowRefused(d: Digests, l: Tables, r: Tables, peer: Peer, t: Tables, k: nat, now: int)
    requires Serves(peer, r) && SoundPeer(d, r) && k < |r.log| && CaughtUp(d, l, r, t, k) && !Arrives(l, r, k)
    ensures SyncRow(d, t, peer, ToWire(r.log[k]), now) == (t, Failed(UnknownReference))
  {
    WireRoundTrip(r.log[k]);
    RefusedFromPeer(d, r, peer, t, r.log[k].messageId, now);
  }

  /** Nothing has failed or been left unresolved. */
  ghost predicate Clean(d: Digests, l: Tables, r: Tables, p: Progress, k: nat)
    requires k <= |r.log|
  {
    p.error.None? && p.unresolved == 0 && CaughtUp(d, l, r, p.tables, k)
  }

  lemma CaughtUpAtStart(d: Digests, l: Tables, r: Tables)
    requires Consistent(d, l) && BodiesAgree(l, r)
    ensures CaughtUp(d, l, r, l, 0)
  {
    assert r.log[..0] == [];
  }

  lemma CleanFurther(d: Digests, l: Tables, r: Tables, peer: Peer, p: Progress, k: nat, now: int)
    requires Serves(peer, r) && SoundPeer(d, r) && Behind(l, r) && k < |r.log| && Clean(d, l, r, p, k) && Arrives(l, r, k)
    ensures Clean(d, l, r, Next(d, p, peer, ToWire(r.log[k]), now), k + 1)
  {
    OneRowFurther(d, l, r, peer, p.tables, k, now);
    NextTables(d, p, peer, ToWire(r.log[k]), now);
  }

  ghost function CleanUpTo(d: Digests, l: Tables, r: Tables, n: nat): (Progress, nat) -> bool
    requires n <= |r.log|
  {
    (p: Progress, k: nat) => k <= n ==> Clean(d, l, r, p, k)
  }

  lemma CleanUpToIs(d: Digests, l: Tables, r: Tables, n: nat, p: Progress, k: nat)
    requires n <= |r.log|
    ensures CleanUpTo(d, l, r, n)(p, k) <==> (k <= n ==> Clean(d, l, r, p, k))
  {
  }

  lemma CleanStep(d: Digests, l: Tables, r: Tables, n: nat, peer: Peer, p: Progress, k: nat, raw: Raw, now: int, next: Progress)
    requires Serves(peer, r) && SoundPeer(d, r) && Behind(l, r) && k < |r.log| && n <= |r.log|
    requires ReferencesArrive(l, r, n) && CleanUpTo(d, l, r, n)(p, k)
    requires raw == ToWire(r.log[k]) && next == Next(d, p, peer, raw, now)
    ensures CleanUpTo(d, l, r, n)(next, k + 1)
  {
    CleanUpToIs(d, l, r, n, p, k);
    if k < n {
      assert Arrives(l, r, k);
      CleanFurther(d, l, r, peer, p, k, now);
    }
    CleanUpToIs(d, l, r, n, next, k + 1);
  }

  lemma CleanSteps(d: Digests, l: Tables, r: Tables, n: nat, peer: Peer, clock: nat -> int)
    requires Serves(peer, r) && SoundPeer(d, r) && Behind(l, r) && n <= |r.log| && ReferencesArrive(l, r, n)
    ensures forall p, k: nat | k < |AllToWire(r.log)| && CleanUpTo(d, l, r, n)(p, k) ::
              CleanUpTo(d, l, r, n)(Next(d, p, peer, AllToWire(r.log)[k], clock(k)), k + 1)
  {
    forall p, k: nat | k < |AllToWire(r.log)| && CleanUpTo(d, l, r, n)(p, k)
      ensures CleanUpTo(d, l, r, n)(Next(d, p, peer, AllToWire(r.log)[k], clock(k)), k + 1)
    {
      CleanStep(d, l, r, n, peer, p, k, AllToWire(r.log)[k], clock(k), Next(d, p, peer, AllToWire(r.log)[k], clock(k)));
    }
  }

  /** As far as references arrive, so do the rows. */
  lemma CleanTo(d: Digests, l: Tables, r: Tables, n: nat, peer: Peer, clock: nat -> int)
    requires Serves(peer, r) && SoundPeer(d, r) && Consistent(d, l) && Behind(l, r) && BodiesAgree(l, r)
    requires n <= |r.log| && ReferencesArrive(l, r, n)
    ensures Clean(d, l, r, After(d, l, peer, AllToWire(r.log), clock, n), n)
  {
    CaughtUpAtStart(d, l, r);
    CleanSteps(d, l, r, n, peer, clock);
    AfterInduction(d, l, peer, AllToWire(r.log), clock, n, CleanUpTo(d, l, r, n));
    assert CleanUpTo(d, l, r, n)(After(d, l, peer, AllToWire(r.log), clock, n), n);
  }

  lemma {:induction false} FirstMissing(l: Tables, r: Tables, n: nat) returns (k: nat)
    requires n <= |r.log| && !ReferencesArrive(l, r, n)
    ensures k < n && ReferencesArrive(l, r, k) && !Arrives(l, r, k)
  {
    k := n - 1;
    if !ReferencesArrive(l, r, k) { k := FirstMissing(l, r, k); }
  }

  lemma BreaksOffAt(d: Digests, l: Tables, r: Tables, peer: Peer, p: Progress, k: nat, now: int)
    requires Serves(peer, r) && SoundPeer(d, r) && k < |r.log| && Clean(d, l, r, p, k) && !Arrives(l, r, k)
    ensures Next(d, p, peer, ToWire(r.log[k]), now).error == Some(UnknownReference)
    ensures Next(d, p, peer, ToWire(r.log[k]), now).tables == p.tables
  {
    RowRefused(d, l, r, peer, p.tables, k, now);
  }

  /** What has come in lies between what was there and what the peer has. */
  lemma LogsBetween(l: Tables, r: Tables, t: Tables, k: nat)
    requires k <= |r.log| && Behind(l, r) && LogsCaughtUp(l, r, t.log, k)
    ensures Behind(l, t) && Behind(t, r)
  {
    forall id ensures RowsOf(l.log, id) <= RowsOf(t.log, id) <= RowsOf(r.log, id) {
      RowsOfPrefix(r.log, k, id);
      LongerIsBetween(RowsOf(l.log, id), RowsOf(r.log[..k], id), RowsOf(r.log, id));
      assert RowsOf(t.log, id) == Longer(RowsOf(l.log, id), RowsOf(r.log[..k], id));
    }
  }

  lemma LongerIsBetween(a: seq<Row>, b: seq<Row>, all: seq<Row>)
    requires a <= all && b <= all
    ensures a <= Longer(a, b) <= all
  {
    if |a| <= |b| { LongerIs(a, b, all); }
  }

  /** And where one does not, the sync breaks off. */
  lemma BreaksOff(d: Digests, l: Tables, r: Tables, peer: Peer, range: seq<Raw>, clock: nat -> int)
    requires Serves(peer, r) && SoundPeer(d, r) && Consistent(d, l) && Behind(l, r) && BodiesAgree(l, r)
    requires range == AllToWire(r.log) && !ReferencesArrive(l, r, |r.log|)
    ensures After(d, l, peer, range, clock, |range|).error == Some(UnknownReference)
  {
    var k := FirstMissing(l, r, |r.log|);
    CleanTo(d, l, r, k, peer, clock);
    BreaksOffAt(d, l, r, peer, After(d, l, peer, range, clock, k), k, clock(k));
    AfterNext(d, l, peer, range, clock, k);
    ErrorSticks(d, l, peer, range, clock, k + 1, |range|);
  }

  // ----- The result -----

  ghost predicate SameLogs(a: Tables, b: Tables) {
    forall id :: RowsOf(a.log, id) == RowsOf(b.log, id)
  }

  /** The range covers the peer's whole log. */
  predicate CoversAll(r: Tables, cursor: int, limit: int) {
    cursor <= 0 && (limit < 0 || limit >= |r.log|)
  }

  /** All rows of the peer's log come in without an error, none unresolved. */
  lemma WholeLogComesIn(d: Digests, l: Tables, r: Tables, peer: Peer, clock: nat -> int)
    requires Serves(peer, r) && SoundPeer(d, r) && Consistent(d, l) && Behind(l, r) && BodiesAgree(l, r)
    requires ReferencesArrive(l, r, |r.log|)
    ensures var p := After(d, l, peer, AllToWire(r.log), clock, |r.log|);
            p.error.None? && p.unresolved == 0 && Consistent(d, p.tables) && BodiesAgree(p.tables, r) && SameLogs(p.tables, r)
  {
    CleanTo(d, l, r, |r.log|, peer, clock);
    CaughtUpWithAll(d, l, r, After(d, l, peer, AllToWire(r.log), clock, |r.log|).tables);
  }

  lemma CaughtUpWithAll(d: Digests, l: Tables, r: Tables, t: Tables)
    requires Behind(l, r) && CaughtUp(d, l, r, t, |r.log|)
    ensures SameLogs(t, r)
  {
    assert r.log[..|r.log|] == r.log;
    forall id ensures RowsOf(t.log, id) == RowsOf(r.log, id) {
      assert RowsOf(l.log, id) <= RowsOf(r.log, id);
    }
  }

  lemma PeerOfServes(d: Digests, r: Tables, cursor: int, limit: int)
    requires CoversAll(r, cursor, limit)
    ensures Serves(PeerOf(d, r), r) && PeerOf(d, r).getSyncRange(cursor, limit) == AllToWire(r.log)
  {
    assert GetSyncRange(r, cursor, limit) == r.log;
  }

  /**
   * Replication converges. With the peer's roots differing, a sync over the whole log of a peer whose walks extend
   * the local logs goes through exactly when every message that comes in finds the one it names; otherwise the
   * foreign key breaks it off. When it goes through, every log is row for row the peer's, hashes included; the
   * indexes, and with them the law and the types at every moment, and the constitutional and legislative roots agree.
   */
  lemma SyncConverges(d: Digests, l: Tables, r: Tables, cursor: int, limit: int, scope: Scope, clock: nat -> int)
    requires SoundPeer(d, r) && Consistent(d, l) && Behind(l, r) && BodiesAgree(l, r)
    requires CoversAll(r, cursor, limit)
    requires MerkleRootOf(d, l, scope) != MerkleRootOf(d, r, scope)
    ensures var (after, result) := SyncWith(d, l, PeerOf(d, r), cursor, limit, scope, clock);
            if ReferencesArrive(l, r, |r.log|) then
              result.Success? && result.value.unresolved == 0 && result.value.fetched == |r.log| && Agrees(d, after, r)
            else result == Failure(UnknownReference)
  {
    var peer := PeerOf(d, r);
    PeerOfServes(d, r, cursor, limit);
    if ReferencesArrive(l, r, |r.log|) {
      WholeLogComesIn(d, l, r, peer, clock);
      var p := After(d, l, peer, AllToWire(r.log), clock, |r.log|);
      SyncWithoutError(d, l, peer, cursor, limit, scope, clock);
      AgreementFollows(d, p.tables, r);
    } else {
      BreaksOff(d, l, r, peer, AllToWire(r.log), clock);
    }
  }

  /** The archives tell the same story. */
  ghost predicate Agrees(d: Digests, a: Tables, b: Tables) {
    SameLogs(a, b) && a.edicts == b.edicts && a.types == b.types &&
    MerkleRootOf(d, a, Constitutional) == MerkleRootOf(d, b, Constitutional) &&
    MerkleRootOf(d, a, Legislative) == MerkleRootOf(d, b, Legislative)
  }

  lemma SyncWithoutError(d: Digests, l: Tables, peer: Peer, cursor: int, limit: int, scope: Scope, clock: nat -> int)
    requires MerkleRootOf(d, l, scope) != peer.root(scope)
    requires var range := peer.getSyncRange(cursor, limit); After(d, l, peer, range, clock, |range|).error.None?
    ensures var range := peer.getSyncRange(cursor, limit);
            var p, s := After(d, l, peer, range, clock, |range|), SyncWith(d, l, peer, cursor, limit, scope, clock);
            s.0 == p.tables && s.1.Success? && s.1.value.fetched == |range| && s.1.value.unresolved == p.unresolved
  {
  }

  /** Archives with the same logs and bodies index the same edicts and type definitions and have the same roots. */
  lemma AgreementFollows(d: Digests, a: Tables, b: Tables)
    requires Consistent(d, a) && Consistent(d, b) && SameLogs(a, b) && BodiesAgree(a, b)
    ensures Agrees(d, a, b)
  {
    SameIndexes(d, a, b);
    SameRoots(d, a, b, Constitutional);
    SameRoots(d, a, b, Legislative);
  }

  lemma HasRowsHasMessage(d: Digests, t: Tables, id: string)
    requires Consistent(d, t) && RowsOf(t.log, id) != []
    ensures id in t.messages
  {
    var row := RowsOf(t.log, id)[0];
    assert row in t.log && row.messageId == id;
    var i :| 0 <= i < |t.log| && t.log[i] == row;
  }

  lemma SameMessage(d: Digests, a: Tables, b: Tables, id: string)
    requires Consistent(d, a) && Consistent(d, b) && SameLogs(a, b) && BodiesAgree(a, b)
    requires id in a.messages && a.messages[id].archivedAt.Some?
    ensures id in b.messages && b.messages[id].archivedAt == a.messages[id].archivedAt
    ensures b.messages[id].body == a.messages[id].body && b.messages[id].contentHash == a.messages[id].contentHash
    ensures b.messages[id].constitutional == a.messages[id].constitutional
  {
    assert MessageConsistent(d, a.messages[id], id, RowsOf(a.log, id));
    assert RowsOf(a.log, id) == RowsOf(b.log, id);
    HasRowsHasMessage(d, b, id);
    assert MessageConsistent(d, b.messages[id], id, RowsOf(b.log, id));
  }

  lemma BodiesAgreeSymmetric(a: Tables, b: Tables)
    requires BodiesAgree(a, b)
    ensures BodiesAgree(b, a)
  {
  }

  /** Archives with the same logs and bodies index the same, so the same law and the same types hold in both. */
  lemma SameIndexes(d: Digests, a: Tables, b: Tables)
    requires Consistent(d, a) && Consistent(d, b) && SameLogs(a, b) && BodiesAgree(a, b)
    ensures a.edicts == b.edicts && a.types == b.types
  {
    BodiesAgreeSymmetric(a, b);
    IndexWithin(d, a, b);
    IndexWithin(d, b, a);
    WithinBothWays(a.edicts, b.edicts);
    TypesWithin(d, a, b);
    TypesWithin(d, b, a);
    WithinBothWays(a.types, b.types);
  }

  ghost predicate Within<V(!new)>(a: map<string, V>, b: map<string, V>) {
    forall id | id in a :: id in b && a[id] == b[id]
  }

  lemma WithinBothWays<V(!new)>(a: map<string, V>, b: map<string, V>)
    requires Within(a, b) && Within(b, a)
    ensures a == b
  {
    assert a.Keys == b.Keys;
  }

  lemma IndexWithin(d: Digests, a: Tables, b: Tables)
    requires Consistent(d, a) && Consistent(d, b) && SameLogs(a, b) && BodiesAgree(a, b)
    ensures Within(a.edicts, b.edicts)
  {
    forall id | id in a.edicts ensures id in b.edicts && a.edicts[id] == b.edicts[id] {
      SameMessage(d, a, b, id);
    }
  }

  lemma TypesWithin(d: Digests, a: Tables, b: Tables)
    requires Consistent(d, a) && Consistent(d, b) && SameLogs(a, b) && BodiesAgree(a, b)
    ensures Within(a.types, b.types)
  {
    forall id | id in a.types ensures id in b.types && a.types[id] == b.types[id] {
      SameMessage(d, a, b, id);
    }
  }

  /** And their constitutional and legislative roots agree, whatever local digests each of them holds. */
  lemma SameRoots(d: Digests, a: Tables, b: Tables, scope: Scope)
    requires Consistent(d, a) && Consistent(d, b) && SameLogs(a, b) && BodiesAgree(a, b) && scope != All
    ensures MerkleRootOf(d, a, scope) == MerkleRootOf(d, b, scope)
  {
    BodiesAgreeSymmetric(a, b);
    LeavesWithin(d, a, b, scope);
    LeavesWithin(d, b, a, scope);
    assert LeafSet(a, scope) == LeafSet(b, scope);
  }

  lemma LeavesWithin(d: Digests, a: Tables, b: Tables, scope: Scope)
    requires Consistent(d, a) && Consistent(d, b) && SameLogs(a, b) && BodiesAgree(a, b)
    ensures LeafSet(a, scope) <= LeafSet(b, scope)
  {
    forall leaf | leaf in LeafSet(a, scope) ensures leaf in LeafSet(b, scope) {
      var id :| id in a.messages && InScope(scope, a.messages[id]) &&
                leaf == Leaf(a.messages[id].archivedAt.value, id, a.messages[id].contentHash);
      SameMessage(d, a, b, id);
    }
  }
}
