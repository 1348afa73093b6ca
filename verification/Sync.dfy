/** Anti-entropy: copying a peer's transition log into the local archive. */
module Sync {
  import opened Wrappers
  import opened Kinds
  import opened Sorting
  import opened Ordering
  import opened MerkleTree
  import opened Archive
  import opened Law

  // ----- The peer -----

  /** A row as it comes over the wire: any field may be missing or of the wrong type. */
  datatype Raw = Raw(
    messageId: Option<string>, fromState: Option<MessageState>, toState: Option<MessageState>,
    sequenceNo: Option<int>, actorId: Option<string>, sealedAt: Option<int>, reason: Option<string>,
    prevTransitionHash: Option<string>, at: Option<int>)

  /** What the local node can ask; `getMessage` is an optional capability. The peer does not change meanwhile. */
  datatype Peer = Peer(
    root: Scope -> string,
    getSyncRange: (int, int) -> seq<Raw>,
    getMessage: Option<string -> Option<Message>>)

  function FromWire(raw: Raw): Option<Transition> {
    if raw.messageId.None? || raw.fromState.None? || raw.toState.None? || raw.sequenceNo.None? || raw.at.None? then None
    else Some(Transition(raw.messageId.value, raw.fromState.value, raw.toState.value, raw.sequenceNo.value,
                         raw.actorId, raw.sealedAt, raw.reason, raw.prevTransitionHash, raw.at.value))
  }

  function ToWire(row: Row): Raw {
    Raw(Some(row.messageId), Some(row.fromState), Some(row.toState), Some(row.sequenceNo), row.actorId, row.sealedAt,
        row.reason, Some(row.prevHash), Some(row.at))
  }

  function AllToWire(rows: seq<Row>): (raws: seq<Raw>)
    ensures |raws| == |rows| && forall i | 0 <= i < |rows| :: raws[i] == ToWire(rows[i])
  {
    seq(|rows|, i requires 0 <= i < |rows| => ToWire(rows[i]))
  }

  /** Another archive as a peer. */
  function PeerOf(d: Digests, t: Tables): Peer {
    Peer(scope => MerkleRootOf(d, t, scope),
         (cursor, limit) => AllToWire(GetSyncRange(t, cursor, limit)),
         Some(id => if id in t.messages then Some(t.messages[id].body) else None))
  }

  // ----- One row -----

  datatype Outcome = Applied | Skipped | Unresolved | Failed(error: StoreError)

  predicate Known(log: seq<Row>, tr: Transition) {
    exists i | 0 <= i < |log| :: log[i].messageId == tr.messageId && log[i].sequenceNo == tr.sequenceNo &&
      log[i].fromState == tr.fromState && log[i].toState == tr.toState
  }

  function Fetch(peer: Peer, id: string): Option<Message> {
    match peer.getMessage
    case None => None
    case Some(get) => get(id)
  }

  /** The message is there, or can be fetched and stored. */
  function Obtain(d: Digests, t: Tables, peer: Peer, id: string, receivedAt: int): Option<Result<Tables, StoreError>> {
    if id in t.messages then Some(Success(t))
    else match Fetch(peer, id)
      case None => None
      case Some(m) => Some(AppendMessage(d, t, m, receivedAt))
  }

  function Enter(d: Digests, t: Tables, tr: Transition): (Tables, Outcome) {
    if Known(t.log, tr) then (t, Skipped)
    else match AppendTransition(d, t, tr)
      case Failure(e) => (t, Failed(e))
      case Success(after) => (after, Applied)
  }

  function SyncRow(d: Digests, t: Tables, peer: Peer, raw: Raw, receivedAt: int): (Tables, Outcome) {
    match FromWire(raw)
    case None => (t, Skipped)
    case Some(tr) =>
      match Obtain(d, t, peer, tr.messageId, receivedAt)
      case None => (t, Unresolved)
      case Some(Failure(e)) => (t, Failed(e))
      case Some(Success(stored)) => Enter(d, stored, tr)
  }

  // ----- All rows -----

  datatype Progress = Progress(tables: Tables, applied: nat, skipped: nat, unresolved: nat, error: Option<StoreError>)

  function Advance(p: Progress, step: (Tables, Outcome)): Progress {
    match step.1
    case Applied => p.(tables := step.0, applied := p.applied + 1)
    case Skipped => p.(tables := step.0, skipped := p.skipped + 1)
    case Unresolved => p.(tables := step.0, unresolved := p.unresolved + 1)
    case Failed(e) => p.(tables := step.0, error := Some(e))
  }

  function Next(d: Digests, p: Progress, peer: Peer, raw: Raw, receivedAt: int): Progress {
    if p.error.Some? then p else Advance(p, SyncRow(d, p.tables, peer, raw, receivedAt))
  }

  /** After the first `k` rows; an exception ends the loop. `clock` is when each fetched message arrives. */
  function After(d: Digests, t: Tables, peer: Peer, range: seq<Raw>, clock: nat -> int, k: nat): Progress
    requires k <= |range|
  {
    if k == 0 then Progress(t, 0, 0, 0, None)
    else Next(d, After(d, t, peer, range, clock, k - 1), peer, range[k - 1], clock(k - 1))
  }

  lemma AfterNext(d: Digests, t: Tables, peer: Peer, range: seq<Raw>, clock: nat -> int, k: nat)
    requires k < |range|
    ensures After(d, t, peer, range, clock, k + 1) == Next(d, After(d, t, peer, range, clock, k), peer, range[k], clock(k))
  {
  }

  /** What holds at the start and is kept by every row holds after any number of rows. */
  lemma {:induction false} AfterInduction(d: Digests, t: Tables, peer: Peer, range: seq<Raw>, clock: nat -> int, k: nat,
                                          inv: (Progress, nat) -> bool)
    requires k <= |range| && inv(Progress(t, 0, 0, 0, None), 0)
    requires forall p, j: nat | j < |range| && inv(p, j) :: inv(Next(d, p, peer, range[j], clock(j)), j + 1)
    ensures inv(After(d, t, peer, range, clock, k), k)
  {
    if k > 0 { AfterInduction(d, t, peer, range, clock, k - 1, inv); }
  }

  datatype SyncResult = SyncResult(
    localRoot: string, remoteRoot: string, diverged: bool, fetched: nat, applied: nat, skipped: nat, unresolved: nat)

  /** The archive a sync leaves and what it reports; an exception leaves what was written before it. */
  function SyncWith(d: Digests, t: Tables, peer: Peer, cursor: int, limit: int, scope: Scope, clock: nat -> int):
    (Tables, Result<SyncResult, StoreError>)
  {
    var localRoot, remoteRoot := MerkleRootOf(d, t, scope), peer.root(scope);
    if localRoot == remoteRoot then (t, Success(SyncResult(localRoot, remoteRoot, false, 0, 0, 0, 0))) else
      var range := peer.getSyncRange(cursor, limit);
      var p := After(d, t, peer, range, clock, |range|);
      (p.tables,
       if p.error.Some? then Failure(p.error.value)
       else Success(SyncResult(MerkleRootOf(d, p.tables, scope), remoteRoot, true, |range|, p.applied, p.skipped, p.unresolved)))
  }

  method SyncWithPeer(local: Store, peer: Peer, cursor: int, limit: int, scope: Scope, clock: nat -> int)
    returns (r: Result<SyncResult, StoreError>)
    modifies local
    ensures (local.State(), r) == SyncWith(local.digests, old(local.State()), peer, cursor, limit, scope, clock)
  {
    var localRoot := MerkleRootOf(local.digests, local.State(), scope);
    var remoteRoot := peer.root(scope);
    if localRoot == remoteRoot {
      return Success(SyncResult(localRoot, remoteRoot, false, 0, 0, 0, 0));
    }
    var range := peer.getSyncRange(cursor, limit);
    var applied, skipped, unresolved, error := SyncRange(local, peer, range, clock);
    if error.Some? { return Failure(error.value); }
    return Success(SyncResult(MerkleRootOf(local.digests, local.State(), scope), remoteRoot, true, |range|, applied, skipped,
                              unresolved));
  }

  method SyncRange(local: Store, peer: Peer, range: seq<Raw>, clock: nat -> int)
    returns (applied: nat, skipped: nat, unresolved: nat, error: Option<StoreError>)
    modifies local
    ensures Progress(local.State(), applied, skipped, unresolved, error) ==
            After(local.digests, old(local.State()), peer, range, clock, |range|)
  {
    ghost var d, start := local.digests, local.State();
    applied, skipped, unresolved, error := 0, 0, 0, None;
    var k := 0;
    while k < |range|
      invariant k <= |range| && error.None?
      invariant After(d, start, peer, range, clock, k) == Progress(local.State(), applied, skipped, unresolved, None)
    {
      AfterNext(d, start, peer, range, clock, k);
      var outcome := SyncOneRow(local, peer, range[k], clock(k));
      match outcome {
        case Applied => applied := applied + 1;
        case Skipped => skipped := skipped + 1;
        case Unresolved => unresolved := unresolved + 1;
        case Failed(e) =>
          error := Some(e);
          ErrorSticks(d, start, peer, range, clock, k + 1, |range|);
          return;
      }
      k := k + 1;
    }
  }

  method SyncOneRow(local: Store, peer: Peer, raw: Raw, receivedAt: int) returns (outcome: Outcome)
    modifies local
    ensures (local.State(), outcome) == SyncRow(local.digests, old(local.State()), peer, raw, receivedAt)
  {
    var t := FromWire(raw);
    if t.None? { return Skipped; }
    var tr := t.value;
    if tr.messageId !in local.messages {
      var m := Fetch(peer, tr.messageId);
      if m.None? { return Unresolved; }
      var e := local.InsertMessage(m.value, receivedAt);
      if e.Some? { return Failed(e.value); }
    }
    if Known(local.log, tr) { return Skipped; }
    var e := local.InsertTransition(tr);
    if e.Some? { return Failed(e.value); }
    return Applied;
  }

  lemma {:induction false} ErrorSticks(d: Digests, t: Tables, peer: Peer, range: seq<Raw>, clock: nat -> int, j: nat, k: nat)
    requires j <= k <= |range| && After(d, t, peer, range, clock, j).error.Some?
    ensures After(d, t, peer, range, clock, k) == After(d, t, peer, range, clock, j)
  {
    if j < k {
      ErrorSticks(d, t, peer, range, clock, j, k - 1);
      var p := After(d, t, peer, range, clock, k - 1);
      assert Next(d, p, peer, range[k - 1], clock(k - 1)) == p;
    }
  }

  // ----- Every sync: the count, the tables, the repeat -----

  lemma {:induction false} RowsAreCounted(d: Digests, t: Tables, peer: Peer, range: seq<Raw>, clock: nat -> int, k: nat)
    requires k <= |range|
    ensures var p := After(d, t, peer, range, clock, k);
            if p.error.None? then p.applied + p.skipped + p.unresolved == k else p.applied + p.skipped + p.unresolved < k
  {
    if k > 0 { RowsAreCounted(d, t, peer, range, clock, k - 1); }
  }

  /** A completed sync accounts for every row it fetched. */
  lemma SyncCounts(d: Digests, t: Tables, peer: Peer, cursor: int, limit: int, scope: Scope, clock: nat -> int)
    requires SyncWith(d, t, peer, cursor, limit, scope, clock).1.Success?
    ensures var r := SyncWith(d, t, peer, cursor, limit, scope, clock).1.value;
            r.applied + r.skipped + r.unresolved == r.fetched
  {
    var range := peer.getSyncRange(cursor, limit);
    RowsAreCounted(d, t, peer, range, clock, |range|);
  }

  lemma EnterKeeps(d: Digests, t: Tables, tr: Transition)
    requires Consistent(d, t)
    ensures Consistent(d, Enter(d, t, tr).0)
  {
    if AppendTransition(d, t, tr).Success? { AppendTransitionKeeps(d, t, tr); }
  }

  lemma SyncRowKeeps(d: Digests, t: Tables, peer: Peer, raw: Raw, receivedAt: int)
    requires Consistent(d, t)
    ensures Consistent(d, SyncRow(d, t, peer, raw, receivedAt).0)
  {
    match FromWire(raw)
    case None =>
    case Some(tr) =>
      var o := Obtain(d, t, peer, tr.messageId, receivedAt);
      if o.Some? && o.value.Success? {
        if tr.messageId !in t.messages { AppendMessageKeeps(d, t, Fetch(peer, tr.messageId).value, receivedAt); }
        EnterKeeps(d, o.value.value, tr);
      }
  }

  lemma {:induction false} AfterKeeps(d: Digests, t: Tables, peer: Peer, range: seq<Raw>, clock: nat -> int, k: nat)
    requires Consistent(d, t) && k <= |range|
    ensures Consistent(d, After(d, t, peer, range, clock, k).tables)
  {
    if k > 0 {
      AfterKeeps(d, t, peer, range, clock, k - 1);
      NextKeeps(d, After(d, t, peer, range, clock, k - 1), peer, range[k - 1], clock(k - 1));
    }
  }

  lemma NextKeeps(d: Digests, p: Progress, peer: Peer, raw: Raw, receivedAt: int)
    requires Consistent(d, p.tables)
    ensures Consistent(d, Next(d, p, peer, raw, receivedAt).tables)
  {
    NextTables(d, p, peer, raw, receivedAt);
    SyncRowKeeps(d, p.tables, peer, raw, receivedAt);
  }

  lemma NextTables(d: Digests, p: Progress, peer: Peer, raw: Raw, receivedAt: int)
    ensures Next(d, p, peer, raw, receivedAt).tables ==
            if p.error.Some? then p.tables else SyncRow(d, p.tables, peer, raw, receivedAt).0
  {
  }

  /** The row has been dealt with: trying it again would change nothing. */
  predicate Settled(t: Tables, peer: Peer, raw: Raw) {
    match FromWire(raw)
    case None => true
    case Some(tr) => if tr.messageId in t.messages then Known(t.log, tr) else Fetch(peer, tr.messageId).None?
  }

  /** Nothing is lost, and only messages the peer serves under their own id are added. */
  ghost predicate Grows(before: Tables, after: Tables, peer: Peer) {
    && before.log <= after.log
    && before.messages.Keys <= after.messages.Keys
    && forall id | id in after.messages && id !in before.messages :: Fetch(peer, id).Some?
  }

  lemma SettledAgain(d: Digests, t: Tables, peer: Peer, raw: Raw, receivedAt: int)
    requires Settled(t, peer, raw)
    ensures SyncRow(d, t, peer, raw, receivedAt).0 == t
    ensures SyncRow(d, t, peer, raw, receivedAt).1 in {Skipped, Unresolved}
  {
  }

  lemma SettledStays(before: Tables, after: Tables, peer: Peer, raw: Raw)
    requires Settled(before, peer, raw) && Grows(before, after, peer)
    ensures Settled(after, peer, raw)
  {
    match FromWire(raw)
    case None =>
    case Some(tr) =>
      if tr.messageId in before.messages {
        var i :| 0 <= i < |before.log| && before.log[i].messageId == tr.messageId &&
                 before.log[i].sequenceNo == tr.sequenceNo && before.log[i].fromState == tr.fromState &&
                 before.log[i].toState == tr.toState;
        assert after.log[i] == before.log[i];
      }
  }

  lemma EnterSettles(d: Digests, t: Tables, peer: Peer, raw: Raw, tr: Transition)
    requires FromWire(raw) == Some(tr) && !Enter(d, t, tr).1.Failed?
    requires LogConsistent(t)
    ensures tr.messageId in t.messages
    ensures Settled(Enter(d, t, tr).0, peer, raw) && Grows(t, Enter(d, t, tr).0, peer)
  {
    if !Known(t.log, tr) {
      AppendShape(d, t, tr);
      var after := Enter(d, t, tr).0;
      assert after.log[|t.log|] == RowFor(d, t, tr);
    }
  }

  /** A row that does not fail is settled from then on. */
  lemma SyncRowSettles(d: Digests, t: Tables, peer: Peer, raw: Raw, receivedAt: int)
    requires Consistent(d, t)
    requires !SyncRow(d, t, peer, raw, receivedAt).1.Failed?
    ensures Settled(SyncRow(d, t, peer, raw, receivedAt).0, peer, raw)
    ensures Grows(t, SyncRow(d, t, peer, raw, receivedAt).0, peer)
  {
    match FromWire(raw)
    case None =>
    case Some(tr) =>
      var o := Obtain(d, t, peer, tr.messageId, receivedAt);
      if o.Some? {
        var stored := o.value.value;
        if tr.messageId !in t.messages { AppendMessageKeeps(d, t, Fetch(peer, tr.messageId).value, receivedAt); }
        EnterSettles(d, stored, peer, raw, tr);
      }
  }

  lemma {:induction false} AfterSettles(d: Digests, t: Tables, peer: Peer, range: seq<Raw>, clock: nat -> int, k: nat)
    requires Consistent(d, t) && k <= |range|
    requires After(d, t, peer, range, clock, k).error.None?
    ensures forall j | 0 <= j < k :: Settled(After(d, t, peer, range, clock, k).tables, peer, range[j])
  {
    if k > 0 {
      var p, q := After(d, t, peer, range, clock, k - 1), After(d, t, peer, range, clock, k);
      AfterSettles(d, t, peer, range, clock, k - 1);
      AfterKeeps(d, t, peer, range, clock, k - 1);
      SyncRowSettles(d, p.tables, peer, range[k - 1], clock(k - 1));
      forall j | 0 <= j < k - 1 ensures Settled(q.tables, peer, range[j]) {
        SettledStays(p.tables, q.tables, peer, range[j]);
      }
    }
  }

  lemma {:induction false} SettledRangeAgain(d: Digests, t: Tables, peer: Peer, range: seq<Raw>, clock: nat -> int, k: nat)
    requires k <= |range| && forall j | 0 <= j < |range| :: Settled(t, peer, range[j])
    ensures var p := After(d, t, peer, range, clock, k); p.tables == t && p.applied == 0 && p.error.None?
  {
    if k > 0 {
      SettledRangeAgain(d, t, peer, range, clock, k - 1);
      SettledAgain(d, t, peer, range[k - 1], clock(k - 1));
    }
  }

  /** Repeating a completed sync applies nothing, fails on nothing and leaves the archive as it is. */
  lemma SyncIdempotent(d: Digests, t: Tables, peer: Peer, cursor: int, limit: int, scope: Scope, clock: nat -> int, again: nat -> int)
    requires Consistent(d, t)
    requires SyncWith(d, t, peer, cursor, limit, scope, clock).1.Success?
    ensures var after := SyncWith(d, t, peer, cursor, limit, scope, clock).0;
            var second := SyncWith(d, after, peer, cursor, limit, scope, again);
            second.0 == after && second.1.Success? && second.1.value.applied == 0
  {
    var after := SyncWith(d, t, peer, cursor, limit, scope, clock).0;
    if MerkleRootOf(d, t, scope) != peer.root(scope) {
      var range := peer.getSyncRange(cursor, limit);
      AfterSettles(d, t, peer, range, clock, |range|);
      SettledRangeAgain(d, after, peer, range, again, |range|);
    }
  }
}
