/** What a sync makes of each row that comes over the wire. */
module SyncTerms {
  import opened Wrappers
  import opened Kinds
  import opened Archive
  import opened Sync

  /** Every field that a transition cannot do without is there. */
  predicate WellFormed(raw: Raw) {
    raw.messageId.Some? && raw.fromState.Some? && raw.toState.Some? && raw.sequenceNo.Some? && raw.at.Some?
  }

  function TransitionOf(raw: Raw): Transition
    requires WellFormed(raw)
  {
    Transition(raw.messageId.value, raw.fromState.value, raw.toState.value, raw.sequenceNo.value, raw.actorId, raw.sealedAt,
               raw.reason, raw.prevTransitionHash, raw.at.value)
  }

  /** The peer can be asked for messages and has the one with this id. */
  predicate Serves(peer: Peer, id: string) {
    peer.getMessage.Some? && peer.getMessage.value(id).Some?
  }

  /** The log has a row of the same message, number and states. */
  ghost predicate Repeated(log: seq<Row>, raw: Raw)
    requires WellFormed(raw)
  {
    exists r | r in log :: r.messageId == raw.messageId.value && r.sequenceNo == raw.sequenceNo.value &&
                           r.fromState == raw.fromState.value && r.toState == raw.toState.value
  }

  lemma RepeatedIsKnown(log: seq<Row>, raw: Raw)
    requires WellFormed(raw)
    ensures Repeated(log, raw) <==> Known(log, TransitionOf(raw))
  {
    if Known(log, TransitionOf(raw)) {
      var i :| 0 <= i < |log| && log[i].messageId == raw.messageId.value && log[i].sequenceNo == raw.sequenceNo.value &&
               log[i].fromState == raw.fromState.value && log[i].toState == raw.toState.value;
      assert log[i] in log;
    }
  }

  /** The archive once the message is there: as it is, or with the message the peer serves. */
  function WithMessage(d: Digests, t: Tables, peer: Peer, id: string, receivedAt: int): Result<Tables, StoreError>
    requires id in t.messages || Serves(peer, id)
  {
    if id in t.messages then Success(t) else AppendMessage(d, t, peer.getMessage.value(id).value, receivedAt)
  }

  /** A row is skipped if it is malformed; left unresolved if its message is neither here nor to be had; and otherwise, once
      the message is there, skipped if the log has it already, and appended if not. What the store refuses ends the sync, and
      a message that came in stays. */
  lemma RowExactly(d: Digests, t: Tables, peer: Peer, raw: Raw, receivedAt: int)
    ensures !WellFormed(raw) ==> SyncRow(d, t, peer, raw, receivedAt) == (t, Skipped)
    ensures WellFormed(raw) && raw.messageId.value !in t.messages && !Serves(peer, raw.messageId.value) ==>
              SyncRow(d, t, peer, raw, receivedAt) == (t, Unresolved)
    ensures WellFormed(raw) && (raw.messageId.value in t.messages || Serves(peer, raw.messageId.value)) ==>
              var there := WithMessage(d, t, peer, raw.messageId.value, receivedAt);
              if there.Failure? then SyncRow(d, t, peer, raw, receivedAt) == (t, Failed(there.error))
              else if Repeated(there.value.log, raw) then SyncRow(d, t, peer, raw, receivedAt) == (there.value, Skipped)
              else var appended := AppendTransition(d, there.value, TransitionOf(raw));
                   SyncRow(d, t, peer, raw, receivedAt) ==
                   if appended.Success? then (appended.value, Applied) else (there.value, Failed(appended.error))
  {
    if WellFormed(raw) && (raw.messageId.value in t.messages || Serves(peer, raw.messageId.value)) {
      var there := WithMessage(d, t, peer, raw.messageId.value, receivedAt);
      if there.Success? { RepeatedIsKnown(there.value.log, raw); }
    }
  }

  /** How many rows of the first `k` came out this way. */
  function Count(outcomes: seq<Outcome>, outcome: Outcome): nat {
    if outcomes == [] then 0
    else Count(outcomes[..|outcomes| - 1], outcome) + (if outcomes[|outcomes| - 1] == outcome then 1 else 0)
  }

  /** The archive after each row is what that row makes of the one before it, and none of the rows so far has failed. */
  ghost predicate RowByRow(d: Digests, t: Tables, peer: Peer, range: seq<Raw>, clock: nat -> int, states: seq<Tables>,
                           outcomes: seq<Outcome>)
  {
    && |states| == |outcomes| + 1 && |outcomes| <= |range| && states[0] == t
    && forall i: nat | i < |outcomes| ::
         SyncRow(d, states[i], peer, range[i], clock(i)) == (states[i + 1], outcomes[i]) && !outcomes[i].Failed?
  }

  /** The counters say how many rows came out each way. */
  predicate Tallied(p: Progress, outcomes: seq<Outcome>) {
    && p.applied == Count(outcomes, Applied) && p.skipped == Count(outcomes, Skipped)
    && p.unresolved == Count(outcomes, Unresolved)
  }

  lemma AdvanceTallies(p: Progress, step: (Tables, Outcome), outcomes: seq<Outcome>)
    requires Tallied(p, outcomes)
    ensures var after := Advance(p, step);
            after.tables == step.0 && (if step.1.Failed? then after.error == Some(step.1.error) else after.error == p.error) &&
            Tallied(after, if step.1.Failed? then outcomes else outcomes + [step.1])
  {
    var more := outcomes + [step.1];
    assert more[..|more| - 1] == outcomes;
  }

  lemma OneMoreRow(d: Digests, t: Tables, peer: Peer, range: seq<Raw>, clock: nat -> int, states: seq<Tables>,
                   outcomes: seq<Outcome>, step: (Tables, Outcome))
    requires RowByRow(d, t, peer, range, clock, states, outcomes) && |outcomes| < |range| && !step.1.Failed?
    requires step == SyncRow(d, states[|outcomes|], peer, range[|outcomes|], clock(|outcomes|))
    ensures RowByRow(d, t, peer, range, clock, states + [step.0], outcomes + [step.1])
  {
  }

  /** Where the loop stands: past the `k` rows, or at the one after those that came out, which failed. */
  ghost predicate StandsAt(d: Digests, peer: Peer, range: seq<Raw>, clock: nat -> int, k: nat, states: seq<Tables>,
                           outcomes: seq<Outcome>, p: Progress)
    requires |states| == |outcomes| + 1
  {
    match p.error
    case None => |outcomes| == k && p.tables == states[k]
    case Some(e) =>
      var n := |outcomes|;
      n < k && n < |range| && SyncRow(d, states[n], peer, range[n], clock(n)) == (p.tables, Failed(e))
  }

  /** The loop goes through the range row by row, up to the first row that fails, and counts how many came out each way. */
  lemma {:induction false} RowsExactly(d: Digests, t: Tables, peer: Peer, range: seq<Raw>, clock: nat -> int, k: nat)
    returns (states: seq<Tables>, outcomes: seq<Outcome>)
    requires k <= |range|
    ensures RowByRow(d, t, peer, range, clock, states, outcomes)
    ensures Tallied(After(d, t, peer, range, clock, k), outcomes)
    ensures StandsAt(d, peer, range, clock, k, states, outcomes, After(d, t, peer, range, clock, k))
  {
    if k == 0 {
      states, outcomes := [t], [];
    } else {
      states, outcomes := RowsExactly(d, t, peer, range, clock, k - 1);
      var before := After(d, t, peer, range, clock, k - 1);
      if before.error.None? {
        var step := SyncRow(d, before.tables, peer, range[k - 1], clock(k - 1));
        AdvanceTallies(before, step, outcomes);
        if !step.1.Failed? {
          OneMoreRow(d, t, peer, range, clock, states, outcomes, step);
          states, outcomes := states + [step.0], outcomes + [step.1];
        }
      }
    }
  }

  /** Equal roots end a sync at once; different ones make it ask for the range, and report what became of its rows. */
  lemma SyncExactly(d: Digests, t: Tables, peer: Peer, cursor: int, limit: int, scope: Scope, clock: nat -> int)
    returns (states: seq<Tables>, outcomes: seq<Outcome>)
    ensures var root, range := MerkleRootOf(d, t, scope), peer.getSyncRange(cursor, limit);
            var (after, r) := SyncWith(d, t, peer, cursor, limit, scope, clock);
            && (root == peer.root(scope) ==> after == t && r == Success(SyncResult(root, root, false, 0, 0, 0, 0)))
            && (root != peer.root(scope) ==>
                  && RowByRow(d, t, peer, range, clock, states, outcomes)
                  && (r.Success? ==>
                        && |outcomes| == |range| && after == states[|range|]
                        && r.value == SyncResult(MerkleRootOf(d, after, scope), peer.root(scope), true, |range|, Count(outcomes, Applied),
                                                 Count(outcomes, Skipped), Count(outcomes, Unresolved)))
                  && (r.Failure? ==>
                        var n := |outcomes|;
                        n < |range| && SyncRow(d, states[n], peer, range[n], clock(n)) == (after, Failed(r.error))))
  {
    var range := peer.getSyncRange(cursor, limit);
    states, outcomes := RowsExactly(d, t, peer, range, clock, |range|);
  }

  /** The rows an archive hands out: those after the cursor in the order of the log, as many as the limit allows. */
  lemma RangeExactly(d: Digests, t: Tables, cursor: int, limit: int, i: nat)
    requires cursor >= 0
    ensures var range := PeerOf(d, t).getSyncRange(cursor, limit);
            && |range| == (var rest := if cursor <= |t.log| then |t.log| - cursor else 0;
                           if limit < 0 || rest <= limit then rest else limit)
            && (i < |range| ==> WellFormed(range[i]) && TransitionOf(range[i]) == AsTransition(t.log[cursor + i]))
  {
  }
}
