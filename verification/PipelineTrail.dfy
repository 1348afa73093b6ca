/** The rows a call leaves in the log, in full. */
module PipelineTrail {
  import opened Wrappers
  import opened Kinds
  import opened SealChain
  import opened Archive
  import opened LogShape
  import opened Pipeline
  import opened PipelineSteps
  import opened PipelineEffects

  /** Where a row takes the message, and the reason it gives. */
  datatype Stop = Stop(to: MessageState, reason: Option<string>)

  /** The row that takes a message on from a state: numbered after the `n` rows before it, naming the hash before it and
      carrying the digest of its own fields, in the actor's name and at the times read for its number. */
  function RowMade(d: Digests, inv: Invocation, m: Message, from: MessageState, n: nat, prev: string, stop: Stop): Row {
    var stamp := inv.stamps(n + 1);
    Row(m.id, from, stop.to, n + 1, Some(m.actor.id), Some(stamp.sealedAt), stop.reason, prev,
        d.transition(HashInput(m.id, from, stop.to, n + 1, Some(m.actor.id), prev, stamp.at)), stamp.at)
  }

  function RowsMade(d: Digests, inv: Invocation, m: Message, from: MessageState, n: nat, prev: string, trail: seq<Stop>): seq<Row>
    decreases |trail|
  {
    if trail == [] then []
    else
      var row := RowMade(d, inv, m, from, n, prev, trail[0]);
      [row] + RowsMade(d, inv, m, trail[0].to, n + 1, row.hash, trail[1..])
  }

  function LastHash(rows: seq<Row>): string {
    if rows == [] then "GENESIS" else rows[|rows| - 1].hash
  }

  /** The log has grown by just the rows of the trail. */
  ghost predicate Wrote(d: Digests, inv: Invocation, m: Message, t: Tables, after: Tables, from: MessageState, trail: seq<Stop>) {
    var rows := RowsOf(t.log, m.id);
    after.log == t.log + RowsMade(d, inv, m, from, |rows|, LastHash(rows), trail)
  }

  lemma WroteNothing(d: Digests, inv: Invocation, m: Message, t: Tables, after: Tables, from: MessageState)
    requires after.log == t.log
    ensures Wrote(d, inv, m, t, after, from, [])
  {
    assert t.log + [] == t.log;
  }

  lemma OneRowMade(d: Digests, inv: Invocation, m: Message, from: MessageState, n: nat, prev: string, stop: Stop)
    ensures RowsMade(d, inv, m, from, n, prev, [stop]) == [RowMade(d, inv, m, from, n, prev, stop)]
  {
    assert [stop][1..] == [];
  }

  lemma RowsMadeThen(d: Digests, inv: Invocation, m: Message, from: MessageState, n: nat, prev: string, stop: Stop, trail: seq<Stop>)
    ensures var row := RowMade(d, inv, m, from, n, prev, stop);
            RowsMade(d, inv, m, from, n, prev, [stop] + trail) == [row] + RowsMade(d, inv, m, stop.to, n + 1, row.hash, trail)
  {
    assert ([stop] + trail)[1..] == trail;
  }

  /** One row, then the rest. */
  lemma WroteThen(d: Digests, inv: Invocation, m: Message, t: Tables, next: Tables, after: Tables, from: MessageState, stop: Stop,
                  trail: seq<Stop>)
    requires Wrote(d, inv, m, t, next, from, [stop]) && Wrote(d, inv, m, next, after, stop.to, trail)
    ensures Wrote(d, inv, m, t, after, from, [stop] + trail)
  {
    var rows := RowsOf(t.log, m.id);
    var row := RowMade(d, inv, m, from, |rows|, LastHash(rows), stop);
    OneRowMade(d, inv, m, from, |rows|, LastHash(rows), stop);
    RowsOfAppend(t.log, row, m.id);
    RowsMadeThen(d, inv, m, from, |rows|, LastHash(rows), stop, trail);
    AfterOneRow(rows, row);
    OneThenRest(t.log, row, RowsMade(d, inv, m, stop.to, |rows| + 1, row.hash, trail));
  }

  lemma AfterOneRow(rows: seq<Row>, row: Row)
    ensures |rows + [row]| == |rows| + 1 && LastHash(rows + [row]) == row.hash
  {
  }

  lemma OneThenRest(log: seq<Row>, row: Row, rest: seq<Row>)
    ensures log + [row] + rest == log + ([row] + rest)
  {
  }

  lemma AppendWrites(cfg: Config, o: Office, inv: Invocation, m: Message, from: MessageState, to: MessageState, reason: Option<string>)
    requires Track(cfg.digests, o.tables, m.id, from) && CanTransition(from, to)
    ensures AppendNext(cfg, o, inv, m, from, to, reason).Success?
    ensures Wrote(cfg.digests, inv, m, o.tables, AppendNext(cfg, o, inv, m, from, to, reason).value.tables, from, [Stop(to, reason)])
  {
    var d, t, tr := cfg.digests, o.tables, NextTransition(o.tables, inv, m, from, to, reason);
    var rows := RowsOf(t.log, m.id);
    NextIsAccepted(cfg, t, inv, m, from, to, reason);
    NextRow(d, t, tr);
    AppendShape(d, t, tr);
    OneRowMade(d, inv, m, from, |rows|, LastHash(rows), Stop(to, reason));
    assert RowFor(d, t, tr) == RowMade(d, inv, m, from, |rows|, LastHash(rows), Stop(to, reason));
  }

  // ----- Answers -----

  /** What a call returns and the trail it leaves. */
  datatype Answer = Answer(outcome: Outcome, trail: seq<Stop>)

  function Rejects(reason: string): Answer {
    Answer(Returned(Rejected, Some(reason)), [Stop(Rejected, Some(reason))])
  }

  function Through(to: MessageState, answer: Answer): Answer {
    answer.(trail := [Stop(to, None)] + answer.trail)
  }

  ghost predicate Gives(cfg: Config, inv: Invocation, m: Message, o: Office, from: MessageState, r: (Office, Outcome), answer: Answer) {
    r.1 == answer.outcome && Wrote(cfg.digests, inv, m, o.tables, r.0.tables, from, answer.trail)
  }

  lemma ConcludeGives(cfg: Config, o: Office, inv: Invocation, m: Message, from: MessageState, to: MessageState,
                      reason: Option<string>, reported: Option<string>)
    requires Track(cfg.digests, o.tables, m.id, from) && CanTransition(from, to)
    ensures Gives(cfg, inv, m, o, from, Conclude(cfg, o, inv, m, from, to, reason, reported),
                  Answer(Returned(to, reported), [Stop(to, reason)]))
  {
    AppendWrites(cfg, o, inv, m, from, to, reason);
  }

  lemma ThroughGives(cfg: Config, inv: Invocation, m: Message, o: Office, next: Office, from: MessageState, to: MessageState,
                     r: (Office, Outcome), answer: Answer)
    requires Wrote(cfg.digests, inv, m, o.tables, next.tables, from, [Stop(to, None)]) && Gives(cfg, inv, m, next, to, r, answer)
    ensures Gives(cfg, inv, m, o, from, r, Through(to, answer))
  {
    WroteThen(cfg.digests, inv, m, o.tables, next.tables, r.0.tables, from, Stop(to, None), answer.trail);
  }

  // ----- Archiving -----

  const LAST := Answer(Returned(MessageState.Archived, None), [Stop(MessageState.Archived, None)])

  /** By way of authorized. */
  const ARCHIVES := Through(Authorized, LAST)

  lemma ArchiveAuthorizedGives(cfg: Config, o: Office, inv: Invocation, m: Message)
    requires Track(cfg.digests, o.tables, m.id, Authorized)
    ensures Gives(cfg, inv, m, o, Authorized, ArchiveAuthorized(cfg, o, inv, m), LAST)
  {
    AppendWrites(cfg, o, inv, m, Authorized, MessageState.Archived, None);
  }

  lemma ArchiveNowGives(cfg: Config, o: Office, inv: Invocation, m: Message, s: MessageState)
    requires Sealable(s) && Track(cfg.digests, o.tables, m.id, s)
    ensures Gives(cfg, inv, m, o, s, ArchiveNow(cfg, o, inv, m), ARCHIVES)
  {
    Stored(cfg, o, m.id, s);
    AppendNextMoves(cfg, o, inv, m, s, Authorized, None);
    AppendWrites(cfg, o, inv, m, s, Authorized, None);
    var authorized := AppendNext(cfg, o, inv, m, s, Authorized, None).value;
    ArchiveAuthorizedGives(cfg, authorized, inv, m);
    ArchiveNowIs(cfg, o, inv, m, s, authorized);
    ThroughGives(cfg, inv, m, o, authorized, s, Authorized, ArchiveAuthorized(cfg, authorized, inv, m), LAST);
  }

  lemma ArchiveNowIs(cfg: Config, o: Office, inv: Invocation, m: Message, s: MessageState, authorized: Office)
    requires CurrentState(o.tables, m.id) == s && AppendNext(cfg, o, inv, m, s, Authorized, None) == Success(authorized)
    ensures ArchiveNow(cfg, o, inv, m) == ArchiveAuthorized(cfg, authorized, inv, m)
  {
  }

  /** Storing seals writes no row. */
  lemma StoreAndArchiveGives(cfg: Config, o: Office, inv: Invocation, m: Message, s: MessageState, seals: seq<SealRecord>)
    requires Orderly(cfg, o) && Sealable(s) && StateFit(cfg, o.tables, m.id, s) && FreshSeals(seals, m.id)
    ensures Gives(cfg, inv, m, o, s, StoreAndArchive(cfg, o, inv, m, seals), ARCHIVES)
  {
    ChainStored(o.tables, seals, m.id);
    var stored := o.(tables := o.tables.(seals := o.tables.seals + seals));
    ArchiveNowGives(cfg, stored, inv, m, s);
  }

  // ----- The catch path -----

  /** What the worker's catch path writes: nothing over a rejection; otherwise one row from the stored state to rejected, in the
      worker's name and at its time, that names the previous hash of the row before it instead of that row's own. */
  lemma CatchWrites(cfg: Config, o: Office, id: string, nowMs: int, reason: string)
    ensures var (after, e) := CatchFailure(cfg, o, id, nowMs, reason);
            var rows, from := GetTransitions(o.tables, id), CurrentState(o.tables, id);
            var prev := if rows == [] then "GENESIS" else rows[|rows| - 1].prevHash;
            if from == Rejected || e.Some? then after == o
            else after.tables.log == o.tables.log +
                   [Row(id, from, Rejected, |rows| + 1, Some("gateway-worker"), Some(nowMs), Some(reason), prev,
                        cfg.digests.transition(HashInput(id, from, Rejected, |rows| + 1, Some("gateway-worker"), prev, nowMs)), nowMs)]
  {
    var tr := CatchTransition(o.tables, id, nowMs, reason);
    if AppendTransition(cfg.digests, o.tables, tr).Success? { AppendShape(cfg.digests, o.tables, tr); }
  }
}
