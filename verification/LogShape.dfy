/** The shape of one message's log, and what its hashes bind. */
module LogShape {
  import opened Wrappers
  import opened Hashing
  import opened Kinds
  import opened Archive
  import opened Sorting

  // ----- Shapes -----

  function StateAfter(rows: seq<Row>): MessageState {
    if rows == [] then Pending else rows[|rows| - 1].toState
  }

  function HashAfter(rows: seq<Row>): string {
    if rows == [] then "GENESIS" else rows[|rows| - 1].hash
  }

  /** Numbered from 1 without gaps, each transition leaving from the state the one before arrived at. */
  ghost predicate Walk(rows: seq<Row>) {
    forall i | 0 <= i < |rows| :: rows[i].sequenceNo == i + 1 && rows[i].fromState == StateAfter(rows[..i])
  }

  ghost predicate OnlyAllowed(rows: seq<Row>) {
    forall i | 0 <= i < |rows| :: CanTransition(rows[i].fromState, rows[i].toState)
  }

  /** Every row carries the digest of its own fields. */
  ghost predicate SelfHashed(d: Digests, rows: seq<Row>) {
    forall i | 0 <= i < |rows| :: rows[i].hash == d.transition(InputOf(rows[i]))
  }

  /** Every row names the hash of the row before it. */
  ghost predicate HashLinked(rows: seq<Row>) {
    forall i | 0 <= i < |rows| :: rows[i].prevHash == HashAfter(rows[..i])
  }

  lemma {:induction false} LatestIsLast(rows: seq<Row>)
    requires Walk(rows) && rows != []
    ensures LatestRow(rows) == Some(rows[|rows| - 1])
  {
    var n := |rows| - 1;
    if n > 0 {
      WalkPrefix(rows, n);
      LatestIsLast(rows[..n]);
    }
  }

  lemma WalkPrefix(rows: seq<Row>, k: nat)
    requires Walk(rows) && k <= |rows|
    ensures Walk(rows[..k])
  {
    forall i | 0 <= i < k ensures rows[..k][i].fromState == StateAfter(rows[..k][..i]) {
      assert rows[..k][..i] == rows[..i];
    }
  }

  /** The stored state is where the walk arrived. */
  lemma CurrentIsStateAfter(t: Tables, id: string)
    requires Walk(RowsOf(t.log, id))
    ensures CurrentState(t, id) == StateAfter(RowsOf(t.log, id))
  {
    if RowsOf(t.log, id) != [] { LatestIsLast(RowsOf(t.log, id)); }
  }

  /** No allowed transition leaves archived or rejected, so only the last one can arrive there. */
  lemma TerminalIsLast(rows: seq<Row>, i: nat)
    requires Walk(rows) && OnlyAllowed(rows) && i < |rows| - 1
    ensures rows[i].toState != Archived && rows[i].toState != Rejected
  {
    assert rows[..i + 1][i] == rows[i];
    assert rows[i + 1].fromState == rows[i].toState;
    assert rows[i + 1].toState in AllowedTransitions(rows[i].toState);
  }

  /** One more transition from where the walk arrived. */
  lemma WalkAppend(rows: seq<Row>, row: Row)
    requires Walk(rows)
    ensures Walk(rows + [row]) <==> row.sequenceNo == |rows| + 1 && row.fromState == StateAfter(rows)
    ensures StateAfter(rows + [row]) == row.toState
  {
    var more := rows + [row];
    assert more[..|rows|] == rows;
    forall i | 0 <= i < |rows| ensures more[i].sequenceNo == i + 1 && more[i].fromState == StateAfter(more[..i]) {
      assert more[..i] == rows[..i];
    }
  }

  lemma LinkAppend(rows: seq<Row>, row: Row)
    requires HashLinked(rows)
    ensures HashLinked(rows + [row]) <==> row.prevHash == HashAfter(rows)
  {
    var more := rows + [row];
    assert more[..|rows|] == rows;
    forall i | 0 <= i < |rows| ensures more[i].prevHash == HashAfter(more[..i]) { assert more[..i] == rows[..i]; }
  }

  // ----- What the last hash binds -----

  ghost predicate SameHashedFields(a: seq<Row>, b: seq<Row>) {
    |a| == |b| && forall i | 0 <= i < |a| :: InputOf(a[i]) == InputOf(b[i]) && a[i].hash == b[i].hash
  }

  ghost predicate LinkedLog(d: Digests, rows: seq<Row>) {
    Walk(rows) && SelfHashed(d, rows) && HashLinked(rows)
  }

  /** Two linked logs, in one archive or in two, end in the same hash exactly when they have the same length and
      agree on every hashed field of every row. The sealed times and the reasons are not among those fields. */
  lemma LastHashBindsExactly(d: Digests, a: seq<Row>, b: seq<Row>)
    requires Injective(d.transition) && LinkedLog(d, a) && LinkedLog(d, b) && a != [] && b != []
    ensures a[|a| - 1].hash == b[|b| - 1].hash <==> SameHashedFields(a, b)
  {
    if a[|a| - 1].hash == b[|b| - 1].hash { LastHashBinds(d, a, b); }
  }

  lemma {:induction false} LastHashBinds(d: Digests, a: seq<Row>, b: seq<Row>)
    requires Injective(d.transition) && LinkedLog(d, a) && LinkedLog(d, b) && a != [] && b != []
    requires a[|a| - 1].hash == b[|b| - 1].hash
    ensures SameHashedFields(a, b)
    decreases |a|
  {
    var m, n := |a| - 1, |b| - 1;
    LastFieldsEqual(d, a, b);
    if m > 0 {
      LinkedPrefix(d, a, m);
      LinkedPrefix(d, b, m);
      LastHashBinds(d, a[..m], b[..m]);
    }
    SameFieldsFurther(a, b, m);
  }

  lemma LastFieldsEqual(d: Digests, a: seq<Row>, b: seq<Row>)
    requires Injective(d.transition) && LinkedLog(d, a) && LinkedLog(d, b) && a != [] && b != []
    requires a[|a| - 1].hash == b[|b| - 1].hash
    ensures |a| == |b| && InputOf(a[|a| - 1]) == InputOf(b[|b| - 1])
    ensures HashAfter(a[..|a| - 1]) == HashAfter(b[..|b| - 1])
  {
    var x, y := a[|a| - 1], b[|b| - 1];
    assert d.transition(InputOf(x)) == d.transition(InputOf(y));
    assert x.sequenceNo == y.sequenceNo && x.prevHash == y.prevHash;
  }

  lemma SameFieldsFurther(a: seq<Row>, b: seq<Row>, m: nat)
    requires |a| == |b| == m + 1 && SameHashedFields(a[..m], b[..m])
    requires InputOf(a[m]) == InputOf(b[m]) && a[m].hash == b[m].hash
    ensures SameHashedFields(a, b)
  {
    forall i | 0 <= i < m ensures InputOf(a[i]) == InputOf(b[i]) && a[i].hash == b[i].hash {
      assert a[..m][i] == a[i] && b[..m][i] == b[i];
    }
  }

  lemma LinkedPrefix(d: Digests, rows: seq<Row>, k: nat)
    requires LinkedLog(d, rows) && k <= |rows|
    ensures LinkedLog(d, rows[..k])
  {
    WalkPrefix(rows, k);
    forall i | 0 <= i < k ensures rows[..k][i].prevHash == HashAfter(rows[..k][..i]) {
      assert rows[..k][..i] == rows[..i];
    }
  }

  // ----- Rows of a prefix of the log -----

  lemma {:induction false} RowsOfPrefix(log: seq<Row>, k: nat, id: string)
    requires k <= |log|
    ensures RowsOf(log[..k], id) <= RowsOf(log, id)
    decreases |log|
  {
    if k < |log| {
      var n := |log| - 1;
      RowsOfPrefix(log[..n], k, id);
      assert log[..n][..k] == log[..k];
    } else {
      assert log[..k] == log;
    }
  }

  lemma RowsOfNext(log: seq<Row>, k: nat, id: string)
    requires k < |log|
    ensures RowsOf(log[..k + 1], id) == RowsOf(log[..k], id) + (if log[k].messageId == id then [log[k]] else [])
    ensures RowsOf(log[..k + 1], id) <= RowsOf(log, id)
  {
    assert log[..k + 1] == log[..k] + [log[k]];
    RowsOfAppend(log[..k], log[k], id);
    RowsOfPrefix(log, k + 1, id);
  }

  lemma TakenStep(log: seq<Row>, id: string, sequenceNo: int)
    requires log != []
    ensures SequenceTaken(log, id, sequenceNo) <==>
              SequenceTaken(log[..|log| - 1], id, sequenceNo) ||
              (log[|log| - 1].messageId == id && log[|log| - 1].sequenceNo == sequenceNo)
  {
    var n := |log| - 1;
    if SequenceTaken(log[..n], id, sequenceNo) {
      var i :| 0 <= i < n && log[..n][i].messageId == id && log[..n][i].sequenceNo == sequenceNo;
      assert log[i] == log[..n][i];
    }
    if i :| 0 <= i < n && log[i].messageId == id && log[i].sequenceNo == sequenceNo { assert log[..n][i] == log[i]; }
  }

  lemma {:induction false} SequenceInRows(log: seq<Row>, id: string, sequenceNo: int)
    ensures SequenceTaken(log, id, sequenceNo) <==> exists r :: r in RowsOf(log, id) && r.sequenceNo == sequenceNo
  {
    if log != [] {
      var n := |log| - 1;
      SequenceInRows(log[..n], id, sequenceNo);
      TakenStep(log, id, sequenceNo);
    }
  }

  /** In a walk the numbers taken are 1 to its length. */
  lemma TakenInWalk(t: Tables, id: string, sequenceNo: int)
    requires Walk(RowsOf(t.log, id))
    ensures SequenceTaken(t.log, id, sequenceNo) <==> 1 <= sequenceNo <= |RowsOf(t.log, id)|
  {
    SequenceInRows(t.log, id, sequenceNo);
    var rows := RowsOf(t.log, id);
    if 1 <= sequenceNo <= |rows| { assert rows[sequenceNo - 1] in rows; }
  }

  /** A walk is read in the order it was logged. */
  lemma WalkIsRead(t: Tables, id: string)
    requires Walk(RowsOf(t.log, id))
    ensures GetTransitions(t, id) == RowsOf(t.log, id)
  {
    SortOfSorted(BySequence(), RowsOf(t.log, id));
  }
}
