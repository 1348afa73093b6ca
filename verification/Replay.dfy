/** Reconstructing a message's state from its transitions: all of them, or those up to a moment. */
module Replay {
  import opened Wrappers
  import opened Kinds
  import opened Sorting
  import opened Archive

  function Filter(p: Row -> bool, rows: seq<Row>): (kept: seq<Row>)
    ensures forall r :: r in kept <==> r in rows && p(r)
  {
    if rows == [] then []
    else (if p(rows[0]) then [rows[0]] else []) + Filter(p, rows[1..])
  }

  /** Sort by sequence number, fold to the last state. */
  function ReplayState(rows: seq<Row>): MessageState {
    var sorted := StableSort(BySequence(), rows);
    if sorted == [] then Pending else sorted[|sorted| - 1].toState
  }

  function NewestFirst(): (Row, Row) -> int {
    (a: Row, b: Row) => b.sequenceNo - a.sequenceNo
  }

  function VisibleAt(rows: seq<Row>, at: int): seq<Row> {
    Filter((r: Row) => r.sealedAt.GetOr(r.at) <= at, rows)
  }

  /** The first row, newest first, of those sealed (or else made) by the moment. */
  function StateAtFromTransitions(rows: seq<Row>, at: int): MessageState {
    var sorted := StableSort(NewestFirst(), VisibleAt(rows, at));
    if sorted == [] then Pending else sorted[0].toState
  }

  function SealedBy(rows: seq<Row>, at: int): seq<Row> {
    Filter((r: Row) => r.sealedAt.Some? && r.sealedAt.value <= at, rows)
  }

  /** The archive's own query, which SQL's NULL comparison confines to rows that have a sealed time. */
  function StateAt(t: Tables, id: string, at: int): Option<MessageState> {
    match LatestRow(SealedBy(RowsOf(t.log, id), at))
    case Some(row) => Some(row.toState)
    case None => None
  }

  // ----- The newest row decides -----

  ghost predicate Distinct(rows: seq<Row>) {
    forall i, j | 0 <= i < j < |rows| :: rows[i].sequenceNo != rows[j].sequenceNo
  }

  ghost predicate IsNewest(row: Row, rows: seq<Row>) {
    row in rows && forall r | r in rows :: r.sequenceNo <= row.sequenceNo
  }

  lemma NewestUnique(rows: seq<Row>, a: Row, b: Row)
    requires Distinct(rows) && IsNewest(a, rows) && IsNewest(b, rows)
    ensures a == b
  {
    var i :| 0 <= i < |rows| && rows[i] == a;
    var j :| 0 <= j < |rows| && rows[j] == b;
  }

  lemma {:induction false} LatestIsNewest(rows: seq<Row>)
    requires rows != []
    ensures IsNewest(LatestRow(rows).value, rows)
  {
    var n := |rows| - 1;
    if n > 0 { LatestIsNewest(rows[..n]); }
    assert rows == rows[..n] + [rows[n]];
  }

  lemma SequenceComparison()
    ensures Comparison(BySequence()) && Comparison(NewestFirst())
  {
  }

  lemma SameElements<T>(s: seq<T>, t: seq<T>)
    requires multiset(s) == multiset(t)
    ensures |s| == |t| && forall x :: x in s <==> x in t
  {
    assert |s| == |multiset(s)| == |multiset(t)| == |t|;
    forall x ensures x in s <==> x in t { assert x in multiset(s) <==> x in multiset(t); }
  }

  lemma LastIsNewest(rows: seq<Row>)
    requires rows != []
    ensures var sorted := StableSort(BySequence(), rows); IsNewest(sorted[|sorted| - 1], rows)
  {
    var sorted, n := StableSort(BySequence(), rows), |rows| - 1;
    SequenceComparison();
    SortSorts(BySequence(), rows);
    SameElements(sorted, rows);
    var last := sorted[n];
    forall r | r in rows ensures r.sequenceNo <= last.sequenceNo {
      assert r in sorted;
      var i :| 0 <= i <= n && sorted[i] == r;
      SortedPairs(BySequence(), sorted, i, n);
      assert BySequence()(r, last) <= 0;
    }
    assert last in sorted;
  }

  lemma FirstIsNewest(rows: seq<Row>)
    requires rows != []
    ensures IsNewest(StableSort(NewestFirst(), rows)[0], rows)
  {
    var sorted := StableSort(NewestFirst(), rows);
    SequenceComparison();
    SortSorts(NewestFirst(), rows);
    SameElements(sorted, rows);
    var first := sorted[0];
    forall r | r in rows ensures r.sequenceNo <= first.sequenceNo {
      assert r in sorted;
      var i :| 0 <= i < |sorted| && sorted[i] == r;
      SortedPairs(NewestFirst(), sorted, 0, i);
      assert NewestFirst()(first, r) <= 0;
    }
    assert first in sorted;
  }

  /** Replay is the state of the newest row, pending without rows. */
  lemma ReplayIsLatest(rows: seq<Row>)
    requires Distinct(rows)
    ensures ReplayState(rows) == match LatestRow(rows) case Some(row) => row.toState case None => Pending
  {
    if rows != [] {
      LastIsNewest(rows);
      LatestIsNewest(rows);
      var sorted := StableSort(BySequence(), rows);
      NewestUnique(rows, sorted[|sorted| - 1], LatestRow(rows).value);
    }
  }

  /** The order rows arrive in makes no difference. */
  lemma ReplayOfPermutation(rows: seq<Row>, other: seq<Row>)
    requires Distinct(rows) && multiset(other) == multiset(rows)
    ensures ReplayState(other) == ReplayState(rows)
  {
    SameElements(other, rows);
    if rows != [] {
      LastIsNewest(rows);
      LastIsNewest(other);
      var s, t := StableSort(BySequence(), rows), StableSort(BySequence(), other);
      NewestUnique(rows, s[|s| - 1], t[|t| - 1]);
    }
  }

  lemma {:induction false} RowsOfDistinct(t: Tables, log: seq<Row>, id: string)
    requires LogConsistent(t) && log <= t.log
    ensures Distinct(RowsOf(log, id))
    ensures forall r | r in RowsOf(log, id) :: exists k :: 0 <= k < |log| && log[k] == r
  {
    if log != [] {
      var n := |log| - 1;
      RowsOfDistinct(t, log[..n], id);
      var before := RowsOf(log[..n], id);
      forall i | 0 <= i < |before| && log[n].messageId == id ensures before[i].sequenceNo != log[n].sequenceNo {
        assert before[i] in before;
        var k :| 0 <= k < n && log[..n][k] == before[i];
        assert t.log[k] == before[i] && t.log[n] == log[n];
      }
    }
  }

  /** In a consistent archive, replaying a message's rows in any order gives its stored state. */
  lemma ReplayIsSnapshot(d: Digests, t: Tables, id: string, rows: seq<Row>)
    requires Consistent(d, t) && multiset(rows) == multiset(RowsOf(t.log, id))
    ensures ReplayState(rows) == CurrentState(t, id)
  {
    RowsOfDistinct(t, t.log, id);
    ReplayOfPermutation(RowsOf(t.log, id), rows);
    ReplayIsLatest(RowsOf(t.log, id));
  }

  // ----- States of the past -----

  lemma {:induction false} FilterDistinct(p: Row -> bool, rows: seq<Row>)
    requires Distinct(rows)
    ensures Distinct(Filter(p, rows))
  {
    if rows != [] {
      FilterDistinct(p, rows[1..]);
      var rest := Filter(p, rows[1..]);
      forall i | 0 <= i < |rest| ensures rest[i].sequenceNo != rows[0].sequenceNo {
        assert rest[i] in rest;
        var k :| 0 <= k < |rows[1..]| && rows[1..][k] == rest[i];
        assert rows[k + 1] == rest[i];
      }
    }
  }

  /** The state at a moment is the replay of the rows up to it. */
  lemma StateAtIsReplay(rows: seq<Row>, at: int)
    requires Distinct(rows)
    ensures StateAtFromTransitions(rows, at) == ReplayState(VisibleAt(rows, at))
  {
    var visible := VisibleAt(rows, at);
    FilterDistinct((r: Row) => r.sealedAt.GetOr(r.at) <= at, rows);
    if visible != [] {
      FirstIsNewest(visible);
      LastIsNewest(visible);
      var s := StableSort(BySequence(), visible);
      NewestUnique(visible, StableSort(NewestFirst(), visible)[0], s[|s| - 1]);
    }
  }

  /** The archive's query finds the same row exactly when the newest visible row has a sealed time. */
  lemma SameRowExactly(rows: seq<Row>, at: int)
    requires Distinct(rows)
    ensures var visible := LatestRow(VisibleAt(rows, at));
            LatestRow(SealedBy(rows, at)) == visible <==> (visible.Some? ==> visible.value.sealedAt.Some?)
  {
    var visible, sealed_ := VisibleAt(rows, at), SealedBy(rows, at);
    if visible != [] {
      LatestIsNewest(visible);
      var v := LatestRow(visible).value;
      if v.sealedAt.Some? {
        assert v in sealed_;
        LatestIsNewest(sealed_);
        FilterDistinct((r: Row) => r.sealedAt.Some? && r.sealedAt.value <= at, rows);
        assert IsNewest(v, sealed_);
        NewestUnique(sealed_, v, LatestRow(sealed_).value);
      }
    } else {
      assert forall r | r in sealed_ :: r in visible;
    }
  }

  /** So where every row is sealed, as all pipeline rows are, the archive and the library agree at every moment. */
  lemma StateAtAgrees(d: Digests, t: Tables, id: string, at: int)
    requires Consistent(d, t)
    requires forall r | r in RowsOf(t.log, id) :: r.sealedAt.Some?
    ensures StateAt(t, id, at).GetOr(Pending) == StateAtFromTransitions(RowsOf(t.log, id), at)
  {
    var rows := RowsOf(t.log, id);
    RowsOfDistinct(t, t.log, id);
    SameRowExactly(rows, at);
    StateAtIsReplay(rows, at);
    FilterDistinct((r: Row) => r.sealedAt.GetOr(r.at) <= at, rows);
    ReplayIsLatest(VisibleAt(rows, at));
  }
}
