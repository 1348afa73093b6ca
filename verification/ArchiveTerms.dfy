/** What the archive's tables hold after a write, column by column. */
module ArchiveTerms {
  import opened Wrappers
  import opened Kinds
  import opened Sorting
  import opened Ordering
  import opened Archive

  // ----- Messages -----

  /** A message is stored exactly when its id is free and the message it names, if any, is stored or is itself; nothing but
      its row is new. */
  lemma MessageStoredExactly(d: Digests, t: Tables, m: Message, receivedAt: int)
    ensures var named := if m.payload.supersededBy.Some? then m.payload.supersededBy else m.payload.supersededEdictId;
            var r := AppendMessage(d, t, m, receivedAt);
            (r.Success? <==> m.id !in t.messages && (named.Some? ==> named.value == m.id || named.value in t.messages)) &&
            (r.Success? ==>
               r.value.messages.Keys == t.messages.Keys + {m.id} && (forall x | x in t.messages :: r.value.messages[x] == t.messages[x]) &&
               r.value.messages[m.id].body == m && r.value.messages[m.id].contentHash == d.content(m.payload) &&
               (r.value.messages[m.id].constitutional <==> m.genre == "ti_definition" || m.constitutional) &&
               r.value.messages[m.id].supersededBy == named && r.value.messages[m.id].archivedAt == None &&
               r.value.messages[m.id].receivedAt == receivedAt && r.value.(messages := t.messages) == t)
  {
  }

  // ----- Transitions -----

  /** The row of the message with the greatest sequence number. */
  ghost predicate Newest(log: seq<Row>, id: string, row: Row) {
    && row in log && row.messageId == id
    && forall r | r in log && r.messageId == id :: r.sequenceNo <= row.sequenceNo
  }

  lemma {:induction false} InRowsOf(log: seq<Row>, id: string, row: Row)
    ensures row in RowsOf(log, id) <==> row in log && row.messageId == id
  {
    if log != [] {
      var n := |log| - 1;
      InRowsOf(log[..n], id, row);
      assert log == log[..n] + [log[n]];
    }
  }

  lemma {:induction false} LatestIsNewest(rows: seq<Row>)
    requires rows != []
    ensures LatestRow(rows).Some? && LatestRow(rows).value in rows
    ensures forall r | r in rows :: r.sequenceNo <= LatestRow(rows).value.sequenceNo
  {
    var n := |rows| - 1;
    assert rows == rows[..n] + [rows[n]];
    if n > 0 { LatestIsNewest(rows[..n]); }
  }

  /** The stored state and hash are those of the newest row; a message without rows is pending. */
  lemma StoredIsNewest(t: Tables, id: string)
    ensures var latest := LatestRow(RowsOf(t.log, id));
            if forall r | r in t.log :: r.messageId != id then latest == None && CurrentState(t, id) == Pending
            else latest.Some? && Newest(t.log, id, latest.value) && CurrentState(t, id) == latest.value.toState
  {
    forall r ensures r in RowsOf(t.log, id) <==> r in t.log && r.messageId == id { InRowsOf(t.log, id, r); }
    if RowsOf(t.log, id) != [] {
      LatestIsNewest(RowsOf(t.log, id));
    } else {
      forall r | r in t.log ensures r.messageId != id { assert r !in RowsOf(t.log, id); }
    }
  }

  /** Where the store lets a message go from each state. */
  predicate Edge(from: MessageState, to: MessageState) {
    || (from == Pending && to in {Validated, Authorized, Rejected})
    || (from == Validated && to in {Reviewed, Rejected})
    || (from == Reviewed && to in {Pending, Authorized, Rejected})
    || (from == Authorized && to == MessageState.Archived)
  }

  lemma EdgesExactly(from: MessageState, to: MessageState)
    ensures CanTransition(from, to) <==> Edge(from, to)
  {
  }

  /** A transition is accepted exactly when it goes along an edge from the stored state or claims to start there, its
      number is free, and its message is known. */
  lemma TransitionAcceptedExactly(d: Digests, t: Tables, tr: Transition)
    ensures AppendTransition(d, t, tr).Success? <==>
            && (Edge(CurrentState(t, tr.messageId), tr.toState) || tr.fromState == CurrentState(t, tr.messageId))
            && (forall r | r in t.log :: r.messageId == tr.messageId ==> r.sequenceNo != tr.sequenceNo)
            && tr.messageId in t.messages
  {
    EdgesExactly(CurrentState(t, tr.messageId), tr.toState);
    if SequenceTaken(t.log, tr.messageId, tr.sequenceNo) {
      var i :| 0 <= i < |t.log| && t.log[i].messageId == tr.messageId && t.log[i].sequenceNo == tr.sequenceNo;
      assert t.log[i] in t.log;
    }
  }

  /** The row it leaves: the previous hash is the one it brings, or that of the newest row, or the text for none; and its own
      is the digest of its fields. */
  lemma TransitionRow(d: Digests, t: Tables, tr: Transition)
    requires AppendTransition(d, t, tr).Success?
    ensures var after, latest := AppendTransition(d, t, tr).value, LatestRow(RowsOf(t.log, tr.messageId));
            var prev := if tr.prevTransitionHash.Some? then tr.prevTransitionHash.value
                        else if latest.Some? then latest.value.hash else "GENESIS";
            after.log == t.log + [Row(tr.messageId, tr.fromState, tr.toState, tr.sequenceNo, tr.actorId, tr.sealedAt, tr.reason, prev,
                                      d.transition(HashInput(tr.messageId, tr.fromState, tr.toState, tr.sequenceNo, tr.actorId, prev,
                                                             tr.at)), tr.at)]
  {
  }

  /** A message's transitions are its rows, each as often as it was logged, in the order of their numbers. */
  lemma TransitionsExactly(t: Tables, id: string)
    ensures var rows := GetTransitions(t, id);
            && multiset(rows) == multiset(RowsOf(t.log, id))
            && (forall r :: r in rows <==> r in t.log && r.messageId == id)
            && forall i, j | 0 <= i <= j < |rows| :: rows[i].sequenceNo <= rows[j].sequenceNo
  {
    var rows := GetTransitions(t, id);
    SortSorts(BySequence(), RowsOf(t.log, id));
    forall r ensures r in rows <==> r in t.log && r.messageId == id {
      InRowsOf(t.log, id, r);
      assert r in rows <==> r in multiset(rows);
      assert r in RowsOf(t.log, id) <==> r in multiset(RowsOf(t.log, id));
    }
    forall i, j | 0 <= i <= j < |rows| ensures rows[i].sequenceNo <= rows[j].sequenceNo {
      SortedPairs(BySequence(), rows, i, j);
    }
  }

  // ----- The indexes -----

  /** The last row that archived the message has this sealed time, or this time if it has none. */
  ghost predicate LastArchived(rows: seq<Row>, at: int) {
    exists i :: 0 <= i < |rows| && rows[i].toState == MessageState.Archived &&
      at == (if rows[i].sealedAt.Some? then rows[i].sealedAt.value else rows[i].at) &&
      forall j | i < j < |rows| :: rows[j].toState != MessageState.Archived
  }

  lemma {:induction false} ArchivedAtIsLast(rows: seq<Row>, at: int)
    ensures ArchivedAt(rows) == Some(at) <==> LastArchived(rows, at)
    ensures ArchivedAt(rows).None? <==> forall i | 0 <= i < |rows| :: rows[i].toState != MessageState.Archived
  {
    if rows != [] {
      var n := |rows| - 1;
      ArchivedAtIsLast(rows[..n], at);
      if rows[n].toState != MessageState.Archived {
        if LastArchived(rows, at) {
          var i :| 0 <= i < |rows| && rows[i].toState == MessageState.Archived &&
                   at == (if rows[i].sealedAt.Some? then rows[i].sealedAt.value else rows[i].at) &&
                   forall j | i < j < |rows| :: rows[j].toState != MessageState.Archived;
          assert rows[..n][i] == rows[i];
        }
        if LastArchived(rows[..n], at) {
          var i :| 0 <= i < n && rows[..n][i].toState == MessageState.Archived &&
                   at == (if rows[..n][i].sealedAt.Some? then rows[..n][i].sealedAt.value else rows[..n][i].at) &&
                   forall j | i < j < n :: rows[..n][j].toState != MessageState.Archived;
          forall j | i < j < |rows| ensures rows[j].toState != MessageState.Archived { assert j < n ==> rows[j] == rows[..n][j]; }
          assert rows[i] == rows[..n][i];
        }
        forall i | 0 <= i < n ensures rows[i] == rows[..n][i] { }
      }
    }
  }

  /** Every column of an edict's index row: the fields of its payload, with what stands in for an absent one, and the time
      of the last row that archived it. */
  ghost predicate EdictColumns(row: EdictRow, m: Message, rows: seq<Row>) {
    var p := m.payload;
    && p.lawType == Some(row.lawType)
    && row.version == (if p.version.Some? then p.version.value else "1.0.0")
    && row.content == (if p.content.Some? then p.content.value else "{}")
    && row.precedence == (if p.precedence.Some? then p.precedence.value else 0)
    && row.effectiveDate == (if p.effectiveDate.Some? then p.effectiveDate.value else m.submittedAt)
    && row.supersededEdictId == (if p.supersededEdictId.Some? && p.supersededEdictId.value != "" then p.supersededEdictId else None)
    && LastArchived(rows, row.sealedAt)
  }

  ghost predicate TypeColumns(row: TypeRow, m: Message, rows: seq<Row>) {
    var p := m.payload;
    && p.targetGenre == Some(row.targetGenre)
    && row.version == (if p.version.Some? then p.version.value else "1.0.0")
    && row.schema == (if p.schema.Some? then p.schema.value else "{}")
    && row.supersededBy == (if p.supersededBy.Some? && p.supersededBy.value != "" then p.supersededBy else None)
    && LastArchived(rows, row.sealedAt)
  }

  ghost predicate EverArchived(rows: seq<Row>) {
    exists i :: 0 <= i < |rows| && rows[i].toState == MessageState.Archived
  }

  /** The edicts and the type definitions that were ever archived and say what they are about are indexed, and nothing else;
      and so are their columns. */
  lemma IndexedExactly(d: Digests, t: Tables, id: string)
    requires Consistent(d, t)
    ensures id in t.edicts <==> id in t.messages && t.messages[id].body.genre == "edict" &&
                                t.messages[id].body.payload.lawType.Some? && EverArchived(RowsOf(t.log, id))
    ensures id in t.edicts ==> EdictColumns(t.edicts[id], t.messages[id].body, RowsOf(t.log, id))
    ensures id in t.types <==> id in t.messages && t.messages[id].body.genre == "ti_definition" &&
                               t.messages[id].body.payload.targetGenre.Some? && EverArchived(RowsOf(t.log, id))
    ensures id in t.types ==> TypeColumns(t.types[id], t.messages[id].body, RowsOf(t.log, id))
  {
    IndexAgreesWithLog(d, t, id);
    var rows := RowsOf(t.log, id);
    ArchivedAtIsLast(rows, ArchivedAt(rows).GetOr(0));
  }

  // ----- The version 3 backfill -----

  /** The latest time at which a row archived the message. */
  ghost predicate LatestArchived(rows: seq<Row>, at: int) {
    && (exists r | r in rows :: r.toState == MessageState.Archived && at == (if r.sealedAt.Some? then r.sealedAt.value else r.at))
    && forall r | r in rows && r.toState == MessageState.Archived :: (if r.sealedAt.Some? then r.sealedAt.value else r.at) <= at
  }

  lemma {:induction false} MaxIsLatest(rows: seq<Row>)
    ensures MaxArchivedAt(rows).Some? ==> LatestArchived(rows, MaxArchivedAt(rows).value)
    ensures MaxArchivedAt(rows).None? <==> forall r | r in rows :: r.toState != MessageState.Archived
  {
    if rows != [] {
      var n := |rows| - 1;
      MaxIsLatest(rows[..n]);
      assert rows == rows[..n] + [rows[n]];
      assert rows[n] in rows;
    }
  }

  lemma OneLatest(rows: seq<Row>, a: int, b: int)
    requires LatestArchived(rows, a) && LatestArchived(rows, b)
    ensures a == b
  {
  }

  /** When the message counts as archived after the backfill: as before, or from the latest row that archived it. */
  ghost predicate FilledAt(before: MessageRow, rows: seq<Row>, archivedAt: Option<int>) {
    if before.archivedAt.Some? then archivedAt == before.archivedAt
    else if archivedAt.Some? then LatestArchived(rows, archivedAt.value)
    else forall r | r in rows :: r.toState != MessageState.Archived
  }

  lemma FilledExactly(t: Tables, id: string, archivedAt: Option<int>)
    requires id in t.messages
    ensures BackfilledMessage(t.messages[id], RowsOf(t.log, id)) == t.messages[id].(archivedAt := archivedAt) <==>
            FilledAt(t.messages[id], RowsOf(t.log, id), archivedAt)
  {
    var rows := RowsOf(t.log, id);
    MaxIsLatest(rows);
    var max := MaxArchivedAt(rows);
    if max.Some? && archivedAt.Some? && LatestArchived(rows, archivedAt.value) { OneLatest(rows, max.value, archivedAt.value); }
  }

  /** Every column that the backfill writes for an edict; unlike archiving it keeps an empty reference. */
  predicate FilledEdict(row: EdictRow, m: Message, sealedAt: int) {
    var p := m.payload;
    && p.lawType == Some(row.lawType)
    && row.version == (if p.version.Some? then p.version.value else "1.0.0")
    && row.content == (if p.content.Some? then p.content.value else "{}")
    && row.precedence == (if p.precedence.Some? then p.precedence.value else 0)
    && row.effectiveDate == (if p.effectiveDate.Some? then p.effectiveDate.value else m.submittedAt)
    && row.supersededEdictId == p.supersededEdictId && row.sealedAt == sealedAt
  }

  predicate FilledType(row: TypeRow, m: Message, sealedAt: int) {
    var p := m.payload;
    && p.targetGenre == Some(row.targetGenre)
    && row.version == (if p.version.Some? then p.version.value else "1.0.0")
    && row.schema == (if p.schema.Some? then p.schema.value else "{}")
    && row.supersededBy == p.supersededBy && row.sealedAt == sealedAt
  }

  /** An archived edict or type definition that does not say what it is about. */
  predicate SaysNothing(row: MessageRow) {
    row.archivedAt.Some? &&
    ((row.body.genre == "edict" && row.body.payload.lawType.None?) ||
     (row.body.genre == "ti_definition" && row.body.payload.targetGenre.None?))
  }

  /** On any tables: the backfill dates the archived messages that have no date, and writes the index row of every archived
      edict and type definition; it fails exactly if one of them does not say what it is about. */
  lemma BackfillExactly(t: Tables, id: string)
    requires Backfill(t).Some?
    ensures var after := Backfill(t).value;
            && after.messages.Keys == t.messages.Keys && after.log == t.log && after.seals == t.seals && after.approvals == t.approvals
            && (id in t.messages ==>
                  && FilledAt(t.messages[id], RowsOf(t.log, id), after.messages[id].archivedAt)
                  && after.messages[id] == t.messages[id].(archivedAt := after.messages[id].archivedAt)
                  && !SaysNothing(after.messages[id]))
            && (if id in t.messages && t.messages[id].body.genre == "edict" && after.messages[id].archivedAt.Some?
                then id in after.edicts && FilledEdict(after.edicts[id], t.messages[id].body, after.messages[id].archivedAt.value)
                else (id in after.edicts <==> id in t.edicts) && (id in t.edicts ==> after.edicts[id] == t.edicts[id]))
            && (if id in t.messages && t.messages[id].body.genre == "ti_definition" && after.messages[id].archivedAt.Some?
                then id in after.types && FilledType(after.types[id], t.messages[id].body, after.messages[id].archivedAt.value)
                else (id in after.types <==> id in t.types) && (id in t.types ==> after.types[id] == t.types[id]))
  {
    var after := Backfill(t).value;
    if id in t.messages {
      FilledExactly(t, id, after.messages[id].archivedAt);
      assert !Nameless(after.messages[id]);
    }
  }

  lemma BackfillFailsExactly(t: Tables)
    ensures Backfill(t).None? <==>
            exists id | id in t.messages :: SaysNothing(BackfilledMessages(t)[id])
  {
  }

  // ----- Leaves -----

  /** Archived, and a constitutional message or an edict where the scope asks for one. */
  predicate Counts(scope: Scope, row: MessageRow) {
    && row.archivedAt.Some?
    && (scope == Constitutional ==> row.body.genre == "ti_definition" || row.body.constitutional)
    && (scope == Legislative ==> row.body.genre == "edict")
  }

  /** Earlier archived first, and of those archived at once the smaller id. */
  predicate Earlier(a: MessageRow, b: MessageRow) {
    a.archivedAt.Some? && b.archivedAt.Some? &&
    (a.archivedAt.value < b.archivedAt.value || (a.archivedAt == b.archivedAt && TextLeq(a.body.id, b.body.id)))
  }

  lemma CountsIsScope(d: Digests, t: Tables, id: string, scope: Scope)
    requires Consistent(d, t) && id in t.messages
    ensures InScope(scope, t.messages[id]) <==> Counts(scope, t.messages[id])
  {
    assert MessageConsistent(d, t.messages[id], id, RowsOf(t.log, id));
  }

  function IdsOf(leaves: seq<Leaf>): (ids: seq<string>)
    ensures |ids| == |leaves| && forall i | 0 <= i < |ids| :: ids[i] == leaves[i].id
  {
    seq(|leaves|, i requires 0 <= i < |leaves| => leaves[i].id)
  }

  /** The ids of the messages that count, each once, in the order they were archived. */
  ghost predicate InOrder(t: Tables, scope: Scope, ids: seq<string>) {
    && (forall id :: id in ids <==> id in t.messages && Counts(scope, t.messages[id]))
    && (forall i, j | 0 <= i < j < |ids| :: ids[i] != ids[j] && ids[i] in t.messages && ids[j] in t.messages &&
                                             Earlier(t.messages[ids[i]], t.messages[ids[j]]))
  }

  /** The leaves of a root are the payload digests of the messages that count, each once, in the order they were archived;
      the scope of everything adds the node's own. */
  lemma LeavesExactly(d: Digests, t: Tables, scope: Scope) returns (ids: seq<string>)
    requires Consistent(d, t)
    ensures InOrder(t, scope, ids)
    ensures |MerkleLeaves(t, scope)| == |ids| + (if scope == All then |t.localLeaves| else 0)
    ensures forall i | 0 <= i < |ids| :: ids[i] in t.messages && MerkleLeaves(t, scope)[i] == d.content(t.messages[ids[i]].body.payload)
    ensures scope == All ==> MerkleLeaves(t, scope)[|ids|..] == t.localLeaves
  {
    var leaves := MessageLeaves(t, scope);
    ids := IdsOf(leaves);
    LeavesInOrder(d, t, scope, leaves, ids);
    forall i | 0 <= i < |ids|
      ensures ids[i] in t.messages && HashesOf(leaves)[i] == d.content(t.messages[ids[i]].body.payload)
    {
      LeafIs(d, t, scope, leaves[i]);
    }
  }

  lemma LeavesInOrder(d: Digests, t: Tables, scope: Scope, leaves: seq<Leaf>, ids: seq<string>)
    requires Consistent(d, t) && leaves == MessageLeaves(t, scope) && ids == IdsOf(leaves)
    ensures InOrder(t, scope, ids)
  {
    forall id ensures id in ids <==> id in t.messages && Counts(scope, t.messages[id]) {
      LeafOfEach(d, t, scope, id, ids, leaves);
    }
    LeavesSorted(t, scope, leaves);
    forall i, j | 0 <= i < j < |ids|
      ensures ids[i] != ids[j] && ids[i] in t.messages && ids[j] in t.messages && Earlier(t.messages[ids[i]], t.messages[ids[j]])
    {
      LeafBefore(d, t, scope, leaves[i], leaves[j]);
    }
  }

  lemma LeafBefore(d: Digests, t: Tables, scope: Scope, a: Leaf, b: Leaf)
    requires Consistent(d, t) && a in MessageLeaves(t, scope) && b in MessageLeaves(t, scope) && LeafLeq(a, b) && a != b
    ensures a.id != b.id && a.id in t.messages && b.id in t.messages && Earlier(t.messages[a.id], t.messages[b.id])
  {
    LeafIs(d, t, scope, a);
    LeafIs(d, t, scope, b);
  }

  lemma LeavesSorted(t: Tables, scope: Scope, leaves: seq<Leaf>)
    requires leaves == MessageLeaves(t, scope)
    ensures forall i, j | 0 <= i < j < |leaves| :: LeafLeq(leaves[i], leaves[j]) && leaves[i] != leaves[j]
  {
    LeafOrder();
  }

  lemma LeafIs(d: Digests, t: Tables, scope: Scope, leaf: Leaf)
    requires Consistent(d, t) && leaf in MessageLeaves(t, scope)
    ensures leaf.id in t.messages && Counts(scope, t.messages[leaf.id]) && t.messages[leaf.id].body.id == leaf.id
    ensures leaf == Leaf(t.messages[leaf.id].archivedAt.value, leaf.id, d.content(t.messages[leaf.id].body.payload))
  {
    LeafOrder();
    assert leaf in LeafSet(t, scope);
    assert MessageConsistent(d, t.messages[leaf.id], leaf.id, RowsOf(t.log, leaf.id));
  }

  lemma LeafOfEach(d: Digests, t: Tables, scope: Scope, id: string, ids: seq<string>, leaves: seq<Leaf>)
    requires Consistent(d, t) && leaves == MessageLeaves(t, scope) && ids == IdsOf(leaves)
    ensures id in ids <==> id in t.messages && Counts(scope, t.messages[id])
  {
    if id in ids {
      var i :| 0 <= i < |ids| && ids[i] == id;
      LeafIs(d, t, scope, leaves[i]);
    }
    if id in t.messages && Counts(scope, t.messages[id]) {
      var i := LeafOfMessage(d, t, scope, id);
      assert ids[i] == id;
    }
  }

  lemma LeafOfMessage(d: Digests, t: Tables, scope: Scope, id: string) returns (i: nat)
    requires Consistent(d, t) && id in t.messages && Counts(scope, t.messages[id])
    ensures i < |MessageLeaves(t, scope)| && MessageLeaves(t, scope)[i].id == id
  {
    LeafOrder();
    CountsIsScope(d, t, id, scope);
    var leaf := Leaf(t.messages[id].archivedAt.value, id, t.messages[id].contentHash);
    assert leaf in LeafSet(t, scope);
    i :| i < |MessageLeaves(t, scope)| && MessageLeaves(t, scope)[i] == leaf;
  }
}
