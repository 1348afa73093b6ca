/**
 * The archive's tables: messages, the append-only transition log, seals, office approvals and the indexes of edicts
 * and type definitions.
 * `Tables` is their state as a value; the class at the end updates them in place.
 */
module Archive {
  import opened Wrappers
  import opened Hashing
  import opened Kinds
  import opened SealChain
  import opened Sorting
  import opened Ordering
  import opened MerkleTree
  import opened MerkleDag

  // ----- Rows -----

  /** The fields a transition's hash covers. */
  datatype HashInput = HashInput(
    messageId: string, fromState: MessageState, toState: MessageState, sequenceNo: int,
    actorId: Option<string>, prevTransitionHash: string, at: int)

  datatype Row = Row(
    messageId: string, fromState: MessageState, toState: MessageState, sequenceNo: int,
    actorId: Option<string>, sealedAt: Option<int>, reason: Option<string>,
    prevHash: string, hash: string, at: int)

  datatype MessageRow = MessageRow(
    body: Message, contentHash: string, constitutional: bool, supersededBy: Option<string>,
    receivedAt: int, archivedAt: Option<int>)

  datatype EdictRow = EdictRow(
    lawType: string, version: string, content: string, precedence: int, effectiveDate: int,
    supersededEdictId: Option<string>, sealedAt: int)

  /** A row of the index of type definitions. */
  datatype TypeRow = TypeRow(
    targetGenre: string, version: string, schema: string, supersededBy: Option<string>, sealedAt: int)

  /** `log` is the transitions table in order of its autoincremented id, which is the index plus one.
      `localLeaves` are the digests of this node's own read receipts, alerts and checkpoints. */
  datatype Tables = Tables(
    messages: map<string, MessageRow>,
    log: seq<Row>,
    seals: seq<SealRecord>,
    edicts: map<string, EdictRow>,
    types: map<string, TypeRow>,
    approvals: set<(string, string)>,
    localLeaves: seq<string>)

  /** SHA-256 of a transition's JSON, of a payload's JSON, and of text. */
  datatype Digests = Digests(
    transition: HashInput -> string,
    content: Payload -> string,
    text: string -> string)

  datatype StoreError =
    | InvalidTransition(current: MessageState, toState: MessageState)
    | DuplicateSequence
    | DuplicateMessage
    | UnknownReference
    | DuplicateSeal
    | UnknownMessage

  const EMPTY_TABLES: Tables := Tables(map[], [], [], map[], map[], {}, [])

  // ----- Reading the log -----

  function RowsOf(log: seq<Row>, id: string): (rows: seq<Row>)
    ensures forall i | 0 <= i < |rows| :: rows[i].messageId == id && rows[i] in log
  {
    if log == [] then []
    else
      var n := |log| - 1;
      RowsOf(log[..n], id) + (if log[n].messageId == id then [log[n]] else [])
  }

  /** ORDER BY sequence_no DESC LIMIT 1. */
  function LatestRow(rows: seq<Row>): (latest: Option<Row>)
    ensures latest.None? <==> rows == []
    ensures latest.Some? ==> latest.value in rows
  {
    if rows == [] then None
    else
      var n := |rows| - 1;
      var before := LatestRow(rows[..n]);
      if before.Some? && before.value.sequenceNo >= rows[n].sequenceNo then before else Some(rows[n])
  }

  function SnapshotState(t: Tables, id: string): Option<MessageState> {
    match LatestRow(RowsOf(t.log, id))
    case Some(row) => Some(row.toState)
    case None => None
  }

  /** The stored state, pending before the first transition. */
  function CurrentState(t: Tables, id: string): MessageState {
    SnapshotState(t, id).GetOr(Pending)
  }

  function BySequence(): (Row, Row) -> int {
    (a: Row, b: Row) => a.sequenceNo - b.sequenceNo
  }

  function GetTransitions(t: Tables, id: string): seq<Row> {
    StableSort(BySequence(), RowsOf(t.log, id))
  }

  function AsTransition(row: Row): Transition {
    Transition(row.messageId, row.fromState, row.toState, row.sequenceNo, row.actorId, row.sealedAt, row.reason,
               Some(row.prevHash), row.at)
  }

  /** The rows after the cursor in log order; a negative limit is no limit. */
  function GetSyncRange(t: Tables, cursor: int, limit: int): seq<Row> {
    var from := if cursor < 0 then 0 else if cursor > |t.log| then |t.log| else cursor;
    var to := if limit < 0 || from + limit > |t.log| then |t.log| else from + limit;
    t.log[from..to]
  }

  /** The sealed time of the last transition to archived. */
  function ArchivedAt(rows: seq<Row>): Option<int> {
    if rows == [] then None
    else
      var last := rows[|rows| - 1];
      if last.toState == Archived then Some(last.sealedAt.GetOr(last.at)) else ArchivedAt(rows[..|rows| - 1])
  }

  // ----- Writing -----

  predicate IsConstitutional(m: Message) {
    m.genre == "ti_definition" || m.constitutional
  }

  function SupersededBy(m: Message): Option<string> {
    m.payload.supersededBy.OrElse(m.payload.supersededEdictId)
  }

  /** The foreign key: the message named as superseded or superseding is stored, or is this one. */
  predicate ReferenceIn(ids: set<string>, m: Message) {
    SupersededBy(m).Some? ==> SupersededBy(m).value == m.id || SupersededBy(m).value in ids
  }

  /** The table takes the message in. */
  predicate Storable(t: Tables, m: Message) {
    m.id !in t.messages && ReferenceIn(t.messages.Keys, m)
  }

  function AppendMessage(d: Digests, t: Tables, m: Message, receivedAt: int): Result<Tables, StoreError> {
    if m.id in t.messages then Failure(DuplicateMessage)
    else if !ReferenceIn(t.messages.Keys, m) then Failure(UnknownReference)
    else Success(t.(messages := t.messages[m.id :=
                      MessageRow(m, d.content(m.payload), IsConstitutional(m), SupersededBy(m), receivedAt, None)]))
  }

  function InputOf(row: Row): HashInput {
    HashInput(row.messageId, row.fromState, row.toState, row.sequenceNo, row.actorId, row.prevHash, row.at)
  }

  function PreviousHash(t: Tables, tr: Transition): string {
    match LatestRow(RowsOf(t.log, tr.messageId))
    case Some(row) => tr.prevTransitionHash.GetOr(row.hash)
    case None => tr.prevTransitionHash.GetOr("GENESIS")
  }

  function RowFor(d: Digests, t: Tables, tr: Transition): Row {
    var prev := PreviousHash(t, tr);
    Row(tr.messageId, tr.fromState, tr.toState, tr.sequenceNo, tr.actorId, tr.sealedAt, tr.reason, prev,
        d.transition(HashInput(tr.messageId, tr.fromState, tr.toState, tr.sequenceNo, tr.actorId, prev, tr.at)), tr.at)
  }

  predicate SequenceTaken(log: seq<Row>, id: string, sequenceNo: int) {
    exists i | 0 <= i < |log| :: log[i].messageId == id && log[i].sequenceNo == sequenceNo
  }

  /** The store's own guard: an edge of the table, or any edge that starts at the stored state. */
  predicate GuardAccepts(current: MessageState, tr: Transition) {
    CanTransition(current, tr.toState) || current == tr.fromState
  }

  function AppendTransition(d: Digests, t: Tables, tr: Transition): Result<Tables, StoreError> {
    var current := CurrentState(t, tr.messageId);
    if !GuardAccepts(current, tr) then Failure(InvalidTransition(current, tr.toState))
    else if SequenceTaken(t.log, tr.messageId, tr.sequenceNo) then Failure(DuplicateSequence)
    else if tr.messageId !in t.messages then Failure(UnknownMessage)
    else
      var logged := t.(log := t.log + [RowFor(d, t, tr)]);
      Success(if tr.toState == Archived then IndexArchived(logged, tr.messageId, tr.sealedAt.GetOr(tr.at)) else logged)
  }

  /** Only an edict whose law type is text gets a row in the index. */
  predicate Indexable(m: Message) {
    m.genre == "edict" && m.payload.lawType.Some?
  }

  function EdictRowOf(m: Message, sealedAt: int): EdictRow
    requires Indexable(m)
  {
    var p := m.payload;
    EdictRow(p.lawType.value, p.version.GetOr("1.0.0"), p.content.GetOr("{}"), p.precedence.GetOr(0),
             p.effectiveDate.GetOr(m.submittedAt), if p.supersededEdictId == Some("") then None else p.supersededEdictId,
             sealedAt)
  }

  /** Only a type definition whose target genre is text gets a row in the other index. */
  predicate TypeIndexable(m: Message) {
    m.genre == "ti_definition" && m.payload.targetGenre.Some?
  }

  function TypeRowOf(m: Message, sealedAt: int): TypeRow
    requires TypeIndexable(m)
  {
    var p := m.payload;
    TypeRow(p.targetGenre.value, p.version.GetOr("1.0.0"), p.schema.GetOr("{}"),
            if p.supersededBy == Some("") then None else p.supersededBy, sealedAt)
  }

  function IndexArchived(t: Tables, id: string, sealedAt: int): Tables
    requires id in t.messages
  {
    var body := t.messages[id].body;
    t.(messages := t.messages[id := Marked(t.messages[id], sealedAt)],
       edicts := if Indexable(body) then t.edicts[id := EdictRowOf(body, sealedAt)] else t.edicts,
       types := if TypeIndexable(body) then t.types[id := TypeRowOf(body, sealedAt)] else t.types)
  }

  function Marked(row: MessageRow, sealedAt: int): MessageRow {
    row.(archivedAt := Some(sealedAt), constitutional := IsConstitutional(row.body), supersededBy := SupersededBy(row.body))
  }

  function AppendSeal(t: Tables, seal: SealRecord): Result<Tables, StoreError> {
    if exists i | 0 <= i < |t.seals| :: t.seals[i].sealId == seal.sealId then Failure(DuplicateSeal)
    else if seal.messageId !in t.messages then Failure(UnknownMessage)
    else Success(t.(seals := t.seals + [seal]))
  }

  function SealsOf(seals: seq<SealRecord>, id: string): seq<SealRecord> {
    if seals == [] then []
    else
      var n := |seals| - 1;
      SealsOf(seals[..n], id) + (if seals[n].messageId == id then [seals[n]] else [])
  }

  function AddOfficeApproval(t: Tables, id: string, office: string): Result<Tables, StoreError> {
    if id !in t.messages then Failure(UnknownMessage) else Success(t.(approvals := t.approvals + {(id, office)}))
  }

  function OfficeApprovals(t: Tables, id: string): set<string> {
    set p | p in t.approvals && p.0 == id :: p.1
  }

  // ----- What every write keeps -----

  ghost predicate MessagesConsistent(d: Digests, t: Tables) {
    forall id | id in t.messages :: MessageConsistent(d, t.messages[id], id, RowsOf(t.log, id))
  }

  ghost predicate MessageConsistent(d: Digests, row: MessageRow, id: string, rows: seq<Row>) {
    && row.body.id == id
    && row.contentHash == d.content(row.body.payload)
    && row.constitutional == IsConstitutional(row.body)
    && row.supersededBy == SupersededBy(row.body)
    && row.archivedAt == ArchivedAt(rows)
  }

  /** One index row per archived edict, sealed when it was last archived, and none besides. */
  ghost predicate IndexConsistent(t: Tables) {
    && (forall id :: id in t.edicts <==> id in t.messages && InIndex(t.messages[id]))
    && (forall id | id in t.edicts :: id in t.messages && InIndex(t.messages[id]) &&
          t.edicts[id] == EdictRowOf(t.messages[id].body, t.messages[id].archivedAt.value))
  }

  predicate InIndex(row: MessageRow) {
    Indexable(row.body) && row.archivedAt.Some?
  }

  predicate InTypes(row: MessageRow) {
    TypeIndexable(row.body) && row.archivedAt.Some?
  }

  /** The same for type definitions. */
  ghost predicate TypesConsistent(t: Tables) {
    && (forall id :: id in t.types <==> id in t.messages && InTypes(t.messages[id]))
    && (forall id | id in t.types :: id in t.messages && InTypes(t.messages[id]) &&
          t.types[id] == TypeRowOf(t.messages[id].body, t.messages[id].archivedAt.value))
  }

  ghost predicate LogConsistent(t: Tables) {
    && (forall i | 0 <= i < |t.log| :: t.log[i].messageId in t.messages)
    && (forall i, j | 0 <= i < j < |t.log| && t.log[i].messageId == t.log[j].messageId ::
          t.log[i].sequenceNo != t.log[j].sequenceNo)
  }

  ghost predicate Consistent(d: Digests, t: Tables) {
    MessagesConsistent(d, t) && IndexConsistent(t) && TypesConsistent(t) && LogConsistent(t)
  }

  lemma RowsOfAppend(log: seq<Row>, row: Row, id: string)
    ensures RowsOf(log + [row], id) == RowsOf(log, id) + (if row.messageId == id then [row] else [])
  {
    assert (log + [row])[..|log|] == log;
  }

  lemma {:induction false} NoRowsNoMessage(log: seq<Row>, id: string)
    requires forall i | 0 <= i < |log| :: log[i].messageId != id
    ensures RowsOf(log, id) == []
  {
    if log != [] { NoRowsNoMessage(log[..|log| - 1], id); }
  }

  lemma NewMessageKeepsMessages(d: Digests, t: Tables, m: Message, receivedAt: int)
    requires MessagesConsistent(d, t) && LogConsistent(t) && AppendMessage(d, t, m, receivedAt).Success?
    ensures MessagesConsistent(d, AppendMessage(d, t, m, receivedAt).value)
  {
    if m.id !in t.messages { NoRowsNoMessage(t.log, m.id); }
  }

  lemma NewMessageKeepsIndexes(d: Digests, t: Tables, m: Message, receivedAt: int)
    requires IndexConsistent(t) && TypesConsistent(t) && AppendMessage(d, t, m, receivedAt).Success?
    ensures IndexConsistent(AppendMessage(d, t, m, receivedAt).value)
    ensures TypesConsistent(AppendMessage(d, t, m, receivedAt).value)
  {
    var after := AppendMessage(d, t, m, receivedAt).value;
    forall id ensures id in t.edicts <==> id in after.messages && InIndex(after.messages[id]) {
      assert id in t.edicts <==> id in t.messages && InIndex(t.messages[id]);
    }
    forall id ensures id in t.types <==> id in after.messages && InTypes(after.messages[id]) {
      assert id in t.types <==> id in t.messages && InTypes(t.messages[id]);
    }
  }

  lemma AppendMessageKeeps(d: Digests, t: Tables, m: Message, receivedAt: int)
    requires Consistent(d, t) && AppendMessage(d, t, m, receivedAt).Success?
    ensures Consistent(d, AppendMessage(d, t, m, receivedAt).value)
  {
    NewMessageKeepsMessages(d, t, m, receivedAt);
    NewMessageKeepsIndexes(d, t, m, receivedAt);
  }

  lemma ArchivedAtAppend(rows: seq<Row>, row: Row)
    ensures ArchivedAt(rows + [row]) ==
            if row.toState == Archived then Some(row.sealedAt.GetOr(row.at)) else ArchivedAt(rows)
  {
    assert (rows + [row])[..|rows|] == rows;
  }

  /** What an accepted transition changes: one row more, and the message's columns when it is archived. */
  lemma AppendShape(d: Digests, t: Tables, tr: Transition)
    requires AppendTransition(d, t, tr).Success?
    ensures var after := AppendTransition(d, t, tr).value;
            after.log == t.log + [RowFor(d, t, tr)] && after.seals == t.seals && after.approvals == t.approvals &&
            after.localLeaves == t.localLeaves && tr.messageId in t.messages && after.messages ==
            (if tr.toState == Archived
             then t.messages[tr.messageId := Marked(t.messages[tr.messageId], tr.sealedAt.GetOr(tr.at))]
             else t.messages)
  {
  }

  lemma NextRowKeepsMessage(d: Digests, m: MessageRow, id: string, rows: seq<Row>, row: Row)
    requires MessageConsistent(d, m, id, rows)
    ensures MessageConsistent(d, if row.toState == Archived then Marked(m, row.sealedAt.GetOr(row.at)) else m, id, rows + [row])
  {
    ArchivedAtAppend(rows, row);
  }

  lemma NextRowKeepsMessages(d: Digests, t: Tables, row: Row, after: Tables)
    requires MessagesConsistent(d, t) && row.messageId in t.messages
    requires after.log == t.log + [row]
    requires after.messages ==
             if row.toState == Archived
             then t.messages[row.messageId := Marked(t.messages[row.messageId], row.sealedAt.GetOr(row.at))]
             else t.messages
    ensures MessagesConsistent(d, after)
  {
    forall id | id in after.messages ensures MessageConsistent(d, after.messages[id], id, RowsOf(after.log, id)) {
      RowsOfAppend(t.log, row, id);
      if id == row.messageId {
        NextRowKeepsMessage(d, t.messages[id], id, RowsOf(t.log, id), row);
      } else {
        assert RowsOf(after.log, id) == RowsOf(t.log, id);
      }
    }
  }

  lemma AppendKeepsMessages(d: Digests, t: Tables, tr: Transition)
    requires MessagesConsistent(d, t) && AppendTransition(d, t, tr).Success?
    ensures MessagesConsistent(d, AppendTransition(d, t, tr).value)
  {
    AppendShape(d, t, tr);
    NextRowKeepsMessages(d, t, RowFor(d, t, tr), AppendTransition(d, t, tr).value);
  }

  lemma IndexArchivedKeeps(t: Tables, id: string, sealedAt: int)
    requires IndexConsistent(t) && id in t.messages
    ensures IndexConsistent(IndexArchived(t, id, sealedAt))
  {
    var after := IndexArchived(t, id, sealedAt);
    forall x ensures x in after.edicts <==> x in after.messages && InIndex(after.messages[x]) {
      assert x in t.edicts <==> x in t.messages && InIndex(t.messages[x]);
    }
    forall x | x in after.edicts
      ensures after.edicts[x] == EdictRowOf(after.messages[x].body, after.messages[x].archivedAt.value)
    {
      if x != id { assert x in t.edicts; }
    }
  }

  lemma TypeArchivedKeeps(t: Tables, id: string, sealedAt: int)
    requires TypesConsistent(t) && id in t.messages
    ensures TypesConsistent(IndexArchived(t, id, sealedAt))
  {
    var after := IndexArchived(t, id, sealedAt);
    forall x ensures x in after.types <==> x in after.messages && InTypes(after.messages[x]) {
      assert x in t.types <==> x in t.messages && InTypes(t.messages[x]);
    }
    forall x | x in after.types
      ensures after.types[x] == TypeRowOf(after.messages[x].body, after.messages[x].archivedAt.value)
    {
      if x != id { assert x in t.types; }
    }
  }

  lemma AppendKeepsLog(d: Digests, t: Tables, tr: Transition)
    requires LogConsistent(t) && AppendTransition(d, t, tr).Success?
    ensures LogConsistent(AppendTransition(d, t, tr).value)
  {
    var after := AppendTransition(d, t, tr).value;
    assert after.log == t.log + [RowFor(d, t, tr)] && after.messages.Keys == t.messages.Keys;
  }

  /** Whatever transition the store accepts, from whomever, index and message columns keep agreeing with the log. */
  lemma AppendTransitionKeeps(d: Digests, t: Tables, tr: Transition)
    requires Consistent(d, t) && AppendTransition(d, t, tr).Success?
    ensures Consistent(d, AppendTransition(d, t, tr).value)
  {
    AppendKeepsMessages(d, t, tr);
    AppendKeepsLog(d, t, tr);
    var logged := t.(log := t.log + [RowFor(d, t, tr)]);
    assert IndexConsistent(logged) && TypesConsistent(logged);
    if tr.toState == Archived {
      IndexArchivedKeeps(logged, tr.messageId, tr.sealedAt.GetOr(tr.at));
      TypeArchivedKeeps(logged, tr.messageId, tr.sealedAt.GetOr(tr.at));
    }
  }

  /** In a consistent archive the indexes say of every message exactly what its log says. */
  lemma IndexAgreesWithLog(d: Digests, t: Tables, id: string)
    requires Consistent(d, t)
    ensures id in t.edicts <==>
            id in t.messages && Indexable(t.messages[id].body) && ArchivedAt(RowsOf(t.log, id)).Some?
    ensures id in t.edicts ==>
            t.edicts[id] == EdictRowOf(t.messages[id].body, ArchivedAt(RowsOf(t.log, id)).value)
    ensures id in t.types <==>
            id in t.messages && TypeIndexable(t.messages[id].body) && ArchivedAt(RowsOf(t.log, id)).Some?
    ensures id in t.types ==>
            t.types[id] == TypeRowOf(t.messages[id].body, ArchivedAt(RowsOf(t.log, id)).value)
  {
    assert id in t.messages ==> MessageConsistent(d, t.messages[id], id, RowsOf(t.log, id));
  }

  // ----- The version 3 backfill -----

  function MaxArchivedAt(rows: seq<Row>): Option<int> {
    if rows == [] then None
    else
      var last, before := rows[|rows| - 1], MaxArchivedAt(rows[..|rows| - 1]);
      if last.toState != Archived then before
      else
        var at := last.sealedAt.GetOr(last.at);
        if before.Some? && before.value >= at then before else Some(at)
  }

  function BackfilledMessage(row: MessageRow, rows: seq<Row>): MessageRow {
    if row.archivedAt.Some? then row else row.(archivedAt := MaxArchivedAt(rows))
  }

  function BackfilledMessages(t: Tables): map<string, MessageRow> {
    map id | id in t.messages :: BackfilledMessage(t.messages[id], RowsOf(t.log, id))
  }

  /** The row the backfill's SELECT makes: like `EdictRowOf`, but an empty superseded id stays as it is. */
  function BackfillRowOf(m: Message, sealedAt: int): EdictRow
    requires Indexable(m)
  {
    EdictRowOf(m, sealedAt).(supersededEdictId := m.payload.supersededEdictId)
  }

  function BackfilledRows(t: Tables): map<string, EdictRow> {
    map id | id in t.messages && InIndex(t.messages[id]) ::
      BackfillRowOf(t.messages[id].body, t.messages[id].archivedAt.value)
  }

  /** Like `TypeRowOf`, but an empty superseding id stays as it is. */
  function BackfillTypeOf(m: Message, sealedAt: int): TypeRow
    requires TypeIndexable(m)
  {
    TypeRowOf(m, sealedAt).(supersededBy := m.payload.supersededBy)
  }

  function BackfilledTypes(t: Tables): map<string, TypeRow> {
    map id | id in t.messages && InTypes(t.messages[id]) ::
      BackfillTypeOf(t.messages[id].body, t.messages[id].archivedAt.value)
  }

  /** An archived edict without a law type, or an archived type definition without a target genre. */
  predicate Nameless(row: MessageRow) {
    row.archivedAt.Some? &&
    ((row.body.genre == "edict" && row.body.payload.lawType.None?) ||
     (row.body.genre == "ti_definition" && row.body.payload.targetGenre.None?))
  }

  /** None stands for the NOT NULL failure of a nameless row. */
  function Backfill(t: Tables): Option<Tables> {
    var messages := BackfilledMessages(t);
    if exists id | id in messages :: Nameless(messages[id]) then None
    else
      var filled := t.(messages := messages);
      Some(filled.(edicts := t.edicts + BackfilledRows(filled), types := t.types + BackfilledTypes(filled)))
  }

  lemma {:induction false} NeverArchived(rows: seq<Row>)
    ensures ArchivedAt(rows).None? <==> MaxArchivedAt(rows).None?
  {
    if rows != [] { NeverArchived(rows[..|rows| - 1]); }
  }

  lemma BackfillLeavesMessages(d: Digests, t: Tables)
    requires Consistent(d, t)
    ensures BackfilledMessages(t) == t.messages
  {
    forall id | id in t.messages ensures BackfilledMessage(t.messages[id], RowsOf(t.log, id)) == t.messages[id] {
      assert MessageConsistent(d, t.messages[id], id, RowsOf(t.log, id));
      NeverArchived(RowsOf(t.log, id));
    }
  }

  ghost predicate NoEmptyEdictReference(t: Tables)
    requires IndexConsistent(t)
  {
    forall id | id in t.edicts :: t.messages[id].body.payload.supersededEdictId != Some("")
  }

  ghost predicate NoEmptyTypeReference(t: Tables)
    requires TypesConsistent(t)
  {
    forall id | id in t.types :: t.messages[id].body.payload.supersededBy != Some("")
  }

  ghost predicate AllNamed(t: Tables) {
    forall id | id in t.messages :: !Nameless(t.messages[id])
  }

  /** The backfill's rows are the index exactly when no indexed edict names an empty superseded id. */
  lemma BackfilledRowsAreIndex(t: Tables)
    requires IndexConsistent(t)
    ensures t.edicts + BackfilledRows(t) == t.edicts <==> NoEmptyEdictReference(t)
  {
    var rows := BackfilledRows(t);
    assert rows.Keys == t.edicts.Keys;
    forall id | id in t.edicts
      ensures rows[id] == t.edicts[id] <==> t.messages[id].body.payload.supersededEdictId != Some("")
    {
      assert t.edicts[id] == EdictRowOf(t.messages[id].body, t.messages[id].archivedAt.value);
    }
    if t.edicts + rows == t.edicts {
      forall id | id in t.edicts ensures rows[id] == t.edicts[id] { assert (t.edicts + rows)[id] == rows[id]; }
    }
  }

  lemma BackfilledTypesAreIndex(t: Tables)
    requires TypesConsistent(t)
    ensures t.types + BackfilledTypes(t) == t.types <==> NoEmptyTypeReference(t)
  {
    var rows := BackfilledTypes(t);
    assert rows.Keys == t.types.Keys;
    forall id | id in t.types
      ensures rows[id] == t.types[id] <==> t.messages[id].body.payload.supersededBy != Some("")
    {
      assert t.types[id] == TypeRowOf(t.messages[id].body, t.messages[id].archivedAt.value);
    }
    if t.types + rows == t.types {
      forall id | id in t.types ensures rows[id] == t.types[id] { assert (t.types + rows)[id] == rows[id]; }
    }
  }

  lemma BackfillOf(d: Digests, t: Tables)
    requires Consistent(d, t)
    ensures Backfill(t) ==
            if AllNamed(t) then Some(t.(edicts := t.edicts + BackfilledRows(t), types := t.types + BackfilledTypes(t))) else None
  {
    BackfillLeavesMessages(d, t);
    assert BackfilledMessages(t) == t.messages;
  }

  /** The backfill writes an archived message's index row as archiving it did. */
  predicate SameIndexRow(row: MessageRow) {
    row.archivedAt.Some? ==>
      && (row.body.genre == "edict" ==>
            row.body.payload.lawType.Some? && row.body.payload.supersededEdictId != Some(""))
      && (row.body.genre == "ti_definition" ==>
            row.body.payload.targetGenre.Some? && row.body.payload.supersededBy != Some(""))
  }

  ghost predicate AllSameIndexRow(t: Tables) {
    forall id | id in t.messages :: SameIndexRow(t.messages[id])
  }

  /** Running the backfill again changes nothing exactly when every archived edict has a law type and names no
      empty superseded id, and every archived type definition has a target genre and no empty superseding id. */
  lemma BackfillIdempotentExactly(d: Digests, t: Tables)
    requires Consistent(d, t)
    ensures Backfill(t) == Some(t) <==> AllSameIndexRow(t)
  {
    BackfillOf(d, t);
    SameIndexes(t, t.edicts + BackfilledRows(t), t.types + BackfilledTypes(t));
    BackfilledRowsAreIndex(t);
    BackfilledTypesAreIndex(t);
    IndexedRows(t);
  }

  lemma SameIndexes(t: Tables, edicts: map<string, EdictRow>, types: map<string, TypeRow>)
    ensures t.(edicts := edicts, types := types) == t <==> edicts == t.edicts && types == t.types
  {
  }

  lemma IndexedRows(t: Tables)
    requires IndexConsistent(t) && TypesConsistent(t)
    ensures AllSameIndexRow(t) <==> AllNamed(t) && NoEmptyEdictReference(t) && NoEmptyTypeReference(t)
  {
    if AllSameIndexRow(t) {
      forall id | id in t.messages ensures !Nameless(t.messages[id]) { assert SameIndexRow(t.messages[id]); }
      forall id | id in t.edicts ensures t.messages[id].body.payload.supersededEdictId != Some("") {
        assert SameIndexRow(t.messages[id]);
      }
      forall id | id in t.types ensures t.messages[id].body.payload.supersededBy != Some("") {
        assert SameIndexRow(t.messages[id]);
      }
    }
    if AllNamed(t) && NoEmptyEdictReference(t) && NoEmptyTypeReference(t) {
      forall id | id in t.messages ensures SameIndexRow(t.messages[id]) {
        assert !Nameless(t.messages[id]);
        assert id in t.edicts <==> InIndex(t.messages[id]);
        assert id in t.types <==> InTypes(t.messages[id]);
      }
    }
  }

  /** An edict that names the empty text as superseded is such a case, once it has been stored and archived: archiving
      it wrote no reference, and the backfill writes the empty one. */
  lemma BackfillRewritesEmptyReference(d: Digests, t: Tables, m: Message, tr: Transition, receivedAt: int)
    requires Consistent(d, t) && Storable(t, m) && Indexable(m) && m.payload.supersededEdictId == Some("")
    requires tr.messageId == m.id && tr.fromState == Pending && tr.toState == Archived && tr.sequenceNo == 1
    ensures AppendMessage(d, t, m, receivedAt).Success?
    ensures var stored := AppendMessage(d, t, m, receivedAt).value;
            AppendTransition(d, stored, tr).Success? &&
            var after := AppendTransition(d, stored, tr).value;
            Consistent(d, after) && m.id in after.edicts && after.edicts[m.id].supersededEdictId == None && Backfill(after) != Some(after)
  {
    AppendMessageKeeps(d, t, m, receivedAt);
    var stored := AppendMessage(d, t, m, receivedAt).value;
    NoRowsNoMessage(t.log, m.id);
    AppendTransitionKeeps(d, stored, tr);
    var after := AppendTransition(d, stored, tr).value;
    AppendShape(d, stored, tr);
    assert !SameIndexRow(after.messages[m.id]);
    BackfillIdempotentExactly(d, after);
  }

  /** Setting the archive time first and again while indexing comes to the same. */
  lemma IndexArchivedTwice(t: Tables, id: string, sealedAt: int)
    requires id in t.messages
    ensures IndexArchived(t.(messages := t.messages[id := t.messages[id].(archivedAt := Some(sealedAt))]), id, sealedAt)
            == IndexArchived(t, id, sealedAt)
  {
  }

  // ----- Roots and proofs -----

  datatype Scope = All | Constitutional | Legislative

  predicate InScope(scope: Scope, row: MessageRow) {
    && row.archivedAt.Some?
    && match scope {
         case All => true
         case Constitutional => row.constitutional
         case Legislative => row.body.genre == "edict"
       }
  }

  function MessageLeaves(t: Tables, scope: Scope): seq<Leaf> {
    LeafOrder();
    Ascending(LeafLeq, LeafSet(t, scope))
  }

  function LeafSet(t: Tables, scope: Scope): set<Leaf> {
    set id | id in t.messages && InScope(scope, t.messages[id]) ::
      Leaf(t.messages[id].archivedAt.value, id, t.messages[id].contentHash)
  }

  function HashesOf(leaves: seq<Leaf>): (hashes: seq<string>)
    ensures |hashes| == |leaves| && forall i | 0 <= i < |leaves| :: hashes[i] == leaves[i].hash
  {
    seq(|leaves|, i requires 0 <= i < |leaves| => leaves[i].hash)
  }

  function MerkleLeaves(t: Tables, scope: Scope): seq<string> {
    HashesOf(MessageLeaves(t, scope)) + (if scope == All then t.localLeaves else [])
  }

  function MerkleRootOf(d: Digests, t: Tables, scope: Scope): string {
    Root(DagScheme(d.text), MerkleLeaves(t, scope))
  }

  /** The proof the archive builds for a message, if it is archived. */
  ghost function MerkleProofOf(d: Digests, t: Tables, id: string): Option<Proof> {
    var rows := MessageLeaves(t, All);
    if exists i: nat :: i < |rows| && rows[i].id == id then
      var i: nat :| i < |rows| && rows[i].id == id;
      Some(BuiltProof(d.text, MerkleLeaves(t, All), i))
    else None
  }

  /** A proof exists exactly for archived messages; it verifies against the root and carries the content digest. */
  lemma ArchivedMessagesHaveProofs(d: Digests, t: Tables, id: string)
    ensures MerkleProofOf(d, t, id).Some? <==> id in t.messages && t.messages[id].archivedAt.Some?
    ensures MerkleProofOf(d, t, id).Some? ==>
              var proof := MerkleProofOf(d, t, id).value;
              Verifies(d.text, proof) && proof.rootHash == MerkleRootOf(d, t, All) &&
              proof.leafHash == t.messages[id].contentHash
  {
    var rows := MessageLeaves(t, All);
    LeafOrder();
    if id in t.messages && t.messages[id].archivedAt.Some? {
      var leaf := Leaf(t.messages[id].archivedAt.value, id, t.messages[id].contentHash);
      assert InScope(All, t.messages[id]);
      assert leaf in rows;
      var i :| 0 <= i < |rows| && rows[i] == leaf;
    }
    if MerkleProofOf(d, t, id).Some? {
      var i: nat :| i < |rows| && rows[i].id == id && MerkleProofOf(d, t, id) == Some(BuiltProof(d.text, MerkleLeaves(t, All), i));
      assert rows[i] in rows;
      ProofComplete(d.text, MerkleLeaves(t, All), i);
    }
  }

  // ----- The store -----

  class Store {
    const digests: Digests
    var messages: map<string, MessageRow>
    var log: seq<Row>
    var seals: seq<SealRecord>
    var edicts: map<string, EdictRow>
    var types: map<string, TypeRow>
    var approvals: set<(string, string)>
    var localLeaves: seq<string>

    function State(): Tables
      reads this
    {
      Tables(messages, log, seals, edicts, types, approvals, localLeaves)
    }

    constructor (digests: Digests)
      ensures this.digests == digests && State() == EMPTY_TABLES && Consistent(digests, State())
    {
      this.digests := digests;
      messages, log, seals, edicts, types, approvals, localLeaves := map[], [], [], map[], map[], {}, [];
    }

    method InsertMessage(m: Message, receivedAt: int) returns (r: Option<StoreError>)
      modifies this
      ensures match AppendMessage(digests, old(State()), m, receivedAt)
              case Success(after) => r == None && State() == after
              case Failure(e) => r == Some(e) && State() == old(State())
      ensures old(Consistent(digests, State())) ==> Consistent(digests, State())
    {
      ghost var before := State();
      if m.id in messages { return Some(DuplicateMessage); }
      var reference := SupersededBy(m);
      if reference.Some? && reference.value != m.id && reference.value !in messages { return Some(UnknownReference); }
      messages := messages[m.id :=
        MessageRow(m, digests.content(m.payload), IsConstitutional(m), SupersededBy(m), receivedAt, None)];
      if Consistent(digests, before) { AppendMessageKeeps(digests, before, m, receivedAt); }
      return None;
    }

    method InsertTransition(tr: Transition) returns (r: Option<StoreError>)
      modifies this
      ensures match AppendTransition(digests, old(State()), tr)
              case Success(after) => r == None && State() == after
              case Failure(e) => r == Some(e) && State() == old(State())
      ensures old(Consistent(digests, State())) ==> Consistent(digests, State())
    {
      ghost var before := State();
      var current := CurrentState(State(), tr.messageId);
      if !CanTransition(current, tr.toState) && current != tr.fromState {
        return Some(InvalidTransition(current, tr.toState));
      }
      var row := RowFor(digests, State(), tr);
      if SequenceTaken(log, tr.messageId, tr.sequenceNo) { return Some(DuplicateSequence); }
      if tr.messageId !in messages { return Some(UnknownMessage); }
      log := log + [row];
      if tr.toState == Archived {
        var sealedAt := tr.sealedAt.GetOr(tr.at);
        IndexArchivedTwice(State(), tr.messageId, sealedAt);
        messages := messages[tr.messageId := messages[tr.messageId].(archivedAt := Some(sealedAt))];
        IndexMessage(tr.messageId, sealedAt);
      }
      if Consistent(digests, before) { AppendTransitionKeeps(digests, before, tr); }
      return None;
    }

    method IndexMessage(id: string, sealedAt: int)
      requires id in messages && messages[id].archivedAt == Some(sealedAt)
      modifies this`messages, this`edicts, this`types
      ensures State() == IndexArchived(old(State()), id, sealedAt)
    {
      var body := messages[id].body;
      messages := messages[id := messages[id].(constitutional := IsConstitutional(body), supersededBy := SupersededBy(body))];
      if body.genre == "edict" {
        if body.payload.lawType.None? { return; }
        edicts := edicts[id := EdictRowOf(body, sealedAt)];
      }
      if body.genre == "ti_definition" {
        if body.payload.targetGenre.None? { return; }
        types := types[id := TypeRowOf(body, sealedAt)];
      }
    }

    method InsertSeal(seal: SealRecord) returns (r: Option<StoreError>)
      modifies this`seals
      ensures match AppendSeal(old(State()), seal)
              case Success(after) => r == None && State() == after
              case Failure(e) => r == Some(e) && State() == old(State())
    {
      if exists i | 0 <= i < |seals| :: seals[i].sealId == seal.sealId { return Some(DuplicateSeal); }
      if seal.messageId !in messages { return Some(UnknownMessage); }
      seals := seals + [seal];
      return None;
    }

    method InsertApproval(id: string, office: string) returns (r: Result<nat, StoreError>)
      modifies this`approvals
      ensures match AddOfficeApproval(old(State()), id, office)
              case Success(after) => State() == after && r == Success(|OfficeApprovals(after, id)|)
              case Failure(e) => r == Failure(e) && State() == old(State())
    {
      if id !in messages { return Failure(UnknownMessage); }
      approvals := approvals + {(id, office)};
      return Success(|OfficeApprovals(State(), id)|);
    }
  }
}
