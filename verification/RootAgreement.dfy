/** What equal roots say about two archives, and what a sync that finds them does not see. */
module RootAgreement {
  import opened Wrappers
  import opened Hashing
  import opened Kinds
  import opened Sorting
  import opened Ordering
  import opened MerkleTree
  import opened MerkleDag
  import opened Archive
  import opened Sync
  import opened PagedSync

  // ----- Equal roots -----

  /** Content digests and the node's own leaves read neither as an inner pair nor as the text for no leaves. */
  ghost predicate OrdinaryLeaves(d: Digests, t: Tables) {
    (forall p :: OrdinaryLeaf(d.content(p))) && forall x | x in t.localLeaves :: OrdinaryLeaf(x)
  }

  lemma LeafIsDigest(d: Digests, t: Tables, scope: Scope, leaf: Leaf)
    requires Consistent(d, t) && leaf in LeafSet(t, scope)
    ensures exists p :: leaf.hash == d.content(p)
  {
    var id :| id in t.messages && InScope(scope, t.messages[id]) &&
              leaf == Leaf(t.messages[id].archivedAt.value, id, t.messages[id].contentHash);
    assert MessageConsistent(d, t.messages[id], id, RowsOf(t.log, id));
  }

  lemma LeavesAreOrdinary(d: Digests, t: Tables, scope: Scope)
    requires Consistent(d, t) && OrdinaryLeaves(d, t)
    ensures forall x | x in MerkleLeaves(t, scope) :: OrdinaryLeaf(x)
  {
    var leaves := MessageLeaves(t, scope);
    forall x | x in HashesOf(leaves) ensures OrdinaryLeaf(x) {
      var i :| 0 <= i < |leaves| && leaves[i].hash == x;
      LeafOrder();
      assert leaves[i] in leaves;
      LeafIsDigest(d, t, scope, leaves[i]);
    }
  }

  /** Two archives have the same root exactly when padding makes the same complete tree of their leaves: the digests of
      the payloads of their archived messages in scope, in order of archiving. */
  lemma RootsAgreeExactly(d: Digests, a: Tables, b: Tables, scope: Scope)
    requires HexDigest(d.text) && Consistent(d, a) && Consistent(d, b) && OrdinaryLeaves(d, a) && OrdinaryLeaves(d, b)
    ensures RootsAgree(d, a, b, scope) <==> SamePaddedTree(MerkleLeaves(a, scope), MerkleLeaves(b, scope))
  {
    LeavesAreOrdinary(d, a, scope);
    LeavesAreOrdinary(d, b, scope);
    DagRootsExactly(d.text, MerkleLeaves(a, scope), MerkleLeaves(b, scope));
  }

  /** A sync that finds the roots equal reports no divergence and brings nothing in, whatever the logs hold. */
  lemma AgreedSyncBringsNothing(d: Digests, l: Tables, r: Tables, cursor: int, limit: int, scope: Scope, clock: nat -> int)
    requires RootsAgree(d, l, r, scope)
    ensures var root := MerkleRootOf(d, l, scope);
            SyncWith(d, l, PeerOf(d, r), cursor, limit, scope, clock) == (l, Success(SyncResult(root, root, false, 0, 0, 0, 0)))
  {
  }

  // ----- A divergence the roots do not show -----

  /** The archive after one more message has been stored and archived. */
  function ArchivedMore(d: Digests, t: Tables, m: Message, tr: Transition, receivedAt: int): Result<Tables, StoreError> {
    match AppendMessage(d, t, m, receivedAt)
    case Failure(e) => Failure(e)
    case Success(stored) => AppendTransition(d, stored, tr)
  }

  predicate Archives(tr: Transition, m: Message) {
    tr.messageId == m.id && tr.fromState == Pending && tr.toState == Archived && tr.sequenceNo == 1
  }

  predicate ScopeOf(scope: Scope, m: Message) {
    match scope
    case All => true
    case Constitutional => IsConstitutional(m)
    case Legislative => m.genre == "edict"
  }

  /** Nothing but archived messages enters the root. */
  predicate OnlyMessages(t: Tables, scope: Scope) {
    scope == All ==> t.localLeaves == []
  }

  function NewLeaf(d: Digests, m: Message, tr: Transition): Leaf {
    Leaf(tr.sealedAt.GetOr(tr.at), m.id, d.content(m.payload))
  }

  lemma OneMoreMessage(d: Digests, t: Tables, m: Message, tr: Transition, receivedAt: int) returns (after: Tables)
    requires Consistent(d, t) && Storable(t, m) && Archives(tr, m)
    ensures ArchivedMore(d, t, m, tr, receivedAt) == Success(after)
    ensures after.messages.Keys == t.messages.Keys + {m.id} && after.localLeaves == t.localLeaves
    ensures forall id | id in t.messages :: after.messages[id] == t.messages[id]
    ensures var row := after.messages[m.id];
            row.archivedAt == Some(tr.sealedAt.GetOr(tr.at)) && row.contentHash == d.content(m.payload) && row.body == m &&
            row.constitutional == IsConstitutional(m)
  {
    var stored := AppendMessage(d, t, m, receivedAt).value;
    NoRowsNoMessage(t.log, m.id);
    after := AppendTransition(d, stored, tr).value;
    AppendShape(d, stored, tr);
  }

  function LeafOf(t: Tables, id: string): Leaf
    requires id in t.messages && t.messages[id].archivedAt.Some?
  {
    Leaf(t.messages[id].archivedAt.value, id, t.messages[id].contentHash)
  }

  lemma LeafSetGrows(t: Tables, after: Tables, id: string, scope: Scope)
    requires id !in t.messages && after.messages.Keys == t.messages.Keys + {id} && InScope(scope, after.messages[id])
    requires forall x | x in t.messages :: after.messages[x] == t.messages[x]
    ensures LeafSet(after, scope) == LeafSet(t, scope) + {LeafOf(after, id)} && LeafOf(after, id) !in LeafSet(t, scope)
  {
    forall leaf | leaf in LeafSet(after, scope) ensures leaf in LeafSet(t, scope) + {LeafOf(after, id)} {
      var x :| x in after.messages && InScope(scope, after.messages[x]) && leaf == LeafOf(after, x);
      assert x != id ==> x in t.messages && after.messages[x] == t.messages[x];
    }
    forall leaf | leaf in LeafSet(t, scope) ensures leaf in LeafSet(after, scope) {
      var x :| x in t.messages && InScope(scope, t.messages[x]) && leaf == LeafOf(t, x);
      assert after.messages[x] == t.messages[x];
    }
  }

  lemma HashesAppend(leaves: seq<Leaf>, leaf: Leaf)
    ensures HashesOf(leaves + [leaf]) == HashesOf(leaves) + [leaf.hash]
  {
  }

  lemma LastLeafIsLast(t: Tables, after: Tables, scope: Scope, leaf: Leaf)
    requires LeafSet(after, scope) == LeafSet(t, scope) + {leaf} && leaf !in LeafSet(t, scope)
    requires OnlyMessages(t, scope) && OnlyMessages(after, scope)
    requires forall y | y in LeafSet(t, scope) :: LeafLeq(y, leaf)
    ensures MerkleLeaves(after, scope) == MerkleLeaves(t, scope) + [leaf.hash]
  {
    LeafOrder();
    AscendingAppend(LeafLeq, LeafSet(t, scope), leaf);
    HashesAppend(MessageLeaves(t, scope), leaf);
  }

  /** Archiving a message last appends its digest to the leaves. */
  lemma LeavesAppend(d: Digests, t: Tables, m: Message, tr: Transition, receivedAt: int, scope: Scope) returns (after: Tables)
    requires Consistent(d, t) && Storable(t, m) && Archives(tr, m) && ScopeOf(scope, m) && OnlyMessages(t, scope)
    requires forall y | y in LeafSet(t, scope) :: LeafLeq(y, NewLeaf(d, m, tr))
    ensures ArchivedMore(d, t, m, tr, receivedAt) == Success(after) && m.id in after.messages && after.messages[m.id].archivedAt.Some?
    ensures MerkleLeaves(after, scope) == MerkleLeaves(t, scope) + [d.content(m.payload)]
  {
    after := OneMoreMessage(d, t, m, tr, receivedAt);
    LeafSetGrows(t, after, m.id, scope);
    LastLeafIsLast(t, after, scope, NewLeaf(d, m, tr));
  }

  lemma LastPayloadAgain(d: Digests, t: Tables, after: Tables, scope: Scope, digest: string)
    requires MerkleLeaves(after, scope) == MerkleLeaves(t, scope) + [digest]
    requires var leaves := MerkleLeaves(t, scope); |leaves| >= 3 && |leaves| % 2 == 1 && digest == leaves[|leaves| - 1]
    ensures RootsAgree(d, t, after, scope)
  {
    DuplicatedLastLeaf(DagScheme(d.text), MerkleLeaves(t, scope));
  }

  /** A peer that has archived one more message, after an odd number of three or more and with the payload of the last
      of them, has the same root: the sync reports no divergence, and the message does not come. */
  lemma SamePayloadGoesUnnoticed(d: Digests, t: Tables, m: Message, tr: Transition, receivedAt: int, scope: Scope,
                                 cursor: int, limit: int, clock: nat -> int) returns (after: Tables)
    requires Consistent(d, t) && Storable(t, m) && Archives(tr, m) && ScopeOf(scope, m) && OnlyMessages(t, scope)
    requires forall y | y in LeafSet(t, scope) :: LeafLeq(y, NewLeaf(d, m, tr))
    requires var leaves := MerkleLeaves(t, scope);
             |leaves| >= 3 && |leaves| % 2 == 1 && d.content(m.payload) == leaves[|leaves| - 1]
    ensures ArchivedMore(d, t, m, tr, receivedAt) == Success(after) && m.id in after.messages && after.messages[m.id].archivedAt.Some?
    ensures var root := MerkleRootOf(d, t, scope);
            SyncWith(d, t, PeerOf(d, after), cursor, limit, scope, clock) == (t, Success(SyncResult(root, root, false, 0, 0, 0, 0)))
    ensures m.id !in t.messages
  {
    after := LeavesAppend(d, t, m, tr, receivedAt, scope);
    LastPayloadAgain(d, t, after, scope, d.content(m.payload));
    AgreedSyncBringsNothing(d, t, after, cursor, limit, scope, clock);
  }
}
