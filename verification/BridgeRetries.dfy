/** The outbound queue over many synchronizations: what a pass takes up, and how long a row stays. */
module BridgeRetries {
  import opened Wrappers
  import opened Sorting
  import opened Bridge

  // ----- One pass -----

  predicate IsDue(queue: map<int, Item>, now: int, id: int) {
    id in queue && queue[id].availableAt <= now && queue[id].status != Sending
  }

  function SlotOf(queue: map<int, Item>, id: int): Slot
    requires id in queue
  {
    Slot(queue[id].availableAt, id)
  }

  /** Available earlier, or at once and of a smaller id. */
  predicate Before(queue: map<int, Item>, a: int, b: int)
    requires a in queue && b in queue
  {
    queue[a].availableAt < queue[b].availableAt || (queue[a].availableAt == queue[b].availableAt && a < b)
  }

  /** The whole batch is used up. */
  predicate Full(ids: seq<int>, limit: int) {
    limit >= 0 && |ids| == limit
  }

  /** A batch holds rows that are due, soonest first, never more than the limit; what is due and left out comes after
      all of it and had no room. */
  lemma DequeuedExactly(queue: map<int, Item>, now: int, limit: int, ids: seq<int>)
    requires ids == Dequeued(queue, now, limit)
    ensures forall id | id in ids :: IsDue(queue, now, id)
    ensures forall i, j | 0 <= i < j < |ids| :: ids[i] in queue && ids[j] in queue && Before(queue, ids[i], ids[j])
    ensures limit >= 0 ==> |ids| <= limit
    ensures forall id | IsDue(queue, now, id) && id !in ids ::
              Full(ids, limit) && forall x | x in ids :: x in queue && Before(queue, x, id)
  {
    SoonerIsTotal();
    var slots := Ascending(Sooner, Due(queue, now));
    forall i | 0 <= i < |ids| ensures slots[i] in Due(queue, now) && slots[i] == SlotOf(queue, ids[i]) && IsDue(queue, now, ids[i]) {
      assert slots[i] in slots;
    }
    assert forall i | 0 <= i < |ids| :: slots[i].id in ids;
    forall id | IsDue(queue, now, id) && id !in ids
      ensures Full(ids, limit) && forall x | x in ids :: x in queue && Before(queue, x, id)
    {
      assert SlotOf(queue, id) in Due(queue, now);
      var p :| 0 <= p < |slots| && slots[p] == SlotOf(queue, id);
      assert p >= |ids|;
    }
  }

  // ----- Many passes -----

  /** One synchronization: the messages stored and the rows offered since the last, and what it is given. */
  datatype Round = Round(
    stored: set<string>, arrivals: map<int, Item>, target: Option<string>, now: int, replies: nat -> Reply)

  /** Of the rows offered those of stored messages come in. */
  function Opened(d: Desk, r: Round): Desk {
    var documents := d.documents + r.stored;
    d.(documents := documents,
       queue := d.queue + map id | id in r.arrivals && r.arrivals[id].messageId in documents :: r.arrivals[id])
  }

  function BatchOf(c: BridgeConfig, d: Desk, r: Round): (ids: seq<int>)
    ensures Batch(Opened(d, r).queue, ids)
  {
    Dequeued(Opened(d, r).queue, r.now, c.batchSize)
  }

  function AfterRound(c: BridgeConfig, d: Desk, r: Round): Desk {
    Pass(c, r.target, Opened(d, r), BatchOf(c, d, r), r.replies).0
  }

  function AfterRounds(c: BridgeConfig, d: Desk, rounds: seq<Round>): Desk {
    if rounds == [] then d
    else AfterRound(c, AfterRounds(c, d, rounds[..|rounds| - 1]), rounds[|rounds| - 1])
  }

  /** Where the row stands in the round's batch. */
  ghost predicate TakenUp(c: BridgeConfig, d: Desk, r: Round, id: int, i: nat) {
    i < |BatchOf(c, d, r)| && BatchOf(c, d, r)[i] == id
  }

  ghost predicate Publishes(c: BridgeConfig, d: Desk, r: Round, id: int) {
    exists i :: TakenUp(c, d, r, id, i) && AttemptAt(c, r.target, Opened(d, r), BatchOf(c, d, r), r.replies, i).Published?
  }

  /** The row is taken up and not published, nor left to another target. */
  ghost predicate Fails(c: BridgeConfig, d: Desk, r: Round, id: int) {
    exists i :: TakenUp(c, d, r, id, i) &&
                var attempt := AttemptAt(c, r.target, Opened(d, r), BatchOf(c, d, r), r.replies, i);
                !attempt.Published? && !attempt.Skipped?
  }

  /** A row goes in a round exactly if it is published; it is tried once more exactly if it fails. */
  lemma RoundSettles(c: BridgeConfig, d: Desk, r: Round, id: int)
    requires id in d.queue && id !in r.arrivals
    ensures id in AfterRound(c, d, r).queue <==> !Publishes(c, d, r, id)
    ensures id in AfterRound(c, d, r).queue ==>
              if Fails(c, d, r, id) then SameLetter(d.queue[id], AfterRound(c, d, r).queue[id], 1)
              else AfterRound(c, d, r).queue[id] == d.queue[id]
  {
    var ids := BatchOf(c, d, r);
    assert Opened(d, r).queue[id] == d.queue[id];
    if id in ids {
      var i :| 0 <= i < |ids| && ids[i] == id;
      assert TakenUp(c, d, r, id, i);
      EachItemSettles(c, r.target, Opened(d, r), ids, r.replies, i);
      assert forall j | TakenUp(c, d, r, id, j) :: j == i;
      assert Row(AfterRound(c, d, r).queue, id) ==
             RowAfter(d.queue[id], AttemptAt(c, r.target, Opened(d, r), ids, r.replies, i), r.replies(i).markedAt);
    } else {
      assert Row(AfterRound(c, d, r).queue, id) == Row(Opened(d, r).queue, id);
    }
  }

  /** The same document for the same adapter, tried and failed `more` times since. */
  predicate SameLetter(before: Item, after: Item, more: nat) {
    && after.adapterId == before.adapterId && after.messageId == before.messageId
    && after.attempts == before.attempts + more
    && (more > 0 ==> after.status == Failed)
    && (more == 0 ==> after == before)
  }

  /** How many of the rounds the row has failed in. */
  ghost function TimesFailed(c: BridgeConfig, d: Desk, rounds: seq<Round>, id: int): nat {
    if rounds == [] then 0
    else
      var n := |rounds| - 1;
      TimesFailed(c, d, rounds[..n], id) + if Fails(c, AfterRounds(c, d, rounds[..n]), rounds[n], id) then 1 else 0
  }

  ghost predicate NeverPublished(c: BridgeConfig, d: Desk, rounds: seq<Round>, id: int) {
    rounds != [] ==>
      var n := |rounds| - 1;
      NeverPublished(c, d, rounds[..n], id) && !Publishes(c, AfterRounds(c, d, rounds[..n]), rounds[n], id)
  }

  /** Over any number of synchronizations a row leaves the queue exactly when it is published. Until then it has been
      tried once for each round it failed in, and no number of failures takes it out. */
  lemma {:induction false} RetriedUntilPublished(c: BridgeConfig, d: Desk, rounds: seq<Round>, id: int)
    requires id in d.queue && forall k | 0 <= k < |rounds| :: id !in rounds[k].arrivals
    ensures id in AfterRounds(c, d, rounds).queue <==> NeverPublished(c, d, rounds, id)
    ensures id in AfterRounds(c, d, rounds).queue ==>
              SameLetter(d.queue[id], AfterRounds(c, d, rounds).queue[id], TimesFailed(c, d, rounds, id))
  {
    if rounds != [] {
      var n := |rounds| - 1;
      RetriedUntilPublished(c, d, rounds[..n], id);
      var before := AfterRounds(c, d, rounds[..n]);
      if id in before.queue {
        RoundSettles(c, before, rounds[n], id);
      } else {
        GoneStaysGone(c, before, rounds[n], id);
      }
    }
  }

  lemma GoneStaysGone(c: BridgeConfig, d: Desk, r: Round, id: int)
    requires id !in d.queue && id !in r.arrivals
    ensures id !in AfterRound(c, d, r).queue && !Publishes(c, d, r, id)
  {
    var ids := BatchOf(c, d, r);
    assert id !in Opened(d, r).queue && id !in ids;
    assert Row(AfterRound(c, d, r).queue, id) == Row(Opened(d, r).queue, id);
  }

  /** A row that failed is due again as soon as the clock is not behind its last failure: there is no back-off. */
  lemma FailedIsDueAgain(c: BridgeConfig, d: Desk, r: Round, id: int, i: nat, now: int)
    requires id in d.queue && id !in r.arrivals && TakenUp(c, d, r, id, i) && Fails(c, d, r, id)
    ensures IsDue(AfterRound(c, d, r).queue, now, id) <==> now >= r.replies(i).markedAt
  {
    var ids := BatchOf(c, d, r);
    EachItemSettles(c, r.target, Opened(d, r), ids, r.replies, i);
    assert Opened(d, r).queue[id] == d.queue[id];
    assert forall j | TakenUp(c, d, r, id, j) :: j == i;
    assert Row(AfterRound(c, d, r).queue, id) ==
           RowAfter(d.queue[id], AttemptAt(c, r.target, Opened(d, r), ids, r.replies, i), r.replies(i).markedAt);
  }

  // ----- The foreign key on documents -----

  /** Every desk on the way refers to stored messages only. */
  lemma {:induction false} PassRefers(c: BridgeConfig, target: Option<string>, d: Desk, ids: seq<int>, replies: nat -> Reply)
    requires Batch(d.queue, ids) && Referring(d)
    ensures Referring(Pass(c, target, d, ids, replies).0)
    decreases |ids|
  {
    if ids != [] {
      var n := |ids| - 1;
      assert ids[..n + 1] == ids;
      PassUnfolds(c, target, d, ids, replies, n);
      PassRefers(c, target, d, ids[..n], replies);
      SettledRefers(c, target, Pass(c, target, d, ids[..n], replies).0, ids[n], replies(n));
    }
  }

  lemma {:induction false} RoundsRefer(c: BridgeConfig, d: Desk, rounds: seq<Round>)
    requires Referring(d)
    ensures Referring(AfterRounds(c, d, rounds))
  {
    if rounds != [] {
      var n := |rounds| - 1;
      var before := AfterRounds(c, d, rounds[..n]);
      RoundsRefer(c, d, rounds[..n]);
      PassRefers(c, rounds[n].target, Opened(before, rounds[n]), BatchOf(c, before, rounds[n]), rounds[n].replies);
    }
  }

  /** The adapter has taken the message and given it a foreign id. */
  predicate Delivered(c: BridgeConfig, target: Option<string>, d: Desk, item: Item, reply: Reply) {
    && (target.None? || target.value == "" || target.value == item.adapterId)
    && item.adapterId in c.adapters && !IsOpen(d.breakers, item.adapterId, reply.openAt)
    && reply.message.Some? && reply.published.Success?
  }

  /** The i-th item of the batch is delivered, given what the items before it have done to the breakers. */
  predicate DeliveredAt(c: BridgeConfig, target: Option<string>, d: Desk, ids: seq<int>, replies: nat -> Reply, i: nat)
    requires Batch(d.queue, ids)
  {
    i < |ids| &&
    (BatchPrefix(d.queue, ids, i);
     Delivered(c, target, Pass(c, target, d, ids[..i], replies).0, d.queue[ids[i]], replies(i)))
  }

  /** A row that was delivered leaves the queue exactly if the document fetched for it is stored. If not it stays, marked
      failed on the foreign key, and goes out again. */
  lemma DeliveredLeavesExactly(c: BridgeConfig, target: Option<string>, d: Desk, ids: seq<int>, replies: nat -> Reply, i: nat)
    requires Batch(d.queue, ids) && DeliveredAt(c, target, d, ids, replies, i)
    ensures Row(Pass(c, target, d, ids, replies).0.queue, ids[i]) ==
            if replies(i).message.value in d.documents then None
            else Some(Retried(d.queue[ids[i]], FOREIGN_KEY, replies(i).markedAt))
  {
    EachItemSettles(c, target, d, ids, replies, i);
  }

  /** Where the answer to every fetch is the message asked for, the foreign key refuses nothing, over any number of
      synchronizations: what is delivered leaves. */
  lemma RightAnswersLeave(c: BridgeConfig, d: Desk, rounds: seq<Round>, r: Round, i: nat)
    requires Referring(d)
    requires var before := AfterRounds(c, d, rounds);
             var queue, ids := Opened(before, r).queue, BatchOf(c, before, r);
             DeliveredAt(c, r.target, Opened(before, r), ids, r.replies, i) &&
             r.replies(i).message == Some(queue[ids[i]].messageId)
    ensures var before := AfterRounds(c, d, rounds); BatchOf(c, before, r)[i] !in AfterRound(c, before, r).queue
  {
    RoundsRefer(c, d, rounds);
    var before := AfterRounds(c, d, rounds);
    DeliveredLeavesExactly(c, r.target, Opened(before, r), BatchOf(c, before, r), r.replies, i);
  }

  // ----- The foreign ids -----

  function LinkOf(foreign: map<string, Link>, document: string): Option<Link> {
    if document in foreign then Some(foreign[document]) else None
  }

  predicate PublishesAs(c: BridgeConfig, target: Option<string>, d: Desk, ids: seq<int>, replies: nat -> Reply, i: nat,
                        document: string)
    requires Batch(d.queue, ids) && i < |ids|
  {
    var attempt := AttemptAt(c, target, d, ids, replies, i);
    attempt.Published? && attempt.message == document
  }

  lemma LastLink(c: BridgeConfig, target: Option<string>, d: Desk, ids: seq<int>, replies: nat -> Reply, n: nat, document: string)
    requires Batch(d.queue, ids) && |ids| == n + 1
    ensures Batch(d.queue, ids[..n])
    ensures LinkOf(Pass(c, target, d, ids, replies).0.foreign, document) ==
            if PublishesAs(c, target, d, ids, replies, n, document)
            then Some(Link(d.queue[ids[n]].adapterId, AttemptAt(c, target, d, ids, replies, n).foreignId))
            else LinkOf(Pass(c, target, d, ids[..n], replies).0.foreign, document)
  {
    assert ids[..n + 1] == ids;
    PassUnfolds(c, target, d, ids, replies, n);
  }

  /** What a pass does not publish keeps its foreign id. */
  lemma {:induction false} UnpublishedKeepsLink(c: BridgeConfig, target: Option<string>, d: Desk, ids: seq<int>,
                                                replies: nat -> Reply, document: string)
    requires Batch(d.queue, ids)
    requires forall j: nat | j < |ids| :: !PublishesAs(c, target, d, ids, replies, j, document)
    ensures LinkOf(Pass(c, target, d, ids, replies).0.foreign, document) == LinkOf(d.foreign, document)
    decreases |ids|
  {
    if ids != [] {
      var n := |ids| - 1;
      LastLink(c, target, d, ids, replies, n, document);
      forall j: nat | j < n ensures !PublishesAs(c, target, d, ids[..n], replies, j, document) {
        SameAttempt(c, target, d, ids, replies, n, j);
        assert !PublishesAs(c, target, d, ids, replies, j, document);
      }
      UnpublishedKeepsLink(c, target, d, ids[..n], replies, document);
    }
  }

  /** There is one foreign id to a document: the one of the last publication, whichever adapter it went to. */
  lemma {:induction false} LastPublicationLinks(c: BridgeConfig, target: Option<string>, d: Desk, ids: seq<int>,
                                                replies: nat -> Reply, document: string, i: nat)
    requires Batch(d.queue, ids) && i < |ids| && PublishesAs(c, target, d, ids, replies, i, document)
    requires forall j: nat | i < j < |ids| :: !PublishesAs(c, target, d, ids, replies, j, document)
    ensures LinkOf(Pass(c, target, d, ids, replies).0.foreign, document) ==
            Some(Link(d.queue[ids[i]].adapterId, AttemptAt(c, target, d, ids, replies, i).foreignId))
    decreases |ids|
  {
    var n := |ids| - 1;
    LastLink(c, target, d, ids, replies, n, document);
    if i < n {
      SameAttempt(c, target, d, ids, replies, n, i);
      forall j: nat | i < j < n ensures !PublishesAs(c, target, d, ids[..n], replies, j, document) {
        SameAttempt(c, target, d, ids, replies, n, j);
        assert !PublishesAs(c, target, d, ids, replies, j, document);
      }
      LastPublicationLinks(c, target, d, ids[..n], replies, document, i);
    }
  }
}
