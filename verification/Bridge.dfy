/** The bridge's circuit breaker and its outbound queue. */
module Bridge {
  import opened Wrappers
  import opened Sorting

  // ----- The circuit breaker -----

  /** `threshold` is a share of failures; times are milliseconds. */
  datatype BreakerConfig = BreakerConfig(threshold: real, coolDownMs: int)

  const WINDOW: nat := 100

  /** A result reported to the breaker, and when. */
  datatype Report = Report(success: bool, at: int)

  /** The last hundred results of the first `k` reports. */
  function Window(reports: seq<Report>, k: nat): seq<bool>
    requires k <= |reports|
  {
    seq(if k < WINDOW then k else WINDOW,
        i requires 0 <= i < (if k < WINDOW then k else WINDOW) => reports[k - (if k < WINDOW then k else WINDOW) + i].success)
  }

  function Failures(outcomes: seq<bool>): nat {
    if outcomes == [] then 0 else (if outcomes[0] then 0 else 1) + Failures(outcomes[1..])
  }

  predicate OverThreshold(c: BreakerConfig, outcomes: seq<bool>) {
    outcomes != [] && Failures(outcomes) as real / |outcomes| as real > c.threshold
  }

  /** The k-th report is a failure and its window held too many failures. */
  predicate Trips(c: BreakerConfig, reports: seq<Report>, k: nat)
    requires k < |reports|
  {
    !reports[k].success && OverThreshold(c, Window(reports, k + 1))
  }

  /** Time does not run backwards. */
  ghost predicate Monotone(reports: seq<Report>, now: int) {
    && (forall i, j | 0 <= i < j < |reports| :: reports[i].at <= reports[j].at)
    && (forall i | 0 <= i < |reports| :: reports[i].at <= now)
  }

  lemma WindowNext(reports: seq<Report>, r: Report)
    ensures var outcomes, more := Window(reports, |reports|), Window(reports, |reports|) + [r.success];
            Window(reports + [r], |reports| + 1) == if |outcomes| == WINDOW then more[1..] else more
  {
  }

  lemma WindowOfPrefix(reports: seq<Report>, r: Report, k: nat)
    requires k <= |reports|
    ensures Window(reports + [r], k) == Window(reports, k)
  {
  }

  /** Which of the reports from `lo` up to `hi` failed. */
  function FailedBetween(reports: seq<Report>, lo: nat, hi: nat): set<nat>
    requires hi <= |reports|
  {
    set i: nat | lo <= i < hi && !reports[i].success
  }

  function Outcomes(reports: seq<Report>, lo: nat, hi: nat): seq<bool>
    requires lo <= hi <= |reports|
  {
    seq(hi - lo, i requires 0 <= i < hi - lo => reports[lo + i].success)
  }

  lemma {:induction false} OneMoreFailure(outcomes: seq<bool>, success: bool)
    ensures Failures(outcomes + [success]) == Failures(outcomes) + if success then 0 else 1
  {
    if outcomes == [] {
      assert [success][1..] == [];
    } else {
      OneMoreFailure(outcomes[1..], success);
      assert (outcomes + [success])[1..] == outcomes[1..] + [success];
    }
  }

  lemma {:induction false} FailuresAre(reports: seq<Report>, lo: nat, hi: nat)
    requires lo <= hi <= |reports|
    ensures Failures(Outcomes(reports, lo, hi)) == |FailedBetween(reports, lo, hi)|
  {
    if lo < hi {
      FailuresAre(reports, lo, hi - 1);
      assert Outcomes(reports, lo, hi) == Outcomes(reports, lo, hi - 1) + [reports[hi - 1].success];
      OneMoreFailure(Outcomes(reports, lo, hi - 1), reports[hi - 1].success);
      assert FailedBetween(reports, lo, hi) ==
             FailedBetween(reports, lo, hi - 1) + if reports[hi - 1].success then {} else {hi - 1};
    }
  }

  /** A report trips the breaker exactly if it is a failure and, of the last hundred reports up to it, or of all if there
      are fewer, more than the threshold's share failed. */
  lemma TripsExactly(c: BreakerConfig, reports: seq<Report>, k: nat)
    requires k < |reports|
    ensures var lo := if k < 99 then 0 else k - 99;
            Trips(c, reports, k) <==>
            !reports[k].success && |FailedBetween(reports, lo, k + 1)| as real > c.threshold * (k + 1 - lo) as real
  {
    var lo := if k < 99 then 0 else k - 99;
    WindowIs(reports, k, lo);
    FailuresAre(reports, lo, k + 1);
    OverThresholdExactly(c, Outcomes(reports, lo, k + 1));
  }

  lemma WindowIs(reports: seq<Report>, k: nat, lo: nat)
    requires k < |reports| && lo == if k < 99 then 0 else k - 99
    ensures Window(reports, k + 1) == Outcomes(reports, lo, k + 1)
  {
  }

  lemma OverThresholdExactly(c: BreakerConfig, outcomes: seq<bool>)
    requires outcomes != []
    ensures OverThreshold(c, outcomes) <==> Failures(outcomes) as real > c.threshold * |outcomes| as real
  {
    ShareExactly(Failures(outcomes), |outcomes|, c.threshold);
  }

  lemma ShareExactly(part: nat, whole: nat, threshold: real)
    requires whole > 0
    ensures part as real / whole as real > threshold <==> part as real > threshold * whole as real
  {
    var share := part as real / whole as real;
    assert share * whole as real == part as real;
  }

  /** Where the last trip pauses the breaker to; 0 before the first. */
  function PausedUntil(c: BreakerConfig, reports: seq<Report>, k: nat): int
    requires k <= |reports|
  {
    if k == 0 then 0
    else if Trips(c, reports, k - 1) then reports[k - 1].at + c.coolDownMs
    else PausedUntil(c, reports, k - 1)
  }

  lemma {:induction false} PausedOfPrefix(c: BreakerConfig, reports: seq<Report>, r: Report, k: nat)
    requires k <= |reports|
    ensures PausedUntil(c, reports + [r], k) == PausedUntil(c, reports, k)
  {
    if k > 0 {
      PausedOfPrefix(c, reports, r, k - 1);
      WindowOfPrefix(reports, r, k);
    }
  }

  /** With a clock that does not run backwards, the breaker is paused at `now` exactly when some reported failure
      less than a cool-down ago had too many failures in its window. */
  lemma {:induction false} PausedExactly(c: BreakerConfig, reports: seq<Report>, k: nat, now: int)
    requires k <= |reports| && Monotone(reports, now) && now >= 0
    ensures PausedUntil(c, reports, k) > now <==>
            exists i :: 0 <= i < k && Trips(c, reports, i) && now - reports[i].at < c.coolDownMs
  {
    if k > 0 { PausedExactly(c, reports, k - 1, now); }
  }

  datatype BreakerState = BreakerState(outcomes: seq<bool>, pausedUntil: int)

  /** The state that reports leave a breaker in. */
  function StateOf(c: BreakerConfig, reports: seq<Report>): BreakerState {
    BreakerState(Window(reports, |reports|), PausedUntil(c, reports, |reports|))
  }

  function WithOutcome(state: BreakerState, success: bool): BreakerState {
    var outcomes := state.outcomes + [success];
    state.(outcomes := if |outcomes| > WINDOW then outcomes[1..] else outcomes)
  }

  function WithReport(c: BreakerConfig, state: BreakerState, r: Report): BreakerState {
    var next := WithOutcome(state, r.success);
    if !r.success && OverThreshold(c, next.outcomes) then next.(pausedUntil := r.at + c.coolDownMs) else next
  }

  /** Keeping only a window and a deadline loses nothing: one more report takes the state of the reports so far to
      the state of all of them. */
  lemma ReportRefines(c: BreakerConfig, reports: seq<Report>, r: Report)
    ensures WithReport(c, StateOf(c, reports), r) == StateOf(c, reports + [r])
  {
    WindowNext(reports, r);
    PausedOfPrefix(c, reports, r, |reports|);
  }

  // ----- The outbound queue -----

  datatype Status = Queued | Sending | Failed

  /** A row of the queue. */
  datatype Item = Item(adapterId: string, messageId: string, attempts: nat, availableAt: int, lastError: Option<string>,
                       status: Status)

  datatype Letter = Letter(adapterId: string, messageId: string, reason: string, attempts: nat, nextRetryAt: int, createdAt: int)

  /** Which adapter a document went to last, and its id there. */
  datatype Link = Link(adapterId: string, foreignId: string)

  /** The queue by its rows' ids, the dead letters, the foreign ids by document, the breakers, and the ids of the messages
      the archive has stored. */
  datatype Desk = Desk(
    queue: map<int, Item>, letters: seq<Letter>, foreign: map<string, Link>, breakers: map<string, BreakerState>,
    documents: set<string>)

  datatype BridgeConfig = BridgeConfig(breaker: BreakerConfig, batchSize: int, adapters: set<string>)

  /** What the world answers for one item: the id of the message fetched, the foreign id or the error of the
      publication, and the clock's readings. */
  datatype Reply = Reply(
    message: Option<string>, published: Result<string, string>, openAt: int, markedAt: int, deadAt: int, createdAt: int,
    recordedAt: int)

  datatype Slot = Slot(availableAt: int, id: int)

  predicate Sooner(a: Slot, b: Slot) {
    a.availableAt < b.availableAt || (a.availableAt == b.availableAt && a.id <= b.id)
  }

  function Due(queue: map<int, Item>, now: int): set<Slot> {
    set id | id in queue && queue[id].availableAt <= now && queue[id].status != Sending :: Slot(queue[id].availableAt, id)
  }

  lemma SoonerIsTotal()
    ensures TotalOrder(Sooner)
  {
  }

  /** The ids of the rows due, soonest first; a negative limit is no limit. */
  function Dequeued(queue: map<int, Item>, now: int, limit: int): (ids: seq<int>)
    ensures Batch(queue, ids)
  {
    SoonerIsTotal();
    var slots := Ascending(Sooner, Due(queue, now));
    var count := if limit < 0 || limit > |slots| then |slots| else limit;
    assert forall i | 0 <= i < |slots| :: slots[i] in slots;
    SlotsAreRows(queue, now, slots);
    seq(count, i requires 0 <= i < count => slots[i].id)
  }

  lemma SlotsAreRows(queue: map<int, Item>, now: int, slots: seq<Slot>)
    requires forall i | 0 <= i < |slots| :: slots[i] in Due(queue, now)
    requires forall i, j | 0 <= i < j < |slots| :: slots[i] != slots[j]
    ensures forall i | 0 <= i < |slots| :: slots[i].id in queue
    ensures forall i, j | 0 <= i < j < |slots| :: slots[i].id != slots[j].id
  {
  }

  ghost predicate Batch(queue: map<int, Item>, ids: seq<int>) {
    (forall i | 0 <= i < |ids| :: ids[i] in queue) && (forall i, j | 0 <= i < j < |ids| :: ids[i] != ids[j])
  }

  /** What becomes of one item. */
  datatype Attempt = Skipped | Lost(reason: string) | Missing | Refused(reason: string) | Published(message: string, foreignId: string)

  predicate IsOpen(breakers: map<string, BreakerState>, adapterId: string, now: int) {
    adapterId in breakers && breakers[adapterId].pausedUntil > now
  }

  /** What the foreign key on the archive's messages answers. */
  const FOREIGN_KEY := "FOREIGN KEY constraint failed"

  /** The foreign id is stored after the publication: where the archive lacks the document it is refused then. */
  function Attempted(c: BridgeConfig, target: Option<string>, d: Desk, item: Item, reply: Reply): Attempt {
    if target.Some? && target.value != "" && target.value != item.adapterId then Skipped
    else if item.adapterId !in c.adapters then Lost("adapter-not-found")
    else if IsOpen(d.breakers, item.adapterId, reply.openAt) then Lost("circuit-open")
    else match reply.message
      case None => Missing
      case Some(id) =>
        match reply.published
        case Failure(reason) => Refused(reason)
        case Success(foreignId) => if id in d.documents then Published(id, foreignId) else Refused(FOREIGN_KEY)
  }

  function Reported(c: BridgeConfig, breakers: map<string, BreakerState>, adapterId: string, r: Report): map<string, BreakerState> {
    if adapterId !in breakers then breakers
    else breakers[adapterId := WithReport(c.breaker, breakers[adapterId], r)]
  }

  function Retried(item: Item, reason: string, at: int): Item {
    item.(status := Failed, attempts := item.attempts + 1, lastError := Some(reason), availableAt := at)
  }

  function ReasonOf(attempt: Attempt): string {
    match attempt
    case Lost(reason) => reason
    case Missing => "message-not-found"
    case Refused(reason) => reason
    case _ => ""
  }

  /** What an attempt leaves of a row: all of it, nothing, or a failed row with one more attempt. */
  function RowAfter(item: Item, attempt: Attempt, at: int): Option<Item> {
    match attempt
    case Skipped => Some(item)
    case Published(_, _) => None
    case _ => Some(Retried(item, ReasonOf(attempt), at))
  }

  /** A failed row: one more attempt, the reason, and due at once. */
  function FailedRow(item: Item, reason: string, at: int): Option<Item> {
    Some(Item(item.adapterId, item.messageId, item.attempts + 1, at, Some(reason), Failed))
  }

  /** What is left of the row of an item, whatever comes back: itself if another adapter is the target; nothing if it was
      published and its document is stored; otherwise a failed row that says which of the steps it failed at. */
  lemma ItemExactly(c: BridgeConfig, target: Option<string>, d: Desk, item: Item, reply: Reply, at: int)
    ensures RowAfter(item, Attempted(c, target, d, item, reply), at) ==
            if target.Some? && target.value != "" && target.value != item.adapterId then Some(item)
            else if item.adapterId !in c.adapters then FailedRow(item, "adapter-not-found", at)
            else if item.adapterId in d.breakers && reply.openAt < d.breakers[item.adapterId].pausedUntil
            then FailedRow(item, "circuit-open", at)
            else if reply.message.None? then FailedRow(item, "message-not-found", at)
            else if reply.published.Failure? then FailedRow(item, reply.published.error, at)
            else if reply.message.value !in d.documents then FailedRow(item, "FOREIGN KEY constraint failed", at)
            else None
  {
  }

  function Row(queue: map<int, Item>, id: int): Option<Item> {
    if id in queue then Some(queue[id]) else None
  }

  function QueueAfter(queue: map<int, Item>, id: int, attempt: Attempt, at: int): map<int, Item>
    requires id in queue
  {
    match RowAfter(queue[id], attempt, at)
    case None => queue - {id}
    case Some(item) => queue[id := item]
  }

  function LettersAfter(c: BridgeConfig, letters: seq<Letter>, item: Item, attempt: Attempt, reply: Reply): seq<Letter> {
    if !attempt.Refused? then letters
    else letters + [Letter(item.adapterId, item.messageId, attempt.reason, item.attempts + 1,
                           reply.deadAt + c.breaker.coolDownMs, reply.createdAt)]
  }

  function BreakersAfter(c: BridgeConfig, breakers: map<string, BreakerState>, item: Item, attempt: Attempt, reply: Reply):
    map<string, BreakerState>
  {
    if attempt.Skipped? || attempt.Lost? then breakers
    else Reported(c, breakers, item.adapterId, Report(attempt.Published?, reply.recordedAt))
  }

  function Settled(c: BridgeConfig, d: Desk, id: int, attempt: Attempt, reply: Reply): Desk
    requires id in d.queue
  {
    var item := d.queue[id];
    Desk(QueueAfter(d.queue, id, attempt, reply.markedAt),
         LettersAfter(c, d.letters, item, attempt, reply),
         if attempt.Published? then d.foreign[attempt.message := Link(item.adapterId, attempt.foreignId)] else d.foreign,
         BreakersAfter(c, d.breakers, item, attempt, reply),
         d.documents)
  }

  /** One pass over a batch: the desk after it and how many were pushed. */
  function Pass(c: BridgeConfig, target: Option<string>, d: Desk, ids: seq<int>, replies: nat -> Reply): (r: (Desk, nat))
    requires Batch(d.queue, ids)
    ensures r.0.documents == d.documents
    ensures forall id | id !in ids :: Row(r.0.queue, id) == Row(d.queue, id)
    decreases |ids|
  {
    if ids == [] then (d, 0)
    else
      var n := |ids| - 1;
      BatchPrefix(d.queue, ids, n);
      var (before, pushed) := Pass(c, target, d, ids[..n], replies);
      assert Row(before.queue, ids[n]) == Row(d.queue, ids[n]);
      var attempt := Attempted(c, target, before, before.queue[ids[n]], replies(n));
      (Settled(c, before, ids[n], attempt, replies(n)), if attempt.Published? then pushed + 1 else pushed)
  }

  lemma BatchPrefix(queue: map<int, Item>, ids: seq<int>, k: nat)
    requires Batch(queue, ids) && k <= |ids|
    ensures Batch(queue, ids[..k])
    ensures k < |ids| ==> ids[k] in queue && ids[k] !in ids[..k]
    ensures forall id | id in ids[..k] :: id in ids
  {
  }

  /** What is made of the i-th item of a batch, given what the items before it have done to the breakers. */
  function AttemptAt(c: BridgeConfig, target: Option<string>, d: Desk, ids: seq<int>, replies: nat -> Reply, i: nat): Attempt
    requires Batch(d.queue, ids) && i < |ids|
  {
    BatchPrefix(d.queue, ids, i);
    Attempted(c, target, Pass(c, target, d, ids[..i], replies).0, d.queue[ids[i]], replies(i))
  }

  lemma PassUnfolds(c: BridgeConfig, target: Option<string>, d: Desk, ids: seq<int>, replies: nat -> Reply, k: nat)
    requires Batch(d.queue, ids) && k < |ids|
    ensures Batch(d.queue, ids[..k]) && Batch(d.queue, ids[..k + 1])
    ensures var (before, pushed) := Pass(c, target, d, ids[..k], replies);
            ids[k] in before.queue && before.queue[ids[k]] == d.queue[ids[k]] &&
            var attempt := Attempted(c, target, before, d.queue[ids[k]], replies(k));
            Pass(c, target, d, ids[..k + 1], replies) ==
            (Settled(c, before, ids[k], attempt, replies(k)), if attempt.Published? then pushed + 1 else pushed)
  {
    BatchPrefix(d.queue, ids, k);
    BatchPrefix(d.queue, ids, k + 1);
    assert ids[..k + 1][..k] == ids[..k];
    var before := Pass(c, target, d, ids[..k], replies).0;
    assert Row(before.queue, ids[k]) == Row(d.queue, ids[k]);
  }

  lemma LastItemSettles(c: BridgeConfig, target: Option<string>, d: Desk, ids: seq<int>, replies: nat -> Reply)
    requires Batch(d.queue, ids) && ids != []
    ensures Batch(d.queue, ids[..|ids| - 1])
    ensures var n, after := |ids| - 1, Pass(c, target, d, ids, replies).0;
            Row(after.queue, ids[n]) ==
              RowAfter(d.queue[ids[n]], AttemptAt(c, target, d, ids, replies, n), replies(n).markedAt) &&
            forall id | id != ids[n] :: Row(after.queue, id) == Row(Pass(c, target, d, ids[..n], replies).0.queue, id)
  {
    var n := |ids| - 1;
    BatchPrefix(d.queue, ids, n);
    var before := Pass(c, target, d, ids[..n], replies).0;
    assert Row(before.queue, ids[n]) == Row(d.queue, ids[n]);
  }

  /** A pass leaves each item of its batch as it was if another adapter is the target, deletes it exactly if it was
      published, and otherwise leaves it failed with one more attempt; no other row changes. */
  lemma {:induction false} EachItemSettles(c: BridgeConfig, target: Option<string>, d: Desk, ids: seq<int>, replies: nat -> Reply,
                                           i: nat)
    requires Batch(d.queue, ids) && i < |ids|
    ensures Row(Pass(c, target, d, ids, replies).0.queue, ids[i]) ==
            RowAfter(d.queue[ids[i]], AttemptAt(c, target, d, ids, replies, i), replies(i).markedAt)
    ensures forall id | id !in ids :: Row(Pass(c, target, d, ids, replies).0.queue, id) == Row(d.queue, id)
    decreases |ids|
  {
    var n := |ids| - 1;
    LastItemSettles(c, target, d, ids, replies);
    if i < n {
      EachItemSettles(c, target, d, ids[..n], replies, i);
      SameAttempt(c, target, d, ids, replies, n, i);
      assert ids[i] != ids[n];
    }
  }

  lemma SameAttempt(c: BridgeConfig, target: Option<string>, d: Desk, ids: seq<int>, replies: nat -> Reply, n: nat, i: nat)
    requires Batch(d.queue, ids) && i < n <= |ids|
    ensures Batch(d.queue, ids[..n])
    ensures AttemptAt(c, target, d, ids[..n], replies, i) == AttemptAt(c, target, d, ids, replies, i)
  {
    BatchPrefix(d.queue, ids, n);
    assert ids[..n][..i] == ids[..i];
  }

  /** The count returned is the number of rows deleted. */
  lemma {:induction false} PushedCountsDeletions(c: BridgeConfig, target: Option<string>, d: Desk, ids: seq<int>, replies: nat -> Reply)
    requires Batch(d.queue, ids)
    ensures var (after, pushed) := Pass(c, target, d, ids, replies); |after.queue| + pushed == |d.queue|
    decreases |ids|
  {
    if ids != [] {
      var n := |ids| - 1;
      BatchPrefix(d.queue, ids, n);
      PushedCountsDeletions(c, target, d, ids[..n], replies);
      var before := Pass(c, target, d, ids[..n], replies).0;
      assert Row(before.queue, ids[n]) == Row(d.queue, ids[n]);
      SizeAfter(before.queue, ids[n], Attempted(c, target, before, before.queue[ids[n]], replies(n)), replies(n).markedAt);
    }
  }

  lemma SizeAfter(queue: map<int, Item>, id: int, attempt: Attempt, at: int)
    requires id in queue
    ensures |QueueAfter(queue, id, attempt, at)| == |queue| - (if attempt.Published? then 1 else 0)
  {
    var after := QueueAfter(queue, id, attempt, at);
    assert after.Keys == if attempt.Published? then queue.Keys - {id} else queue.Keys;
  }

  // ----- What the tables refer to -----

  /** Every row of the queue and every foreign id is that of a stored message. */
  ghost predicate Referring(d: Desk) {
    && (forall id | id in d.queue :: d.queue[id].messageId in d.documents)
    && (forall document | document in d.foreign :: document in d.documents)
  }

  lemma SettledRefers(c: BridgeConfig, target: Option<string>, d: Desk, id: int, reply: Reply)
    requires Referring(d) && id in d.queue
    ensures Referring(Settled(c, d, id, Attempted(c, target, d, d.queue[id], reply), reply))
  {
  }

  // ----- The gateway -----

  class Gateway {
    const config: BridgeConfig
    var queue: map<int, Item>
    var letters: seq<Letter>
    var foreign: map<string, Link>
    var breakers: map<string, BreakerState>
    var documents: set<string>
    var nextId: int
    ghost var reports: map<string, seq<Report>>

    function State(): Desk
      reads this
    {
      Desk(queue, letters, foreign, breakers, documents)
    }

    /** Every breaker is in the state that the reports made to it leave it in, and what the queue and the foreign ids
        refer to is stored. */
    ghost predicate Valid()
      reads this
    {
      && breakers.Keys == reports.Keys
      && (forall a | a in breakers :: a in reports && breakers[a] == StateOf(config.breaker, reports[a]))
      && (forall id | id in queue :: id < nextId)
      && Referring(State())
    }

    constructor (config: BridgeConfig, documents: set<string>)
      ensures Valid() && this.config == config && queue == map[] && foreign == map[] && this.documents == documents
      ensures breakers.Keys == config.adapters && forall a | a in reports :: reports[a] == []
    {
      this.config := config;
      this.documents := documents;
      queue, letters, foreign, nextId := map[], [], map[], 1;
      breakers := map a | a in config.adapters :: BreakerState([], 0);
      reports := map a | a in config.adapters :: [];
    }

    /** The archive stores a message. */
    method InsertMessage(id: string)
      requires Valid()
      modifies this`documents
      ensures Valid() && documents == old(documents) + {id}
    {
      documents := documents + {id};
    }

    /** A row for a message the archive has not stored is refused. */
    method Enqueue(adapterId: string, messageId: string, availableAt: int) returns (ok: bool)
      requires Valid()
      modifies this`queue, this`nextId
      ensures Valid() && old(nextId) !in old(queue)
      ensures ok <==> messageId in documents
      ensures queue == if ok then old(queue)[old(nextId) := Item(adapterId, messageId, 0, availableAt, None, Queued)]
                       else old(queue)
    {
      if messageId !in documents { return false; }
      queue := queue[nextId := Item(adapterId, messageId, 0, availableAt, None, Queued)];
      nextId := nextId + 1;
      return true;
    }

    method RecordSuccess(adapterId: string, now: int)
      requires Valid()
      modifies this`breakers, this`reports
      ensures Valid() && breakers == Reported(config, old(breakers), adapterId, Report(true, now))
    {
      if adapterId !in breakers { return; }
      var state := breakers[adapterId];
      ReportRefines(config.breaker, reports[adapterId], Report(true, now));
      var outcomes := state.outcomes + [true];
      if |outcomes| > 100 { outcomes := outcomes[1..]; }
      breakers := breakers[adapterId := state.(outcomes := outcomes)];
      reports := reports[adapterId := reports[adapterId] + [Report(true, now)]];
    }

    method RecordFailure(adapterId: string, now: int)
      requires Valid()
      modifies this`breakers, this`reports
      ensures Valid() && breakers == Reported(config, old(breakers), adapterId, Report(false, now))
    {
      if adapterId !in breakers { return; }
      ReportRefines(config.breaker, reports[adapterId], Report(false, now));
      var state := PushFailure(config.breaker, breakers[adapterId], now);
      breakers := breakers[adapterId := state];
      reports := reports[adapterId := reports[adapterId] + [Report(false, now)]];
    }

    /** Open exactly while some failure reported less than a cool-down ago had tripped the breaker. */
    method IsBreakerOpen(adapterId: string, now: int) returns (open: bool)
      requires Valid()
      ensures open == IsOpen(breakers, adapterId, now)
      ensures adapterId in reports && Monotone(reports[adapterId], now) && now >= 0 ==>
                (open <==> exists i :: 0 <= i < |reports[adapterId]| && Trips(config.breaker, reports[adapterId], i) &&
                                       now - reports[adapterId][i].at < config.breaker.coolDownMs)
    {
      if adapterId in breakers {
        if Monotone(reports[adapterId], now) && now >= 0 {
          PausedExactly(config.breaker, reports[adapterId], |reports[adapterId]|, now);
        }
        return breakers[adapterId].pausedUntil > now;
      }
      return false;
    }

    method Mark(id: int, attempt: Attempt, at: int)
      requires id in queue && !attempt.Skipped?
      modifies this`queue
      ensures queue == QueueAfter(old(queue), id, attempt, at)
    {
      if attempt.Published? {
        queue := queue - {id};
        return;
      }
      var item := queue[id];
      queue := queue[id := item.(status := Failed, attempts := item.attempts + 1, lastError := Some(ReasonOf(attempt)),
                                 availableAt := at)];
    }

    method Deliver(id: int, item: Item, document: string, foreignId: string, reply: Reply)
      requires Valid() && id in queue && queue[id] == item && document in documents
      modifies this
      ensures Valid() && State() == Settled(config, old(State()), id, Published(document, foreignId), reply)
    {
      foreign := foreign[document := Link(item.adapterId, foreignId)];
      Mark(id, Published(document, foreignId), reply.markedAt);
      RecordSuccess(item.adapterId, reply.recordedAt);
    }

    method Refuse(id: int, item: Item, reason: string, reply: Reply)
      requires Valid() && id in queue && queue[id] == item
      modifies this
      ensures Valid() && State() == Settled(config, old(State()), id, Refused(reason), reply)
    {
      Mark(id, Refused(reason), reply.markedAt);
      letters := letters + [Letter(item.adapterId, item.messageId, reason, item.attempts + 1,
                                   reply.deadAt + config.breaker.coolDownMs, reply.createdAt)];
      RecordFailure(item.adapterId, reply.recordedAt);
    }

    method Lose(id: int, item: Item, reason: string, reply: Reply)
      requires Valid() && id in queue && queue[id] == item
      modifies this
      ensures Valid() && State() == Settled(config, old(State()), id, Lost(reason), reply)
    {
      Mark(id, Lost(reason), reply.markedAt);
    }

    method Miss(id: int, item: Item, reply: Reply)
      requires Valid() && id in queue && queue[id] == item
      modifies this
      ensures Valid() && State() == Settled(config, old(State()), id, Missing, reply)
    {
      Mark(id, Missing, reply.markedAt);
      RecordFailure(item.adapterId, reply.recordedAt);
    }

    method Handle(target: Option<string>, id: int, item: Item, reply: Reply) returns (published: bool)
      requires Valid() && id in queue && queue[id] == item
      modifies this
      ensures Valid()
      ensures var attempt := Attempted(config, target, old(State()), item, reply);
              State() == Settled(config, old(State()), id, attempt, reply) && published == attempt.Published?
    {
      if target.Some? && target.value != "" && target.value != item.adapterId { return false; }
      if item.adapterId !in config.adapters {
        Lose(id, item, "adapter-not-found", reply);
        return false;
      }
      var open := IsBreakerOpen(item.adapterId, reply.openAt);
      if open {
        Lose(id, item, "circuit-open", reply);
        return false;
      }
      if reply.message.None? {
        Miss(id, item, reply);
        return false;
      }
      if reply.published.Failure? {
        Refuse(id, item, reply.published.error, reply);
        return false;
      }
      if reply.message.value !in documents {
        Refuse(id, item, FOREIGN_KEY, reply);
        return false;
      }
      Deliver(id, item, reply.message.value, reply.published.value, reply);
      return true;
    }

    method HandleNext(target: Option<string>, ghost d: Desk, ids: seq<int>, replies: nat -> Reply, i: nat, item: Item,
                      ghost pushed: nat) returns (published: bool)
      requires Valid() && Batch(d.queue, ids) && i < |ids| && Batch(d.queue, ids[..i]) && Batch(d.queue, ids[..i + 1])
      requires (State(), pushed) == Pass(config, target, d, ids[..i], replies) && item == d.queue[ids[i]]
      modifies this
      ensures Valid()
      ensures (State(), if published then pushed + 1 else pushed) == Pass(config, target, d, ids[..i + 1], replies)
    {
      PassUnfolds(config, target, d, ids, replies, i);
      published := Handle(target, ids[i], item, replies(i));
    }

    method SyncBatch(target: Option<string>, ids: seq<int>, replies: nat -> Reply) returns (pushed: nat)
      requires Valid() && Batch(queue, ids)
      modifies this
      ensures Valid()
      ensures (State(), pushed) == Pass(config, target, old(State()), ids, replies)
    {
      ghost var d := State();
      var rows := queue;
      pushed := 0;
      var i := 0;
      assert ids[..0] == [];
      while i < |ids|
        invariant i <= |ids| && Valid() && Batch(d.queue, ids[..i])
        invariant (State(), pushed) == Pass(config, target, d, ids[..i], replies)
      {
        PassUnfolds(config, target, d, ids, replies, i);
        var published := HandleNext(target, d, ids, replies, i, rows[ids[i]], pushed);
        if published { pushed := pushed + 1; }
        i := i + 1;
      }
      assert ids[..i] == ids;
    }

    /** One synchronization: a pass over the rows due; what it returns is the number of rows it deleted. */
    method SyncOnce(target: Option<string>, now: int, replies: nat -> Reply) returns (pushed: nat)
      requires Valid()
      modifies this
      ensures Valid()
      ensures (State(), pushed) ==
              Pass(config, target, old(State()), Dequeued(old(queue), now, config.batchSize), replies)
      ensures |queue| + pushed == |old(queue)|
    {
      var ids := Dequeued(queue, now, config.batchSize);
      ghost var d := State();
      pushed := SyncBatch(target, ids, replies);
      PushedCountsDeletions(config, target, d, ids, replies);
    }
  }

  method PushFailure(c: BreakerConfig, state: BreakerState, now: int) returns (next: BreakerState)
    ensures next == WithReport(c, state, Report(false, now))
  {
    var outcomes := state.outcomes + [false];
    if |outcomes| > 100 { outcomes := outcomes[1..]; }
    var failures := CountFailures(outcomes);
    next := state.(outcomes := outcomes);
    if failures as real / |outcomes| as real > c.threshold {
      next := next.(pausedUntil := now + c.coolDownMs);
    }
  }

  method CountFailures(outcomes: seq<bool>) returns (failures: nat)
    ensures failures == Failures(outcomes)
  {
    failures := 0;
    var i := 0;
    while i < |outcomes|
      invariant i <= |outcomes| && failures + Failures(outcomes[i..]) == Failures(outcomes)
    {
      assert outcomes[i..][1..] == outcomes[i + 1..];
      if !outcomes[i] { failures := failures + 1; }
      i := i + 1;
    }
  }
}
