/** Catching up page by page, as the limit on one sync's range makes it necessary: it comes to one sync of the whole. */
module PagedSync {
  import opened Wrappers
  import opened Archive
  import opened LogShape
  import opened Sync
  import opened Convergence

  // ----- One range in two parts -----

  /** The clock of a part that starts at row `k`. */
  function From(clock: nat -> int, k: nat): nat -> int {
    (j: nat) => clock(k + j)
  }

  /** The part holds the rows of the range from row `k` on. */
  predicate PartOf(range: seq<Raw>, k: nat, part: seq<Raw>) {
    k + |part| <= |range| && forall j | 0 <= j < |part| :: part[j] == range[k + j]
  }

  predicate SameSoFar(p: Progress, q: Progress) {
    p.tables == q.tables && p.error == q.error
  }

  /** What the part's first `j` rows do to an archive that `k` rows of the range have brought this far is what the rows
      up to `i` of the range do. */
  lemma {:induction false} AfterSplits(d: Digests, l: Tables, peer: Peer, range: seq<Raw>, clock: nat -> int, k: nat,
                                       part: seq<Raw>, t: Tables, j: nat, i: nat)
    requires PartOf(range, k, part) && j <= |part| && i == k + j
    requires SameSoFar(After(d, l, peer, range, clock, k), Progress(t, 0, 0, 0, None))
    ensures SameSoFar(After(d, l, peer, range, clock, i), After(d, t, peer, part, From(clock, k), j))
  {
    if j > 0 {
      AfterSplits(d, l, peer, range, clock, k, part, t, j - 1, i - 1);
      SplitsFurther(d, l, peer, range, clock, k, part, t, j - 1, i - 1,
                    After(d, l, peer, range, clock, i - 1), After(d, t, peer, part, From(clock, k), j - 1));
    }
  }

  lemma SplitsFurther(d: Digests, l: Tables, peer: Peer, range: seq<Raw>, clock: nat -> int, k: nat, part: seq<Raw>, t: Tables,
                      j: nat, i: nat, p: Progress, q: Progress)
    requires PartOf(range, k, part) && j < |part| && i == k + j
    requires p == After(d, l, peer, range, clock, i) && q == After(d, t, peer, part, From(clock, k), j) && SameSoFar(p, q)
    ensures SameSoFar(After(d, l, peer, range, clock, i + 1), After(d, t, peer, part, From(clock, k), j + 1))
  {
    AfterNext(d, l, peer, range, clock, i);
    AfterNext(d, t, peer, part, From(clock, k), j);
    SameRow(range, clock, k, part, j, i);
    SameNext(d, p, q, peer, range[i], clock(i));
  }

  lemma SameRow(range: seq<Raw>, clock: nat -> int, k: nat, part: seq<Raw>, j: nat, i: nat)
    requires PartOf(range, k, part) && j < |part| && i == k + j
    ensures part[j] == range[i] && From(clock, k)(j) == clock(i)
  {
  }

  lemma SameNext(d: Digests, p: Progress, q: Progress, peer: Peer, raw: Raw, now: int)
    requires SameSoFar(p, q)
    ensures SameSoFar(Next(d, p, peer, raw, now), Next(d, q, peer, raw, now))
  {
  }

  // ----- Pages -----

  /** How far into the peer's log the page after row `k` reaches. */
  function PageEnd(size: nat, k: nat, limit: nat): (end: nat)
    requires k <= size
    ensures k <= end <= size
  {
    if k + limit > size then size else k + limit
  }

  /** And how far `n` pages reach. */
  function Reach(size: nat, limit: nat, n: nat): (end: nat)
    ensures end <= size
  {
    if n == 0 then 0 else PageEnd(size, Reach(size, limit, n - 1), limit)
  }

  /** A sync that goes on from row `k`; `clock` says when the message of each row would arrive. */
  function SyncPage(d: Digests, r: Tables, t: Tables, k: nat, limit: nat, scope: Scope, clock: nat -> int):
    (Tables, Result<SyncResult, StoreError>)
  {
    SyncWith(d, t, PeerOf(d, r), k, limit, scope, From(clock, k))
  }

  /** Sync after sync with one peer, each from where the one before stopped. */
  ghost predicate Paged(d: Digests, l: Tables, r: Tables, limit: nat, scope: Scope, clock: nat -> int, states: seq<Tables>) {
    && |states| > 0 && states[0] == l
    && forall n | 0 <= n < |states| - 1 ::
         states[n + 1] == SyncPage(d, r, states[n], Reach(|r.log|, limit, n), limit, scope, clock).0
  }

  predicate RootsAgree(d: Digests, t: Tables, r: Tables, scope: Scope) {
    MerkleRootOf(d, t, scope) == MerkleRootOf(d, r, scope)
  }

  /** None of the first `n` syncs finds the roots agreed already. */
  ghost predicate Apart(d: Digests, r: Tables, scope: Scope, states: seq<Tables>, n: nat)
    requires n <= |states|
  {
    forall j | 0 <= j < n :: !RootsAgree(d, states[j], r, scope)
  }

  ghost predicate PagedApart(d: Digests, l: Tables, r: Tables, limit: nat, scope: Scope, clock: nat -> int, states: seq<Tables>) {
    && |states| > 0 && states[0] == l
    && forall n | 0 <= n < |states| - 1 ::
         states[n + 1] == SyncPage(d, r, states[n], Reach(|r.log|, limit, n), limit, scope, clock).0 &&
         MerkleRootOf(d, states[n], scope) != MerkleRootOf(d, r, scope)
  }

  /** The rows that one page asks for. */
  lemma PageRange(d: Digests, r: Tables, k: nat, limit: nat, end: nat) returns (range: seq<Raw>)
    requires k <= |r.log| && end == PageEnd(|r.log|, k, limit)
    ensures range == PeerOf(d, r).getSyncRange(k, limit) && PartOf(AllToWire(r.log), k, range) && end == k + |range|
  {
    range := PeerOf(d, r).getSyncRange(k, limit);
    assert GetSyncRange(r, k, limit) == r.log[k..end];
  }

  lemma SyncIs(d: Digests, t: Tables, peer: Peer, cursor: int, limit: int, scope: Scope, clock: nat -> int, range: seq<Raw>,
               p: Progress)
    requires MerkleRootOf(d, t, scope) != peer.root(scope) && range == peer.getSyncRange(cursor, limit)
    requires p == After(d, t, peer, range, clock, |range|)
    ensures var (after, result) := SyncWith(d, t, peer, cursor, limit, scope, clock);
            after == p.tables && (if p.error.Some? then result == Failure(p.error.value) else result.Success?)
  {
  }

  /** What one sync of the whole log has made of the archive by row `k`. */
  function Whole(d: Digests, l: Tables, r: Tables, clock: nat -> int, k: nat): Progress
    requires k <= |r.log|
  {
    After(d, l, PeerOf(d, r), AllToWire(r.log), clock, k)
  }

  /** One page takes the archive from what one sync has made of it by row `k` to what it makes of it by the page's end;
      and it fails exactly where that sync does. */
  lemma OnePage(d: Digests, l: Tables, r: Tables, t: Tables, k: nat, end: nat, limit: nat, scope: Scope, clock: nat -> int,
                before: Progress, whole: Progress)
    requires k <= |r.log| && end == PageEnd(|r.log|, k, limit) && MerkleRootOf(d, t, scope) != MerkleRootOf(d, r, scope)
    requires before == Whole(d, l, r, clock, k) && whole == Whole(d, l, r, clock, end)
    requires before.error.None? && before.tables == t
    ensures var (after, result) := SyncPage(d, r, t, k, limit, scope, clock);
            after == whole.tables && (if whole.error.Some? then result == Failure(whole.error.value) else result.Success?)
  {
    var peer := PeerOf(d, r);
    var range := PageRange(d, r, k, limit, end);
    AfterSplits(d, l, peer, AllToWire(r.log), clock, k, range, t, |range|, end);
    SyncIs(d, t, peer, k, limit, scope, From(clock, k), range, After(d, t, peer, range, From(clock, k), |range|));
  }

  lemma PagedAt(d: Digests, l: Tables, r: Tables, limit: nat, scope: Scope, clock: nat -> int, states: seq<Tables>, n: nat,
                k: nat, t: Tables, after: Tables)
    requires PagedApart(d, l, r, limit, scope, clock, states) && 0 < n < |states| && k == Reach(|r.log|, limit, n - 1)
    requires t == states[n - 1] && after == states[n]
    ensures after == SyncPage(d, r, t, k, limit, scope, clock).0
    ensures MerkleRootOf(d, t, scope) != MerkleRootOf(d, r, scope)
  {
    var i := n - 1;
    assert states[i + 1] == after;
  }

  lemma NextPage(d: Digests, l: Tables, r: Tables, limit: nat, scope: Scope, clock: nat -> int, states: seq<Tables>, n: nat,
                 k: nat, end: nat)
    requires PagedApart(d, l, r, limit, scope, clock, states) && 0 < n < |states|
    requires k == Reach(|r.log|, limit, n - 1) && end == PageEnd(|r.log|, k, limit)
    requires Whole(d, l, r, clock, k).error.None? && states[n - 1] == Whole(d, l, r, clock, k).tables
    ensures states[n] == Whole(d, l, r, clock, end).tables
  {
    PagedAt(d, l, r, limit, scope, clock, states, n, k, states[n - 1], states[n]);
    OnePage(d, l, r, states[n - 1], k, end, limit, scope, clock, Whole(d, l, r, clock, k), Whole(d, l, r, clock, end));
  }

  lemma NoPage(d: Digests, l: Tables, r: Tables, clock: nat -> int, end: nat)
    requires end == 0
    ensures Whole(d, l, r, clock, end).tables == l
  {
  }

  /** As long as one sync of the whole log meets no error, the pages do to the archive what it does. */
  ghost predicate OneSyncAt(d: Digests, l: Tables, r: Tables, limit: nat, clock: nat -> int, t: Tables, n: nat) {
    var whole := Whole(d, l, r, clock, Reach(|r.log|, limit, n));
    whole.error.None? ==> t == whole.tables
  }

  lemma OneSyncNext(d: Digests, l: Tables, r: Tables, limit: nat, scope: Scope, clock: nat -> int, states: seq<Tables>, n: nat,
                    k: nat, end: nat)
    requires PagedApart(d, l, r, limit, scope, clock, states) && 0 < n < |states|
    requires k == Reach(|r.log|, limit, n - 1) && end == Reach(|r.log|, limit, n)
    requires Whole(d, l, r, clock, k).error.None? ==> states[n - 1] == Whole(d, l, r, clock, k).tables
    ensures Whole(d, l, r, clock, end).error.None? ==> states[n] == Whole(d, l, r, clock, end).tables
  {
    assert end == PageEnd(|r.log|, k, limit);
    if Whole(d, l, r, clock, end).error.None? {
      NoErrorEarlier(d, l, r, clock, k, end);
      NextPage(d, l, r, limit, scope, clock, states, n, k, end);
    }
  }

  lemma {:induction false} Induction(p: nat -> bool, n: nat)
    requires p(0) && forall i: nat | i < n && p(i) :: p(i + 1)
    ensures p(n)
  {
    if n > 0 { Induction(p, n - 1); }
  }

  ghost function OneSync(d: Digests, l: Tables, r: Tables, limit: nat, clock: nat -> int, states: seq<Tables>): nat -> bool {
    (n: nat) => n < |states| ==> OneSyncAt(d, l, r, limit, clock, states[n], n)
  }

  lemma OneSyncStarts(d: Digests, l: Tables, r: Tables, limit: nat, clock: nat -> int, states: seq<Tables>)
    requires |states| > 0 && states[0] == l
    ensures OneSync(d, l, r, limit, clock, states)(0)
  {
    NoPage(d, l, r, clock, Reach(|r.log|, limit, 0));
  }

  lemma OneSyncStep(d: Digests, l: Tables, r: Tables, limit: nat, scope: Scope, clock: nat -> int, states: seq<Tables>, n: nat)
    requires PagedApart(d, l, r, limit, scope, clock, states) && n > 0 && OneSync(d, l, r, limit, clock, states)(n - 1)
    ensures OneSync(d, l, r, limit, clock, states)(n)
  {
    if n < |states| {
      OneSyncNext(d, l, r, limit, scope, clock, states, n, Reach(|r.log|, limit, n - 1), Reach(|r.log|, limit, n));
    }
  }

  lemma OneSyncSteps(d: Digests, l: Tables, r: Tables, limit: nat, scope: Scope, clock: nat -> int, states: seq<Tables>, n: nat)
    requires PagedApart(d, l, r, limit, scope, clock, states)
    ensures forall i: nat | i < n && OneSync(d, l, r, limit, clock, states)(i) :: OneSync(d, l, r, limit, clock, states)(i + 1)
  {
    forall i: nat | i < n && OneSync(d, l, r, limit, clock, states)(i) ensures OneSync(d, l, r, limit, clock, states)(i + 1) {
      OneSyncStep(d, l, r, limit, scope, clock, states, i + 1);
    }
  }

  lemma PagesAreOneSync(d: Digests, l: Tables, r: Tables, limit: nat, scope: Scope, clock: nat -> int, states: seq<Tables>, n: nat)
    requires PagedApart(d, l, r, limit, scope, clock, states) && n < |states|
    ensures OneSyncAt(d, l, r, limit, clock, states[n], n)
  {
    OneSyncStarts(d, l, r, limit, clock, states);
    OneSyncSteps(d, l, r, limit, scope, clock, states, n);
    Induction(OneSync(d, l, r, limit, clock, states), n);
    assert OneSync(d, l, r, limit, clock, states)(n);
  }

  lemma NoErrorEarlier(d: Digests, l: Tables, r: Tables, clock: nat -> int, j: nat, k: nat)
    requires j <= k <= |r.log| && Whole(d, l, r, clock, k).error.None?
    ensures Whole(d, l, r, clock, j).error.None?
  {
    if Whole(d, l, r, clock, j).error.Some? { ErrorSticks(d, l, PeerOf(d, r), AllToWire(r.log), clock, j, k); }
  }

  /** Enough pages reach the end: as many as hold the whole log. */
  lemma {:induction false} ReachIs(size: nat, limit: nat, n: nat)
    ensures Reach(size, limit, n) == if n * limit > size then size else n * limit
  {
    if n > 0 {
      ReachIs(size, limit, n - 1);
      assert n * limit == (n - 1) * limit + limit;
    }
  }

  /** What one sync of the peer's whole log comes to. */
  lemma WholeSync(d: Digests, l: Tables, r: Tables, clock: nat -> int, whole: Progress)
    requires SoundPeer(d, r) && Consistent(d, l) && Behind(l, r) && BodiesAgree(l, r)
    requires whole == Whole(d, l, r, clock, |r.log|)
    ensures if ReferencesArrive(l, r, |r.log|) then whole.error.None? && Agrees(d, whole.tables, r)
            else whole.error == Some(UnknownReference)
  {
    PeerOfServes(d, r, 0, -1);
    if ReferencesArrive(l, r, |r.log|) {
      WholeLogComesIn(d, l, r, PeerOf(d, r), clock);
      AgreementFollows(d, whole.tables, r);
    } else {
      BreaksOff(d, l, r, PeerOf(d, r), AllToWire(r.log), clock);
    }
  }

  // ----- Where the pages end -----

  lemma ApartPrefix(d: Digests, l: Tables, r: Tables, limit: nat, scope: Scope, clock: nat -> int, states: seq<Tables>, n: nat)
    requires Paged(d, l, r, limit, scope, clock, states) && n < |states| && Apart(d, r, scope, states, n)
    ensures PagedApart(d, l, r, limit, scope, clock, states[..n + 1])
  {
    var some := states[..n + 1];
    forall j | 0 <= j < |some| - 1
      ensures some[j + 1] == SyncPage(d, r, some[j], Reach(|r.log|, limit, j), limit, scope, clock).0
      ensures MerkleRootOf(d, some[j], scope) != MerkleRootOf(d, r, scope)
    {
      assert some[j] == states[j] && some[j + 1] == states[j + 1] && !RootsAgree(d, states[j], r, scope);
    }
  }

  /** Until the roots agree the pages do to the archive what one sync of the whole log does. */
  lemma ApartIsOneSync(d: Digests, l: Tables, r: Tables, limit: nat, scope: Scope, clock: nat -> int, states: seq<Tables>, n: nat)
    requires Paged(d, l, r, limit, scope, clock, states) && n < |states| && Apart(d, r, scope, states, n)
    ensures OneSyncAt(d, l, r, limit, clock, states[n], n)
  {
    ApartPrefix(d, l, r, limit, scope, clock, states, n);
    PagesAreOneSync(d, l, r, limit, scope, clock, states[..n + 1], n);
  }

  lemma {:induction false} FirstOf(p: nat -> bool, n: nat) returns (j: nat)
    ensures j <= n && (forall i: nat | i < j :: !p(i)) && (j < n ==> p(j))
  {
    if n == 0 {
      j := 0;
    } else {
      j := FirstOf(p, n - 1);
      if j == n - 1 && !p(j) { j := n; }
    }
  }

  lemma FirstAgreed(d: Digests, r: Tables, scope: Scope, states: seq<Tables>, n: nat) returns (j: nat)
    requires n <= |states|
    ensures j <= n && Apart(d, r, scope, states, j) && (j < n ==> RootsAgree(d, states[j], r, scope))
  {
    var agreed := (i: nat) => i < |states| && RootsAgree(d, states[i], r, scope);
    j := FirstOf(agreed, n);
    forall i | 0 <= i < j ensures !RootsAgree(d, states[i], r, scope) { assert !agreed(i); }
    if j < n { assert agreed(j); }
  }

  lemma AgreedSyncStops(d: Digests, r: Tables, t: Tables, k: nat, limit: nat, scope: Scope, clock: nat -> int)
    requires RootsAgree(d, t, r, scope)
    ensures SyncPage(d, r, t, k, limit, scope, clock).0 == t
  {
  }

  /** Once the roots agree, nothing more comes in. */
  lemma {:induction false} StopsThere(d: Digests, l: Tables, r: Tables, limit: nat, scope: Scope, clock: nat -> int,
                                      states: seq<Tables>, j: nat, n: nat)
    requires Paged(d, l, r, limit, scope, clock, states) && j <= n < |states| && RootsAgree(d, states[j], r, scope)
    ensures states[n] == states[j]
  {
    if j < n {
      var i := n - 1;
      StopsThere(d, l, r, limit, scope, clock, states, j, i);
      AgreedSyncStops(d, r, states[i], Reach(|r.log|, limit, i), limit, scope, clock);
      assert states[i + 1] == states[i];
    }
  }

  lemma WholeCatchesUp(d: Digests, l: Tables, r: Tables, clock: nat -> int, k: nat, whole: Progress)
    requires SoundPeer(d, r) && Consistent(d, l) && Behind(l, r) && BodiesAgree(l, r)
    requires k <= |r.log| && ReferencesArrive(l, r, k) && whole == Whole(d, l, r, clock, k)
    ensures whole.error.None? && CaughtUp(d, l, r, whole.tables, k)
  {
    PeerOfServes(d, r, 0, -1);
    CleanTo(d, l, r, k, PeerOf(d, r), clock);
  }

  lemma AgreesAtEnd(d: Digests, l: Tables, r: Tables, t: Tables, k: nat)
    requires SoundPeer(d, r) && Behind(l, r) && CaughtUpAt(d, l, r, t, k) && k == |r.log|
    ensures Agrees(d, t, r)
  {
    CaughtUpWithAll(d, l, r, t);
    AgreementFollows(d, t, r);
  }

  ghost predicate CaughtUpAt(d: Digests, l: Tables, r: Tables, t: Tables, k: nat) {
    k <= |r.log| && CaughtUp(d, l, r, t, k)
  }

  /** Up to the first page that finds the roots agreed, the pages bring in the peer's rows one after the other. */
  lemma ApartCatchesUp(d: Digests, l: Tables, r: Tables, limit: nat, scope: Scope, clock: nat -> int, states: seq<Tables>,
                       n: nat, k: nat, t: Tables)
    requires SoundPeer(d, r) && Consistent(d, l) && Behind(l, r) && BodiesAgree(l, r)
    requires Paged(d, l, r, limit, scope, clock, states) && n < |states| && Apart(d, r, scope, states, n)
    requires k == Reach(|r.log|, limit, n) && ReferencesArrive(l, r, k) && t == states[n]
    ensures CaughtUpAt(d, l, r, t, k)
  {
    ApartIsOneSync(d, l, r, limit, scope, clock, states, n);
    WholeCatchesUp(d, l, r, clock, k, Whole(d, l, r, clock, k));
  }

  lemma ArriveEarlier(l: Tables, r: Tables, a: nat, b: nat)
    requires a <= b <= |r.log| && ReferencesArrive(l, r, b)
    ensures ReferencesArrive(l, r, a)
  {
  }

  /** With any limit, once the pages hold the whole log and every message that comes in finds the one it names: up to
      the first page that finds the roots agreed, if there is one, the peer's rows have come in one after the other,
      and from then on none does. Without one the archives agree; with one, the rows past it that the node did not
      have are left out. */
  lemma PagesConverge(d: Digests, l: Tables, r: Tables, limit: nat, scope: Scope, clock: nat -> int, states: seq<Tables>,
                      pages: nat) returns (j: nat)
    requires SoundPeer(d, r) && Consistent(d, l) && Behind(l, r) && BodiesAgree(l, r) && ReferencesArrive(l, r, |r.log|)
    requires Reach(|r.log|, limit, pages) == |r.log| && |states| == pages + 1 && Paged(d, l, r, limit, scope, clock, states)
    ensures j <= pages && Apart(d, r, scope, states, j) && (j < pages ==> RootsAgree(d, states[j], r, scope))
    ensures CaughtUpAt(d, l, r, states[pages], Reach(|r.log|, limit, j))
    ensures Reach(|r.log|, limit, j) == |r.log| ==> Agrees(d, states[pages], r)
  {
    j := FirstAgreed(d, r, scope, states, pages);
    var k := Reach(|r.log|, limit, j);
    ArriveEarlier(l, r, k, |r.log|);
    ApartCatchesUp(d, l, r, limit, scope, clock, states, j, k, states[j]);
    if j < pages { StopsThere(d, l, r, limit, scope, clock, states, j, pages); }
    if k == |r.log| { AgreesAtEnd(d, l, r, states[pages], k); }
  }

  // ----- Where they break off -----

  lemma {:induction false} FirstPageWithError(d: Digests, l: Tables, r: Tables, limit: nat, clock: nat -> int, n: nat, end: nat)
    returns (i: nat, k: nat, next: nat)
    requires end == Reach(|r.log|, limit, n) && Whole(d, l, r, clock, end).error.Some?
    ensures i < n && k == Reach(|r.log|, limit, i) && next == Reach(|r.log|, limit, i + 1)
    ensures Whole(d, l, r, clock, k).error.None? && Whole(d, l, r, clock, next).error.Some?
    decreases n
  {
    i, k, next := n - 1, Reach(|r.log|, limit, n - 1), end;
    if Whole(d, l, r, clock, k).error.Some? { i, k, next := FirstPageWithError(d, l, r, limit, clock, i, k); }
  }

  lemma ErrorAtEnd(d: Digests, l: Tables, r: Tables, clock: nat -> int, end: nat)
    requires SoundPeer(d, r) && Consistent(d, l) && Behind(l, r) && BodiesAgree(l, r)
    requires end == |r.log| && !ReferencesArrive(l, r, end)
    ensures Whole(d, l, r, clock, end).error == Some(UnknownReference)
  {
    WholeSync(d, l, r, clock, Whole(d, l, r, clock, end));
  }

  lemma ErrorStays(d: Digests, l: Tables, r: Tables, clock: nat -> int, k: nat, end: nat)
    requires k <= end <= |r.log| && Whole(d, l, r, clock, k).error.Some?
    ensures Whole(d, l, r, clock, end).error == Whole(d, l, r, clock, k).error
  {
    ErrorSticks(d, l, PeerOf(d, r), AllToWire(r.log), clock, k, end);
  }

  lemma PageFails(d: Digests, l: Tables, r: Tables, limit: nat, scope: Scope, clock: nat -> int, t: Tables, k: nat, next: nat)
    requires k <= |r.log| && next == PageEnd(|r.log|, k, limit) && MerkleRootOf(d, t, scope) != MerkleRootOf(d, r, scope)
    requires Whole(d, l, r, clock, k).error.None? && t == Whole(d, l, r, clock, k).tables
    requires Whole(d, l, r, clock, next).error == Some(UnknownReference)
    ensures SyncPage(d, r, t, k, limit, scope, clock).1 == Failure(UnknownReference)
  {
    OnePage(d, l, r, t, k, next, limit, scope, clock, Whole(d, l, r, clock, k), Whole(d, l, r, clock, next));
  }

  ghost predicate Struck(d: Digests, l: Tables, r: Tables, limit: nat, clock: nat -> int, n: nat, k: nat, next: nat) {
    && k == Reach(|r.log|, limit, n) && next == PageEnd(|r.log|, k, limit)
    && Whole(d, l, r, clock, k).error.None? && Whole(d, l, r, clock, next).error == Some(UnknownReference)
  }

  /** The page on which the foreign key strikes. */
  lemma StruckPage(d: Digests, l: Tables, r: Tables, limit: nat, clock: nat -> int, pages: nat)
    returns (n: nat, k: nat, next: nat)
    requires SoundPeer(d, r) && Consistent(d, l) && Behind(l, r) && BodiesAgree(l, r)
    requires Reach(|r.log|, limit, pages) == |r.log| && !ReferencesArrive(l, r, |r.log|)
    ensures n < pages && Struck(d, l, r, limit, clock, n, k, next)
  {
    var last := Reach(|r.log|, limit, pages);
    ErrorAtEnd(d, l, r, clock, last);
    n, k, next := FirstPageWithError(d, l, r, limit, clock, pages, last);
    ErrorStays(d, l, r, clock, next, last);
  }

  /** The sync finds the roots agreed, or the foreign key breaks it off. */
  ghost predicate EndsAt(d: Digests, r: Tables, limit: nat, scope: Scope, clock: nat -> int, t: Tables, n: nat) {
    RootsAgree(d, t, r, scope) ||
    SyncPage(d, r, t, Reach(|r.log|, limit, n), limit, scope, clock).1 == Failure(UnknownReference)
  }

  /** And no sync before it finds the roots agreed. */
  ghost predicate FirstEnd(d: Digests, r: Tables, limit: nat, scope: Scope, clock: nat -> int, states: seq<Tables>, n: nat) {
    n < |states| && Apart(d, r, scope, states, n) && EndsAt(d, r, limit, scope, clock, states[n], n)
  }

  lemma AgreedEnds(d: Digests, r: Tables, limit: nat, scope: Scope, clock: nat -> int, t: Tables, n: nat)
    requires RootsAgree(d, t, r, scope)
    ensures EndsAt(d, r, limit, scope, clock, t, n)
  {
  }

  lemma StruckEnds(d: Digests, l: Tables, r: Tables, limit: nat, scope: Scope, clock: nat -> int, states: seq<Tables>,
                   n: nat, k: nat, next: nat)
    requires Paged(d, l, r, limit, scope, clock, states) && n < |states| && Apart(d, r, scope, states, n)
    requires Struck(d, l, r, limit, clock, n, k, next)
    ensures EndsAt(d, r, limit, scope, clock, states[n], n)
  {
    if !RootsAgree(d, states[n], r, scope) {
      ApartIsOneSync(d, l, r, limit, scope, clock, states, n);
      PageFails(d, l, r, limit, scope, clock, states[n], k, next);
    }
  }

  lemma StruckOrAgreed(d: Digests, l: Tables, r: Tables, limit: nat, scope: Scope, clock: nat -> int, states: seq<Tables>,
                       p: nat, k: nat, next: nat) returns (n: nat)
    requires Paged(d, l, r, limit, scope, clock, states) && p < |states| && Struck(d, l, r, limit, clock, p, k, next)
    ensures n <= p && FirstEnd(d, r, limit, scope, clock, states, n)
  {
    var first := FirstAgreed(d, r, scope, states, p);
    if first < p {
      n := first;
      AgreedEnds(d, r, limit, scope, clock, states[n], n);
    } else {
      n := p;
      StruckEnds(d, l, r, limit, scope, clock, states, n, k, next);
    }
  }

  /** Otherwise there is a page that breaks off, unless one before it finds the roots agreed. */
  lemma SomePageBreaksOff(d: Digests, l: Tables, r: Tables, limit: nat, scope: Scope, clock: nat -> int, states: seq<Tables>,
                          pages: nat) returns (n: nat)
    requires SoundPeer(d, r) && Consistent(d, l) && Behind(l, r) && BodiesAgree(l, r) && !ReferencesArrive(l, r, |r.log|)
    requires Reach(|r.log|, limit, pages) == |r.log| && |states| == pages + 1 && Paged(d, l, r, limit, scope, clock, states)
    ensures n < pages && FirstEnd(d, r, limit, scope, clock, states, n)
  {
    var p, k, next := StruckPage(d, l, r, limit, clock, pages);
    n := StruckOrAgreed(d, l, r, limit, scope, clock, states, p, k, next);
  }

  // ----- One sync from the start, whatever its limit -----

  lemma {:induction false} AfterPrefix(d: Digests, t: Tables, peer: Peer, part: seq<Raw>, range: seq<Raw>, clock: nat -> int, j: nat)
    requires PartOf(range, 0, part) && j <= |part|
    ensures After(d, t, peer, part, clock, j) == After(d, t, peer, range, clock, j)
  {
    if j > 0 {
      AfterPrefix(d, t, peer, part, range, clock, j - 1);
      assert part[j - 1] == range[0 + (j - 1)];
    }
  }

  lemma StaysStuck(d: Digests, l: Tables, peer: Peer, all: seq<Raw>, clock: nat -> int, m: nat, n: nat, next: Progress)
    requires m <= n <= |all| && next == After(d, l, peer, all, clock, m) && next.error.Some?
    ensures After(d, l, peer, all, clock, n).tables == next.tables
  {
    ErrorSticks(d, l, peer, all, clock, m, n);
  }

  lemma StuckAt(d: Digests, l: Tables, r: Tables, peer: Peer, clock: nat -> int, all: seq<Raw>, k: nat, m: nat, before: Progress,
                next: Progress)
    requires Serves(peer, r) && SoundPeer(d, r) && k < |r.log| && all == AllToWire(r.log) && !Arrives(l, r, k) && m == k + 1
    requires before == After(d, l, peer, all, clock, k) && Clean(d, l, r, before, k) && next == After(d, l, peer, all, clock, m)
    ensures next.error.Some? && next.tables == before.tables
  {
    NextIs(d, l, peer, all, clock, k, before, next);
    NextBreaksOff(d, l, r, peer, before, k, all[k], clock(k), next);
  }

  lemma NextIs(d: Digests, l: Tables, peer: Peer, all: seq<Raw>, clock: nat -> int, k: nat, before: Progress, next: Progress)
    requires k < |all| && before == After(d, l, peer, all, clock, k) && next == After(d, l, peer, all, clock, k + 1)
    ensures next == Next(d, before, peer, all[k], clock(k))
  {
    AfterNext(d, l, peer, all, clock, k);
  }

  lemma NextBreaksOff(d: Digests, l: Tables, r: Tables, peer: Peer, before: Progress, k: nat, raw: Raw, now: int, next: Progress)
    requires Serves(peer, r) && SoundPeer(d, r) && k < |r.log| && Clean(d, l, r, before, k) && !Arrives(l, r, k)
    requires raw == ToWire(r.log[k]) && next == Next(d, before, peer, raw, now)
    ensures next.error.Some? && next.tables == before.tables
  {
    BreaksOffAt(d, l, r, peer, before, k, now);
  }

  lemma StuckWhole(d: Digests, l: Tables, r: Tables, peer: Peer, clock: nat -> int, all: seq<Raw>, k: nat, m: nat, n: nat,
                   before: Progress, next: Progress, whole: Progress)
    requires Serves(peer, r) && SoundPeer(d, r) && k < n <= |r.log| && all == AllToWire(r.log) && !Arrives(l, r, k) && m == k + 1
    requires before == After(d, l, peer, all, clock, k) && Clean(d, l, r, before, k)
    requires next == After(d, l, peer, all, clock, m) && whole == After(d, l, peer, all, clock, n)
    ensures whole.tables == before.tables
  {
    StuckAt(d, l, r, peer, clock, all, k, m, before, next);
    StaysStuck(d, l, peer, all, clock, m, n, next);
  }

  lemma StuckReaches(d: Digests, l: Tables, r: Tables, peer: Peer, clock: nat -> int, all: seq<Raw>, k: nat, m: nat, n: nat,
                     whole: Progress)
    requires Serves(peer, r) && SoundPeer(d, r) && Consistent(d, l) && Behind(l, r) && BodiesAgree(l, r) && all == AllToWire(r.log)
    requires k < n <= |r.log| && m == k + 1 && ReferencesArrive(l, r, k) && !Arrives(l, r, k)
    requires whole == After(d, l, peer, all, clock, n)
    ensures CaughtUpAt(d, l, r, whole.tables, k)
  {
    CleanTo(d, l, r, k, peer, clock);
    StuckWhole(d, l, r, peer, clock, all, k, m, n, After(d, l, peer, all, clock, k), After(d, l, peer, all, clock, m), whole);
  }

  /** As many of the peer's rows as references let in are in, and nothing else has changed. */
  lemma WholeReaches(d: Digests, l: Tables, r: Tables, clock: nat -> int, n: nat, whole: Progress) returns (k: nat)
    requires SoundPeer(d, r) && Consistent(d, l) && Behind(l, r) && BodiesAgree(l, r)
    requires n <= |r.log| && whole == Whole(d, l, r, clock, n)
    ensures k <= n && CaughtUpAt(d, l, r, whole.tables, k)
  {
    if ReferencesArrive(l, r, n) {
      k := n;
      WholeCatchesUp(d, l, r, clock, n, whole);
    } else {
      k := FirstMissing(l, r, n);
      PeerOfServes(d, r, 0, -1);
      StuckReaches(d, l, r, PeerOf(d, r), clock, AllToWire(r.log), k, k + 1, n, whole);
    }
  }

  lemma FirstRange(d: Digests, r: Tables, cursor: int, limit: int) returns (range: seq<Raw>)
    requires cursor <= 0
    ensures range == PeerOf(d, r).getSyncRange(cursor, limit) && PartOf(AllToWire(r.log), 0, range)
  {
    range := PeerOf(d, r).getSyncRange(cursor, limit);
    var rows := GetSyncRange(r, cursor, limit);
    assert |rows| <= |r.log| && rows == r.log[..|rows|];
  }

  /** Whatever its limit, and whether it goes through, breaks off or finds nothing to do, a sync from the start of the
      log leaves the node with the peer's rows up to some row and with what it had. */
  lemma SyncReaches(d: Digests, l: Tables, r: Tables, cursor: int, limit: int, scope: Scope, clock: nat -> int) returns (k: nat)
    requires SoundPeer(d, r) && Consistent(d, l) && Behind(l, r) && BodiesAgree(l, r) && cursor <= 0
    ensures CaughtUpAt(d, l, r, SyncWith(d, l, PeerOf(d, r), cursor, limit, scope, clock).0, k)
  {
    var peer := PeerOf(d, r);
    if MerkleRootOf(d, l, scope) == peer.root(scope) {
      k := 0;
      CaughtUpAtStart(d, l, r);
    } else {
      var range := FirstRange(d, r, cursor, limit);
      AfterPrefix(d, l, peer, range, AllToWire(r.log), clock, |range|);
      SyncIs(d, l, peer, cursor, limit, scope, clock, range, After(d, l, peer, range, clock, |range|));
      k := WholeReaches(d, l, r, clock, |range|, Whole(d, l, r, clock, |range|));
    }
  }
}
