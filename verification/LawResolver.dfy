/** The pipeline's time-limited cache of resolved laws. */
module LawResolver {
  import opened Wrappers
  import opened Archive
  import opened Law

  const LAW_TYPES: seq<string> := [
    "appointment", "classification", "routing", "admission", "protocol", "regulation", "access_control",
    "detection_rule"]

  /** A cached answer, which may be that there is no law. Times are milliseconds. */
  datatype Entry = Entry(value: Option<ResolvedLaw>, expiresAtMs: int)

  /** Keyed by law type only: the moment asked about is not part of the key. */
  type Cache = map<string, Entry>

  /** `AmbiguousLaw` is the rethrown 'ambiguous-law'. */
  datatype Lookup = Resolved(law: Option<ResolvedLaw>) | AmbiguousLaw

  predicate Hit(cache: Cache, lawType: string, nowMs: int) {
    lawType in cache && cache[lawType].expiresAtMs > nowMs
  }

  function Ask(edicts: EdictIndex, lawType: string, at: int): Lookup {
    match GetCurrentLaw(edicts, lawType, at)
    case Missing => Resolved(None)
    case Ambiguous => AmbiguousLaw
    case Found(law) => Resolved(Some(law))
  }

  function LookUp(edicts: EdictIndex, ttlMs: int, cache: Cache, lawType: string, at: int, nowMs: int): Lookup {
    if Hit(cache, lawType, nowMs) then Resolved(cache[lawType].value) else Ask(edicts, lawType, at)
  }

  /** A miss is cached, unless it was ambiguous. */
  function CacheAfter(edicts: EdictIndex, ttlMs: int, cache: Cache, lawType: string, at: int, nowMs: int): Cache {
    if Hit(cache, lawType, nowMs) then cache
    else match Ask(edicts, lawType, at)
      case Resolved(law) => cache[lawType := Entry(law, nowMs + ttlMs)]
      case AmbiguousLaw => cache
  }

  function Invalidated(cache: Cache, lawType: Option<string>): Cache {
    match lawType
    case None => map[]
    case Some(l) => cache - {l}
  }

  // ----- Coherence -----

  /** One call of `get`: what it asked for and when. */
  datatype Call = Call(lawType: string, at: int, nowMs: int)

  /** The value is the present law as of the moment that some call, made `ttl` before the entry expires, asked about. */
  ghost predicate EntryCoherent(edicts: EdictIndex, ttlMs: int, history: set<Call>, lawType: string, e: Entry) {
    exists c :: c in history && c.lawType == lawType && e.expiresAtMs == c.nowMs + ttlMs &&
                Ask(edicts, lawType, c.at) == Resolved(e.value)
  }

  ghost predicate Coherent(edicts: EdictIndex, ttlMs: int, history: set<Call>, cache: Cache) {
    forall l | l in cache :: EntryCoherent(edicts, ttlMs, history, l, cache[l])
  }

  /** The answer is the present law as of a moment that some recorded call asked about. */
  ghost predicate Justified(edicts: EdictIndex, history: set<Call>, lawType: string, law: Option<ResolvedLaw>) {
    exists c :: c in history && c.lawType == lawType && Ask(edicts, lawType, c.at) == Resolved(law)
  }

  /** An answer is justified, an ambiguity is present. */
  ghost predicate Sound(edicts: EdictIndex, history: set<Call>, lawType: string, at: int, r: Lookup) {
    if r.Resolved? then Justified(edicts, history, lawType, r.law) else Ask(edicts, lawType, at) == AmbiguousLaw
  }

  lemma JustifiedLonger(edicts: EdictIndex, history: set<Call>, more: set<Call>, laws: map<string, Option<ResolvedLaw>>)
    requires history <= more && forall l | l in laws :: Justified(edicts, history, l, laws[l])
    ensures forall l | l in laws :: Justified(edicts, more, l, laws[l])
  {
    forall l | l in laws ensures Justified(edicts, more, l, laws[l]) {
      var c :| c in history && c.lawType == l && Ask(edicts, l, c.at) == Resolved(laws[l]);
      assert c in more;
    }
  }

  lemma LookUpKeepsCoherent(edicts: EdictIndex, ttlMs: int, history: set<Call>, cache: Cache, lawType: string, at: int, nowMs: int)
    requires Coherent(edicts, ttlMs, history, cache)
    ensures Coherent(edicts, ttlMs, history + {Call(lawType, at, nowMs)},
                     CacheAfter(edicts, ttlMs, cache, lawType, at, nowMs))
  {
    var call := Call(lawType, at, nowMs);
    var after, more := CacheAfter(edicts, ttlMs, cache, lawType, at, nowMs), history + {call};
    forall l | l in after ensures EntryCoherent(edicts, ttlMs, more, l, after[l]) {
      if l == lawType && !Hit(cache, lawType, nowMs) && Ask(edicts, lawType, at).Resolved? {
        assert call in more;
      } else {
        var c :| c in history && c.lawType == l && cache[l].expiresAtMs == c.nowMs + ttlMs &&
                 Ask(edicts, l, c.at) == Resolved(cache[l].value);
        assert c in more;
      }
    }
  }

  /** What a coherent cache answers: the present law as of a moment asked about less than a lifetime ago, which
      is this call's own moment unless the cache was hit; and it says ambiguous only when the law is. */
  lemma LookUpIsRecentLaw(edicts: EdictIndex, ttlMs: int, history: set<Call>, cache: Cache, lawType: string, at: int, nowMs: int)
    requires Coherent(edicts, ttlMs, history, cache)
    ensures exists c :: c in history + {Call(lawType, at, nowMs)} && c.lawType == lawType &&
              LookUp(edicts, ttlMs, cache, lawType, at, nowMs) == Ask(edicts, lawType, c.at) &&
              (c == Call(lawType, at, nowMs) || nowMs < c.nowMs + ttlMs)
    ensures !Hit(cache, lawType, nowMs) || LookUp(edicts, ttlMs, cache, lawType, at, nowMs) == AmbiguousLaw ==>
              LookUp(edicts, ttlMs, cache, lawType, at, nowMs) == Ask(edicts, lawType, at)
  {
    if Hit(cache, lawType, nowMs) {
      var e := cache[lawType];
      var c :| c in history && c.lawType == lawType && e.expiresAtMs == c.nowMs + ttlMs &&
               Ask(edicts, lawType, c.at) == Resolved(e.value);
      assert c in history + {Call(lawType, at, nowMs)};
    } else {
      assert Call(lawType, at, nowMs) in history + {Call(lawType, at, nowMs)};
    }
  }

  lemma LookUpJustified(edicts: EdictIndex, ttlMs: int, history: set<Call>, cache: Cache, lawType: string, at: int, nowMs: int)
    requires Coherent(edicts, ttlMs, history, cache)
    ensures Sound(edicts, history + {Call(lawType, at, nowMs)}, lawType, at, LookUp(edicts, ttlMs, cache, lawType, at, nowMs))
  {
    LookUpIsRecentLaw(edicts, ttlMs, history, cache, lawType, at, nowMs);
  }

  lemma InvalidatedKeepsCoherent(edicts: EdictIndex, ttlMs: int, history: set<Call>, cache: Cache, lawType: Option<string>)
    requires Coherent(edicts, ttlMs, history, cache)
    ensures Coherent(edicts, ttlMs, history, Invalidated(cache, lawType))
  {
    var after := Invalidated(cache, lawType);
    forall l | l in after ensures EntryCoherent(edicts, ttlMs, history, l, after[l]) {
      assert EntryCoherent(edicts, ttlMs, history, l, cache[l]);
    }
  }

  /** Which entries the pipeline drops after archiving an edict with the given `law_type`. */
  function DropFor(lawType: Option<string>): Option<string> {
    if lawType.Some? && lawType.value in LAW_TYPES then lawType else None
  }

  lemma KnownLawTypes(t: string)
    ensures t in LAW_TYPES <==> t in {"appointment", "classification", "routing", "admission", "protocol", "regulation",
                                      "access_control", "detection_rule"}
  {
    forall i | 0 <= i < |LAW_TYPES| ensures LAW_TYPES[i] in LAW_TYPES { }
    assert LAW_TYPES[0] == "appointment" && LAW_TYPES[1] == "classification" && LAW_TYPES[2] == "routing" &&
           LAW_TYPES[3] == "admission" && LAW_TYPES[4] == "protocol" && LAW_TYPES[5] == "regulation" &&
           LAW_TYPES[6] == "access_control" && LAW_TYPES[7] == "detection_rule";
  }

  /** Archiving an edict of a known law type drops the answer about that type; one of any other type, or of none, drops all
      of them. */
  lemma DroppedExactly(cache: Cache, lawType: Option<string>)
    ensures Invalidated(cache, DropFor(lawType)) ==
            if lawType.Some? && lawType.value in {"appointment", "classification", "routing", "admission", "protocol", "regulation",
                                                  "access_control", "detection_rule"}
            then cache - {lawType.value} else map[]
  {
    if lawType.Some? { KnownLawTypes(lawType.value); }
  }

  /** Indexing an edict of one type and dropping what the pipeline drops for it keeps every other answer current. */
  lemma ArchivingKeepsCoherent(edicts: EdictIndex, ttlMs: int, history: set<Call>, cache: Cache, id: string, row: EdictRow)
    requires Coherent(edicts, ttlMs, history, cache)
    requires id in edicts ==> edicts[id].lawType == row.lawType
    ensures Coherent(edicts[id := row], ttlMs, history, Invalidated(cache, DropFor(Some(row.lawType))))
  {
    var after := Invalidated(cache, DropFor(Some(row.lawType)));
    forall l | l in after ensures EntryCoherent(edicts[id := row], ttlMs, history, l, after[l]) {
      assert l != row.lawType && after[l] == cache[l];
      EntryOutlives(edicts, ttlMs, history, l, cache[l], id, row);
    }
  }

  lemma EntryOutlives(edicts: EdictIndex, ttlMs: int, history: set<Call>, l: string, e: Entry, id: string, row: EdictRow)
    requires EntryCoherent(edicts, ttlMs, history, l, e) && l != row.lawType
    requires id in edicts ==> edicts[id].lawType == row.lawType
    ensures EntryCoherent(edicts[id := row], ttlMs, history, l, e)
  {
    var c :| c in history && c.lawType == l && e.expiresAtMs == c.nowMs + ttlMs &&
             Ask(edicts, l, c.at) == Resolved(e.value);
    OtherAnswersStay(edicts, id, row, l, c.at);
  }

  lemma OtherAnswersStay(edicts: EdictIndex, id: string, row: EdictRow, l: string, at: int)
    requires l != row.lawType
    requires id in edicts ==> edicts[id].lawType == row.lawType
    ensures Ask(edicts[id := row], l, at) == Ask(edicts, l, at)
  {
    OtherEdictsDoNotMatter(edicts, id, row, l, at);
  }

  // ----- Indexing an edict without dropping an answer -----

  /** The answer that the index gives about the edict's type at a moment once it holds the edict, read off the index
      that does not: until the edict takes effect the present one, and from then on what it leaves of that. */
  predicate AnswersWith(edicts: EdictIndex, id: string, row: EdictRow, at: int, value: Option<ResolvedLaw>) {
    if at < row.effectiveDate then Ask(edicts, row.lawType, at) == Resolved(value)
    else match value
      case None => NoneWith(edicts, id, row, at)
      case Some(law) =>
        law.messageId in edicts && law == Resolve(edicts, law.messageId) && PrevailsWith(edicts, id, row, at, law.messageId)
  }

  lemma AddedAnswerExactly(edicts: EdictIndex, id: string, row: EdictRow, at: int, value: Option<ResolvedLaw>)
    requires id !in edicts && (value.Some? ==> value.value.messageId != id)
    ensures Ask(edicts[id := row], row.lawType, at) == Resolved(value) <==> AnswersWith(edicts, id, row, at, value)
  {
    if at < row.effectiveDate {
      OtherEdictsDoNotMatter(edicts, id, row, row.lawType, at);
    } else {
      match value
      case None => AddedMissingExactly(edicts, id, row, at);
      case Some(law) =>
        if Ask(edicts[id := row], row.lawType, at) == Resolved(value) { FoundIsIndexed(edicts[id := row], row.lawType, at); }
        if law.messageId in edicts { AddedFoundExactly(edicts, id, row, at, law.messageId); }
    }
  }

  /** The call may be the one whose answer the entry keeps. */
  predicate MayHaveKept(c: Call, lawType: string, ttlMs: int, e: Entry) {
    c.lawType == lawType && e.expiresAtMs == c.nowMs + ttlMs
  }

  /** No answer about the edict's type is cached, or the one that is would still be given for some call that may have
      kept it. */
  predicate Unharmed(edicts: EdictIndex, ttlMs: int, history: set<Call>, cache: Cache, id: string, row: EdictRow) {
    row.lawType in cache ==>
      exists c | c in history :: MayHaveKept(c, row.lawType, ttlMs, cache[row.lawType]) &&
                                 AnswersWith(edicts, id, row, c.at, cache[row.lawType].value)
  }

  lemma AnswerIsIndexed(edicts: EdictIndex, lawType: string, at: int, law: ResolvedLaw)
    requires Ask(edicts, lawType, at) == Resolved(Some(law))
    ensures law.messageId in edicts
  {
    FoundIsIndexed(edicts, lawType, at);
  }

  lemma CachedIsIndexed(edicts: EdictIndex, ttlMs: int, history: set<Call>, lawType: string, e: Entry)
    requires EntryCoherent(edicts, ttlMs, history, lawType, e) && e.value.Some?
    ensures e.value.value.messageId in edicts
  {
    var c :| c in history && c.lawType == lawType && e.expiresAtMs == c.nowMs + ttlMs && Ask(edicts, lawType, c.at) == Resolved(e.value);
    AnswerIsIndexed(edicts, lawType, c.at, e.value.value);
  }

  lemma EntryUnharmedExactly(edicts: EdictIndex, ttlMs: int, history: set<Call>, cache: Cache, id: string, row: EdictRow)
    requires row.lawType in cache && id !in edicts && EntryCoherent(edicts, ttlMs, history, row.lawType, cache[row.lawType])
    ensures EntryCoherent(edicts[id := row], ttlMs, history, row.lawType, cache[row.lawType]) <==>
            Unharmed(edicts, ttlMs, history, cache, id, row)
  {
    var e := cache[row.lawType];
    if e.value.Some? { CachedIsIndexed(edicts, ttlMs, history, row.lawType, e); }
    forall c | c in history
      ensures Ask(edicts[id := row], row.lawType, c.at) == Resolved(e.value) <==> AnswersWith(edicts, id, row, c.at, e.value)
    {
      AddedAnswerExactly(edicts, id, row, c.at, e.value);
    }
  }

  /** Whoever indexes a new edict and drops no answer leaves the cache coherent exactly if it is unharmed. */
  lemma IndexedCacheExactly(edicts: EdictIndex, ttlMs: int, history: set<Call>, cache: Cache, id: string, row: EdictRow)
    requires Coherent(edicts, ttlMs, history, cache) && id !in edicts
    ensures Coherent(edicts[id := row], ttlMs, history, cache) <==> Unharmed(edicts, ttlMs, history, cache, id, row)
  {
    if row.lawType in cache {
      assert EntryCoherent(edicts, ttlMs, history, row.lawType, cache[row.lawType]);
      EntryUnharmedExactly(edicts, ttlMs, history, cache, id, row);
    }
    if Unharmed(edicts, ttlMs, history, cache, id, row) {
      forall l | l in cache ensures EntryCoherent(edicts[id := row], ttlMs, history, l, cache[l]) {
        assert EntryCoherent(edicts, ttlMs, history, l, cache[l]);
        if l != row.lawType { EntryOutlives(edicts, ttlMs, history, l, cache[l], id, row); }
      }
    }
  }

  /** For the first edict of its type: a cached answer that there is none stays good exactly if some call that may have
      kept it asked about a moment before the edict takes effect. */
  lemma FirstEdictUnharmedExactly(edicts: EdictIndex, ttlMs: int, history: set<Call>, cache: Cache, id: string, row: EdictRow)
    requires Coherent(edicts, ttlMs, history, cache) && row.lawType in cache && row.supersededEdictId != Some(id)
    requires forall x | x in edicts :: edicts[x].lawType != row.lawType
    ensures Unharmed(edicts, ttlMs, history, cache, id, row) <==>
            exists c | c in history :: MayHaveKept(c, row.lawType, ttlMs, cache[row.lawType]) && c.at < row.effectiveDate
  {
    var e := cache[row.lawType];
    assert EntryCoherent(edicts, ttlMs, history, row.lawType, e);
    forall at ensures Ask(edicts, row.lawType, at) == Resolved(None) {
      assert Candidates(edicts, row.lawType, at) == {};
      MissingExactly(edicts, row.lawType, at);
    }
    assert e.value == None;
    forall c | c in history ensures AnswersWith(edicts, id, row, c.at, None) <==> c.at < row.effectiveDate { }
  }

  // ----- The moment asked about -----

  /** The law found, or the absence of one, at `a` is the same at the later moment `b`: nothing that takes effect in
      between disturbs it. */
  predicate SettledBetween(edicts: EdictIndex, lawType: string, a: int, b: int) {
    match GetCurrentLaw(edicts, lawType, a)
    case Ambiguous => false
    case Missing => forall id | id in edicts :: TakesEffect(edicts[id], lawType, a, b) ==> Superseded(edicts, id, lawType, b)
    case Found(law) =>
      FoundIsIndexed(edicts, lawType, a);
      Undisturbed(edicts, lawType, a, b, law.messageId)
  }

  /** One answer serves two moments exactly when it is settled from the earlier to the later. */
  lemma SameAnswerExactly(edicts: EdictIndex, lawType: string, a: int, b: int)
    requires a <= b && Ask(edicts, lawType, a).Resolved?
    ensures Ask(edicts, lawType, a) == Ask(edicts, lawType, b) <==> SettledBetween(edicts, lawType, a, b)
  {
    match GetCurrentLaw(edicts, lawType, a)
    case Missing => StillMissingExactly(edicts, lawType, a, b);
    case Found(law) =>
      FoundIsIndexed(edicts, lawType, a);
      SameLawExactly(edicts, lawType, a, b, law.messageId);
  }

  predicate SettledFor(edicts: EdictIndex, lawType: string, x: int, y: int) {
    if x <= y then SettledBetween(edicts, lawType, x, y) else SettledBetween(edicts, lawType, y, x)
  }

  /** The call's entry may still be alive. */
  predicate Live(c: Call, lawType: string, ttlMs: int, nowMs: int) {
    c.lawType == lawType && nowMs < c.nowMs + ttlMs
  }

  /** A hit answers with the law at the moment asked about exactly when that law is settled between this moment and
      the one of the live call whose answer was kept. */
  lemma HitIsExactly(edicts: EdictIndex, ttlMs: int, history: set<Call>, cache: Cache, lawType: string, at: int, nowMs: int)
    returns (kept: Call)
    requires Coherent(edicts, ttlMs, history, cache) && Hit(cache, lawType, nowMs)
    ensures kept in history && Live(kept, lawType, ttlMs, nowMs)
    ensures LookUp(edicts, ttlMs, cache, lawType, at, nowMs) == Ask(edicts, lawType, kept.at)
    ensures LookUp(edicts, ttlMs, cache, lawType, at, nowMs) == Ask(edicts, lawType, at) <==>
              SettledFor(edicts, lawType, kept.at, at)
  {
    kept := KeptCall(edicts, ttlMs, history, cache, lawType, nowMs);
    if kept.at <= at {
      SameAnswerExactly(edicts, lawType, kept.at, at);
    } else if Ask(edicts, lawType, at).Resolved? {
      SameAnswerExactly(edicts, lawType, at, kept.at);
    }
  }

  lemma KeptCall(edicts: EdictIndex, ttlMs: int, history: set<Call>, cache: Cache, lawType: string, nowMs: int) returns (kept: Call)
    requires Coherent(edicts, ttlMs, history, cache) && Hit(cache, lawType, nowMs)
    ensures kept in history && Live(kept, lawType, ttlMs, nowMs)
    ensures Ask(edicts, lawType, kept.at) == Resolved(cache[lawType].value)
  {
    var e := cache[lawType];
    assert EntryCoherent(edicts, ttlMs, history, lawType, e);
    kept :| kept in history && kept.lawType == lawType && e.expiresAtMs == kept.nowMs + ttlMs &&
            Ask(edicts, lawType, kept.at) == Resolved(e.value);
  }

  /** So while the law is settled between the moment asked about and that of every live call, hit or miss, the
      answer is the law at that moment. */
  lemma SettledLookUpIsExact(edicts: EdictIndex, ttlMs: int, history: set<Call>, cache: Cache, lawType: string, at: int, nowMs: int)
    requires Coherent(edicts, ttlMs, history, cache)
    requires forall c | c in history && Live(c, lawType, ttlMs, nowMs) :: SettledFor(edicts, lawType, c.at, at)
    ensures LookUp(edicts, ttlMs, cache, lawType, at, nowMs) == Ask(edicts, lawType, at)
  {
    if Hit(cache, lawType, nowMs) {
      var kept := HitIsExactly(edicts, ttlMs, history, cache, lawType, at, nowMs);
    }
  }

  /** But a hit may answer with a law that was not yet in force at the moment asked about. */
  lemma HitIgnoresMoment()
    ensures exists edicts: EdictIndex, cache: Cache ::
              cache == CacheAfter(edicts, 60000, map[], "routing", 5, 1000) &&
              LookUp(edicts, 60000, cache, "routing", 1, 2000) != Ask(edicts, "routing", 1)
  {
    var row := EdictRow("routing", "1.0.0", "{}", 0, 3, None, 2);
    var edicts: EdictIndex := map["e" := row];
    assert edicts["e"] == row;
    assert "e" in Candidates(edicts, "routing", 5);
    MissingExactly(edicts, "routing", 5);
    assert Candidates(edicts, "routing", 1) == {};
    MissingExactly(edicts, "routing", 1);
    assert UniqueBest(edicts, "routing", 5, "e");
    FoundExactly(edicts, "routing", 5, "e");
    var cache := CacheAfter(edicts, 60000, map[], "routing", 5, 1000);
    assert LookUp(edicts, 60000, cache, "routing", 1, 2000) == Resolved(Some(Resolve(edicts, "e")));
  }

  // ----- The resolver -----

  class Resolver {
    const archive: Store
    const ttlMs: int
    const preloadTypes: seq<string>
    var cache: Cache
    ghost var history: set<Call>

    constructor (archive: Store, cacheTtlSeconds: int, preloadTypes: seq<string>)
      ensures this.archive == archive && ttlMs == cacheTtlSeconds * 1000 && this.preloadTypes == preloadTypes
      ensures cache == map[] && history == {}
    {
      this.archive := archive;
      this.ttlMs := cacheTtlSeconds * 1000;
      this.preloadTypes := preloadTypes;
      cache := map[];
      history := {};
    }

    ghost predicate Valid()
      reads this, archive
    {
      Coherent(archive.edicts, ttlMs, history, cache)
    }

    method Get(lawType: string, at: int, nowMs: int) returns (r: Lookup)
      modifies this`cache, this`history
      ensures r == LookUp(archive.edicts, ttlMs, old(cache), lawType, at, nowMs)
      ensures cache == CacheAfter(archive.edicts, ttlMs, old(cache), lawType, at, nowMs)
      ensures history == old(history) + {Call(lawType, at, nowMs)}
      ensures old(Valid()) ==> Valid() && Sound(archive.edicts, history, lawType, at, r)
    {
      ghost var edicts, calls, before := archive.edicts, history, cache;
      history := history + {Call(lawType, at, nowMs)};
      if lawType in cache && cache[lawType].expiresAtMs > nowMs {
        r := Resolved(cache[lawType].value);
      } else {
        r := Ask(archive.edicts, lawType, at);
        if r.Resolved? {
          cache := cache[lawType := Entry(r.law, nowMs + ttlMs)];
        }
      }
      if Coherent(edicts, ttlMs, calls, before) {
        LookUpKeepsCoherent(edicts, ttlMs, calls, before, lawType, at, nowMs);
        LookUpJustified(edicts, ttlMs, calls, before, lawType, at, nowMs);
      }
    }

    method Invalidate(lawType: Option<string>)
      modifies this`cache
      ensures cache == Invalidated(old(cache), lawType)
      ensures old(Valid()) ==> Valid()
    {
      if Coherent(archive.edicts, ttlMs, history, cache) {
        InvalidatedKeepsCoherent(archive.edicts, ttlMs, history, cache, lawType);
      }
      match lawType {
        case None => cache := map[];
        case Some(l) => cache := cache - {l};
      }
    }

    /** Every answer of the set is the present law as of a recently asked moment; None when one is ambiguous. */
    method GetAll(types: seq<string>, at: int, clock: nat -> int) returns (laws: Option<map<string, Option<ResolvedLaw>>>)
      requires Valid()
      modifies this`cache, this`history
      ensures Valid() && old(history) <= history
      ensures laws.None? ==> exists l | l in types :: Ask(archive.edicts, l, at) == AmbiguousLaw
      ensures laws.Some? ==> laws.value.Keys == set l | l in types
      ensures laws.Some? ==> forall l | l in laws.value :: Justified(archive.edicts, history, l, laws.value[l])
    {
      var out: map<string, Option<ResolvedLaw>> := map[];
      var i := 0;
      while i < |types|
        invariant i <= |types| && Valid() && old(history) <= history
        invariant out.Keys == set l | l in types[..i]
        invariant forall l | l in out :: Justified(archive.edicts, history, l, out[l])
      {
        var l, nowMs := types[i], clock(i);
        ghost var calls := history;
        var r := Get(l, at, nowMs);
        JustifiedLonger(archive.edicts, calls, history, out);
        if r == AmbiguousLaw {
          assert l in types;
          return None;
        }
        assert types[..i + 1] == types[..i] + [l];
        out := out[l := r.law];
        i := i + 1;
      }
      assert types[..i] == types;
      return Some(out);
    }

    method GetLawSet(at: int, clock: nat -> int) returns (laws: Option<map<string, Option<ResolvedLaw>>>)
      requires Valid()
      modifies this`cache, this`history
      ensures Valid()
      ensures laws.None? ==> exists l | l in LAW_TYPES :: Ask(archive.edicts, l, at) == AmbiguousLaw
      ensures laws.Some? ==> laws.value.Keys == {"appointment", "classification", "routing", "admission", "protocol", "regulation",
                                                 "access_control", "detection_rule"}
      ensures laws.Some? ==> forall l | l in laws.value :: Justified(archive.edicts, history, l, laws.value[l])
    {
      laws := GetAll(LAW_TYPES, at, clock);
      forall t ensures t in LAW_TYPES <==> t in {"appointment", "classification", "routing", "admission", "protocol", "regulation",
                                                 "access_control", "detection_rule"} {
        KnownLawTypes(t);
      }
    }

    /** Warm the cache; None when an ambiguous law stops it. */
    method Preload(at: int, clock: nat -> int) returns (done: Option<()>)
      requires Valid()
      modifies this`cache, this`history
      ensures Valid()
      ensures done.None? ==> exists l | l in preloadTypes :: Ask(archive.edicts, l, at) == AmbiguousLaw
    {
      var laws := GetAll(preloadTypes, at, clock);
      done := if laws.Some? then Some(()) else None;
    }
  }
}
