/** Which edict is the law of its type at a moment. */
module Law {
  import opened Wrappers
  import opened Sorting
  import opened Ordering
  import opened Archive

  type EdictIndex = map<string, EdictRow>

  datatype ResolvedLaw = ResolvedLaw(
    messageId: string, lawType: string, version: string, content: string, precedence: int, effectiveDate: int,
    sealedAt: int)

  /** `Ambiguous` is the exception 'ambiguous-law'. */
  datatype Answer = Missing | Ambiguous | Found(law: ResolvedLaw)

  // ----- The query -----

  predicate Effective(row: EdictRow, lawType: string, at: int) {
    row.lawType == lawType && row.effectiveDate <= at
  }

  predicate Superseded(edicts: EdictIndex, id: string, lawType: string, at: int) {
    exists s | s in edicts :: Effective(edicts[s], lawType, at) && edicts[s].supersededEdictId == Some(id)
  }

  function Candidates(edicts: EdictIndex, lawType: string, at: int): set<string> {
    set id | id in edicts && Effective(edicts[id], lawType, at) && !Superseded(edicts, id, lawType, at)
  }

  datatype Key = Key(precedence: int, effectiveDate: int, sealedAt: int, id: string)

  function KeyOf(edicts: EdictIndex, id: string): Key
    requires id in edicts
  {
    Key(edicts[id].precedence, edicts[id].effectiveDate, edicts[id].sealedAt, id)
  }

  /** ORDER BY precedence DESC, effective_date DESC, sealed_at DESC, message_id DESC. */
  predicate Before(a: Key, b: Key) {
    if a.precedence != b.precedence then a.precedence > b.precedence
    else if a.effectiveDate != b.effectiveDate then a.effectiveDate > b.effectiveDate
    else if a.sealedAt != b.sealedAt then a.sealedAt > b.sealedAt
    else TextLeq(b.id, a.id)
  }

  lemma BeforeIsTotal()
    ensures TotalOrder(Before)
  {
    forall a, b ensures Before(a, b) || Before(b, a) { TextTotal(a.id, b.id); }
    forall a, b | Before(a, b) && Before(b, a) ensures a == b { TextTotal(a.id, b.id); }
    forall a, b, c | Before(a, b) && Before(b, c) ensures Before(a, c) { BeforeTransitive(a, b, c); }
  }

  lemma BeforeTransitive(a: Key, b: Key, c: Key)
    requires Before(a, b) && Before(b, c)
    ensures Before(a, c)
  {
    if a.precedence == b.precedence == c.precedence && a.effectiveDate == b.effectiveDate == c.effectiveDate &&
       a.sealedAt == b.sealedAt == c.sealedAt {
      TextTransitive(c.id, b.id, a.id);
    }
  }

  function Ranked(edicts: EdictIndex, lawType: string, at: int): seq<Key> {
    BeforeIsTotal();
    Ascending(Before, set id | id in edicts && id in Candidates(edicts, lawType, at) :: KeyOf(edicts, id))
  }

  function Resolve(edicts: EdictIndex, id: string): ResolvedLaw
    requires id in edicts
  {
    var e := edicts[id];
    ResolvedLaw(id, e.lawType, e.version, e.content, e.precedence, e.effectiveDate, e.sealedAt)
  }

  predicate SameRank(a: Key, b: Key) {
    a.precedence == b.precedence && a.effectiveDate == b.effectiveDate && a.sealedAt == b.sealedAt
  }

  /** The first two rows decide. */
  function GetCurrentLaw(edicts: EdictIndex, lawType: string, at: int): Answer {
    var ranked := Ranked(edicts, lawType, at);
    var rows := if |ranked| > 2 then ranked[..2] else ranked;
    if |rows| == 0 then Missing
    else if |rows| > 1 && SameRank(rows[0], rows[1]) then Ambiguous
    else
      BeforeIsTotal();
      assert rows[0] in ranked;
      Found(Resolve(edicts, rows[0].id))
  }

  // ----- What it decides -----

  /** `a` outranks `b` by precedence, then effective date, then sealed time. */
  predicate Outranks(a: Key, b: Key) {
    Before(a, b) && !SameRank(a, b)
  }

  ghost predicate UniqueBest(edicts: EdictIndex, lawType: string, at: int, best: string) {
    best in edicts && best in Candidates(edicts, lawType, at) &&
    forall id | id in Candidates(edicts, lawType, at) && id != best :: Outranks(KeyOf(edicts, best), KeyOf(edicts, id))
  }

  ghost predicate SharedBest(edicts: EdictIndex, lawType: string, at: int, a: string, b: string) {
    a != b && a in edicts && b in edicts &&
    a in Candidates(edicts, lawType, at) && b in Candidates(edicts, lawType, at) &&
    forall id | id in Candidates(edicts, lawType, at) ::
      !Outranks(KeyOf(edicts, id), KeyOf(edicts, a)) && !Outranks(KeyOf(edicts, id), KeyOf(edicts, b))
  }

  lemma RankedIs(edicts: EdictIndex, lawType: string, at: int)
    ensures var ranked := Ranked(edicts, lawType, at);
            (forall i | 0 <= i < |ranked| ::
               ranked[i].id in edicts && ranked[i].id in Candidates(edicts, lawType, at) &&
               ranked[i] == KeyOf(edicts, ranked[i].id)) &&
            (forall id | id in Candidates(edicts, lawType, at) ::
               id in edicts && exists i :: 0 <= i < |ranked| && ranked[i] == KeyOf(edicts, id)) &&
            (forall i, j | 0 <= i < j < |ranked| :: ranked[i] != ranked[j] && Before(ranked[i], ranked[j]))
  {
    BeforeIsTotal();
    var ranked := Ranked(edicts, lawType, at);
    forall i | 0 <= i < |ranked|
      ensures ranked[i].id in edicts && ranked[i].id in Candidates(edicts, lawType, at) &&
              ranked[i] == KeyOf(edicts, ranked[i].id)
    {
      assert ranked[i] in ranked;
    }
    forall id | id in Candidates(edicts, lawType, at)
      ensures id in edicts && exists i :: 0 <= i < |ranked| && ranked[i] == KeyOf(edicts, id)
    {
      assert KeyOf(edicts, id) in ranked;
    }
  }

  lemma FirstBeforeAll(edicts: EdictIndex, lawType: string, at: int, id: string)
    requires id in Candidates(edicts, lawType, at)
    ensures var ranked := Ranked(edicts, lawType, at);
            |ranked| > 0 && id in edicts &&
            (ranked[0] == KeyOf(edicts, id) ||
             (|ranked| > 1 && Before(ranked[0], ranked[1]) &&
              (ranked[1] == KeyOf(edicts, id) || Before(ranked[1], KeyOf(edicts, id)))))
  {
    RankedIs(edicts, lawType, at);
    var ranked := Ranked(edicts, lawType, at);
    var i :| 0 <= i < |ranked| && ranked[i] == KeyOf(edicts, id);
  }

  /** A law is missing exactly without candidates. */
  lemma MissingExactly(edicts: EdictIndex, lawType: string, at: int)
    ensures GetCurrentLaw(edicts, lawType, at) == Missing <==> Candidates(edicts, lawType, at) == {}
  {
    RankedIs(edicts, lawType, at);
    var ranked := Ranked(edicts, lawType, at);
    if |ranked| > 0 { assert ranked[0].id in Candidates(edicts, lawType, at); }
  }

  /** A law is found exactly when one candidate outranks all others, and that candidate is the law. */
  lemma FoundExactly(edicts: EdictIndex, lawType: string, at: int, best: string)
    requires best in edicts
    ensures GetCurrentLaw(edicts, lawType, at) == Found(Resolve(edicts, best)) <==> UniqueBest(edicts, lawType, at, best)
  {
    RankedIs(edicts, lawType, at);
    var ranked := Ranked(edicts, lawType, at);
    if UniqueBest(edicts, lawType, at, best) {
      FirstBeforeAll(edicts, lawType, at, best);
      assert ranked[0].id != best ==> Outranks(KeyOf(edicts, best), ranked[0]);
      if |ranked| > 1 { assert ranked[1].id != best; }
    }
    if GetCurrentLaw(edicts, lawType, at) == Found(Resolve(edicts, best)) {
      assert ranked[0] == KeyOf(edicts, best);
      forall id | id in Candidates(edicts, lawType, at) && id != best
        ensures Outranks(KeyOf(edicts, best), KeyOf(edicts, id))
      {
        FirstBeforeAll(edicts, lawType, at, id);
        OutranksFurther(ranked[0], ranked[1], KeyOf(edicts, id));
      }
    }
  }

  lemma OutranksFurther(a: Key, b: Key, c: Key)
    requires Outranks(a, b) && (b == c || Before(b, c))
    ensures Outranks(a, c)
  {
  }

  /** Resolution is ambiguous exactly when at least two candidates share the best rank. */
  lemma AmbiguousExactly(edicts: EdictIndex, lawType: string, at: int)
    ensures GetCurrentLaw(edicts, lawType, at) == Ambiguous <==> exists a, b :: SharedBest(edicts, lawType, at, a, b)
  {
    RankedIs(edicts, lawType, at);
    var ranked := Ranked(edicts, lawType, at);
    if GetCurrentLaw(edicts, lawType, at) == Ambiguous {
      var a, b := ranked[0].id, ranked[1].id;
      forall id | id in Candidates(edicts, lawType, at)
        ensures !Outranks(KeyOf(edicts, id), ranked[0]) && !Outranks(KeyOf(edicts, id), ranked[1])
      {
        FirstBeforeAll(edicts, lawType, at, id);
      }
      assert SharedBest(edicts, lawType, at, a, b);
    }
    if a, b :| SharedBest(edicts, lawType, at, a, b) {
      FirstBeforeAll(edicts, lawType, at, a);
      FirstBeforeAll(edicts, lawType, at, b);
      assert !Outranks(ranked[0], KeyOf(edicts, a)) && !Outranks(ranked[0], KeyOf(edicts, b));
    }
  }

  // ----- Never missing -----

  /** Every edict that supersedes another of its type was sealed after it. */
  ghost predicate SupersedesEarlier(edicts: EdictIndex) {
    forall s, e | s in edicts && e in edicts && edicts[s].supersededEdictId == Some(e) && edicts[s].lawType == edicts[e].lawType ::
      edicts[e].sealedAt < edicts[s].sealedAt
  }

  lemma {:induction false} LastSealed(edicts: EdictIndex, ids: set<string>) returns (last: string)
    requires ids != {} && forall id | id in ids :: id in edicts
    ensures last in ids && forall id | id in ids :: edicts[id].sealedAt <= edicts[last].sealedAt
    decreases |ids|
  {
    var a :| a in ids;
    if ids == {a} {
      last := a;
    } else {
      var other := LastSealed(edicts, ids - {a});
      last := if edicts[a].sealedAt >= edicts[other].sealedAt then a else other;
      forall id | id in ids ensures edicts[id].sealedAt <= edicts[last].sealedAt { assert id == a || id in ids - {a}; }
    }
  }

  /** Then a law type with an effective edict always has a candidate. */
  lemma EffectiveLawNeverMissing(edicts: EdictIndex, lawType: string, at: int)
    requires SupersedesEarlier(edicts)
    ensures GetCurrentLaw(edicts, lawType, at) == Missing <==> !exists id :: id in edicts && Effective(edicts[id], lawType, at)
  {
    MissingExactly(edicts, lawType, at);
    var effective := set id | id in edicts && Effective(edicts[id], lawType, at);
    if effective != {} {
      var last := LastSealed(edicts, effective);
      assert last in Candidates(edicts, lawType, at) by {
        forall s | s in edicts && Effective(edicts[s], lawType, at) ensures edicts[s].supersededEdictId != Some(last) {
          assert s in effective;
        }
      }
    }
  }

  /** Without that condition two edicts can take each other out of force. */
  lemma MutualSupersessionLeavesNone()
    ensures exists edicts: EdictIndex ::
              (forall id | id in edicts :: Effective(edicts[id], "routing", 5)) && |edicts| == 2 &&
              GetCurrentLaw(edicts, "routing", 5) == Missing
  {
    var a := EdictRow("routing", "1.0.0", "{}", 0, 1, Some("b"), 3);
    var b := EdictRow("routing", "1.0.0", "{}", 0, 1, Some("a"), 4);
    var edicts: EdictIndex := map["a" := a, "b" := b];
    assert edicts["a"] == a && edicts["b"] == b;
    assert Superseded(edicts, "a", "routing", 5) && Superseded(edicts, "b", "routing", 5);
    MissingExactly(edicts, "routing", 5);
  }

  // ----- What does not change the answer -----

  /** Both indexes hold the same edicts of the type that are in effect. */
  ghost predicate SameEffective(x: EdictIndex, y: EdictIndex, lawType: string, at: int) {
    forall id :: (id in x && Effective(x[id], lawType, at)) || (id in y && Effective(y[id], lawType, at)) ==>
      id in x && id in y && x[id] == y[id]
  }

  lemma SameCandidates(x: EdictIndex, y: EdictIndex, lawType: string, at: int)
    requires SameEffective(x, y, lawType, at)
    ensures Candidates(x, lawType, at) == Candidates(y, lawType, at)
  {
    forall id ensures Superseded(x, id, lawType, at) <==> Superseded(y, id, lawType, at) {
      if s :| s in x && Effective(x[s], lawType, at) && x[s].supersededEdictId == Some(id) { assert s in y; }
      if s :| s in y && Effective(y[s], lawType, at) && y[s].supersededEdictId == Some(id) { assert s in x; }
    }
  }

  lemma SameRanked(x: EdictIndex, y: EdictIndex, lawType: string, at: int)
    requires SameEffective(x, y, lawType, at)
    ensures Ranked(x, lawType, at) == Ranked(y, lawType, at)
  {
    SameCandidates(x, y, lawType, at);
    var all := Candidates(x, lawType, at);
    forall id | id in all ensures id in x && id in y && KeyOf(x, id) == KeyOf(y, id) { }
    var keysX := set id | id in x && id in Candidates(x, lawType, at) :: KeyOf(x, id);
    var keysY := set id | id in y && id in Candidates(y, lawType, at) :: KeyOf(y, id);
    assert keysX == keysY by {
      forall k | k in keysX ensures k in keysY { assert k == KeyOf(y, k.id); }
      forall k | k in keysY ensures k in keysX { assert k == KeyOf(x, k.id); }
    }
  }

  lemma SameEffectiveSameLaw(x: EdictIndex, y: EdictIndex, lawType: string, at: int)
    requires SameEffective(x, y, lawType, at)
    ensures GetCurrentLaw(x, lawType, at) == GetCurrentLaw(y, lawType, at)
  {
    SameRanked(x, y, lawType, at);
    RankedIs(x, lawType, at);
    var ranked := Ranked(x, lawType, at);
    if |ranked| > 0 { assert x[ranked[0].id] == y[ranked[0].id]; }
  }

  /** An edict that takes effect after `at`, or is of another type, never changes the law at `at`. */
  lemma OtherEdictsDoNotMatter(edicts: EdictIndex, id: string, row: EdictRow, lawType: string, at: int)
    requires !Effective(row, lawType, at)
    requires id in edicts ==> !Effective(edicts[id], lawType, at)
    ensures GetCurrentLaw(edicts[id := row], lawType, at) == GetCurrentLaw(edicts, lawType, at)
  {
    SameEffectiveSameLaw(edicts[id := row], edicts, lawType, at);
  }

  // ----- From one moment to a later one -----

  /** The edict of the type takes effect after `a`, by `b`. */
  predicate TakesEffect(row: EdictRow, lawType: string, a: int, b: int) {
    row.lawType == lawType && a < row.effectiveDate <= b
  }

  lemma FoundIsIndexed(edicts: EdictIndex, lawType: string, at: int)
    requires GetCurrentLaw(edicts, lawType, at).Found?
    ensures var law := GetCurrentLaw(edicts, lawType, at).law;
            law.messageId in edicts && law == Resolve(edicts, law.messageId)
  {
    RankedIs(edicts, lawType, at);
  }

  /** The candidates of a later moment: earlier ones nobody has superseded since, and unsuperseded new ones. */
  lemma LaterCandidates(edicts: EdictIndex, lawType: string, a: int, b: int, id: string)
    requires a <= b && id in edicts
    ensures id in Candidates(edicts, lawType, b) ==>
              id in Candidates(edicts, lawType, a) || TakesEffect(edicts[id], lawType, a, b)
    ensures id in Candidates(edicts, lawType, a) ==>
              (id in Candidates(edicts, lawType, b) <==>
                 forall s | s in edicts && TakesEffect(edicts[s], lawType, a, b) :: edicts[s].supersededEdictId != Some(id))
  {
    if Superseded(edicts, id, lawType, a) {
      var s :| s in edicts && Effective(edicts[s], lawType, a) && edicts[s].supersededEdictId == Some(id);
      assert Effective(edicts[s], lawType, b);
    }
  }

  /** Nothing that takes effect in between supersedes the law or, unsuperseded itself, fails to rank below it. */
  predicate Undisturbed(edicts: EdictIndex, lawType: string, a: int, b: int, best: string)
    requires best in edicts
  {
    forall id | id in edicts ::
      TakesEffect(edicts[id], lawType, a, b) ==>
        edicts[id].supersededEdictId != Some(best) &&
        (Superseded(edicts, id, lawType, b) || Outranks(KeyOf(edicts, best), KeyOf(edicts, id)))
  }

  /** A law found at one moment is still the law at a later one exactly when nothing in between disturbs it. */
  lemma SameLawExactly(edicts: EdictIndex, lawType: string, a: int, b: int, best: string)
    requires a <= b && best in edicts && GetCurrentLaw(edicts, lawType, a) == Found(Resolve(edicts, best))
    ensures GetCurrentLaw(edicts, lawType, b) == GetCurrentLaw(edicts, lawType, a) <==> Undisturbed(edicts, lawType, a, b, best)
  {
    FoundExactly(edicts, lawType, a, best);
    FoundExactly(edicts, lawType, b, best);
    if Undisturbed(edicts, lawType, a, b, best) {
      UndisturbedStays(edicts, lawType, a, b, best);
    } else if UniqueBest(edicts, lawType, b, best) {
      UniqueIsUndisturbed(edicts, lawType, a, b, best);
    }
  }

  lemma UndisturbedStays(edicts: EdictIndex, lawType: string, a: int, b: int, best: string)
    requires a <= b && UniqueBest(edicts, lawType, a, best) && Undisturbed(edicts, lawType, a, b, best)
    ensures UniqueBest(edicts, lawType, b, best)
  {
    LaterCandidates(edicts, lawType, a, b, best);
    forall id | id in Candidates(edicts, lawType, b) && id != best ensures Outranks(KeyOf(edicts, best), KeyOf(edicts, id)) {
      LaterCandidates(edicts, lawType, a, b, id);
    }
  }

  lemma UniqueIsUndisturbed(edicts: EdictIndex, lawType: string, a: int, b: int, best: string)
    requires a <= b && UniqueBest(edicts, lawType, a, best) && UniqueBest(edicts, lawType, b, best)
    ensures Undisturbed(edicts, lawType, a, b, best)
  {
    LaterCandidates(edicts, lawType, a, b, best);
    forall id | id in edicts && TakesEffect(edicts[id], lawType, a, b)
      ensures edicts[id].supersededEdictId != Some(best)
      ensures Superseded(edicts, id, lawType, b) || Outranks(KeyOf(edicts, best), KeyOf(edicts, id))
    {
      assert id != best;
      assert Superseded(edicts, id, lawType, b) || id in Candidates(edicts, lawType, b);
    }
  }

  /** Where there was no law there still is none exactly when whatever takes effect in between is superseded. */
  lemma StillMissingExactly(edicts: EdictIndex, lawType: string, a: int, b: int)
    requires a <= b && GetCurrentLaw(edicts, lawType, a) == Missing
    ensures GetCurrentLaw(edicts, lawType, b) == Missing <==>
            forall id | id in edicts && TakesEffect(edicts[id], lawType, a, b) :: Superseded(edicts, id, lawType, b)
  {
    MissingExactly(edicts, lawType, a);
    MissingExactly(edicts, lawType, b);
    forall id | id in edicts
      ensures id in Candidates(edicts, lawType, b) <==>
              TakesEffect(edicts[id], lawType, a, b) && !Superseded(edicts, id, lawType, b)
    {
      LaterCandidates(edicts, lawType, a, b, id);
    }
    if id :| id in Candidates(edicts, lawType, b) { assert id in edicts; }
  }

  // ----- One edict more -----

  /** The new edict would be out of force from the start: an edict in effect names it as superseded, or it itself does. */
  predicate OutOfForce(edicts: EdictIndex, id: string, row: EdictRow, at: int) {
    row.supersededEdictId == Some(id) || Superseded(edicts, id, row.lawType, at)
  }

  /** With the new edict in effect there is no law: it is out of force, and supersedes the only candidate if there is one. */
  predicate NoneWith(edicts: EdictIndex, id: string, row: EdictRow, at: int) {
    OutOfForce(edicts, id, row, at) && forall x | x in Candidates(edicts, row.lawType, at) :: row.supersededEdictId == Some(x)
  }

  /** With the new edict in effect `best` is the law: the new edict neither supersedes it nor, unless out of force, fails
      to rank below it, and so does every candidate that the new edict does not supersede. */
  predicate PrevailsWith(edicts: EdictIndex, id: string, row: EdictRow, at: int, best: string)
    requires best in edicts
  {
    && best in Candidates(edicts, row.lawType, at) && row.supersededEdictId != Some(best)
    && (OutOfForce(edicts, id, row, at) ||
        Outranks(KeyOf(edicts, best), Key(row.precedence, row.effectiveDate, row.sealedAt, id)))
    && forall x | x in edicts && x in Candidates(edicts, row.lawType, at) && x != best && row.supersededEdictId != Some(x) ::
         Outranks(KeyOf(edicts, best), KeyOf(edicts, x))
  }

  lemma AddedSuperseded(edicts: EdictIndex, id: string, row: EdictRow, x: string, at: int)
    requires id !in edicts && row.effectiveDate <= at
    ensures Superseded(edicts[id := row], x, row.lawType, at) <==>
            Superseded(edicts, x, row.lawType, at) || row.supersededEdictId == Some(x)
  {
    var more := edicts[id := row];
    if s :| s in edicts && Effective(edicts[s], row.lawType, at) && edicts[s].supersededEdictId == Some(x) {
      assert s in more && more[s] == edicts[s];
    }
    if row.supersededEdictId == Some(x) { assert id in more && more[id] == row; }
  }

  /** The candidates once the edict is indexed: earlier ones that it does not supersede, and it unless out of force. */
  lemma AddedCandidates(edicts: EdictIndex, id: string, row: EdictRow, x: string, at: int)
    requires id !in edicts && row.effectiveDate <= at
    ensures x in Candidates(edicts[id := row], row.lawType, at) <==>
            (x in Candidates(edicts, row.lawType, at) && row.supersededEdictId != Some(x)) ||
            (x == id && !OutOfForce(edicts, id, row, at))
  {
    AddedSuperseded(edicts, id, row, x, at);
    if x != id { assert x in edicts ==> edicts[id := row][x] == edicts[x]; }
  }

  lemma AddedMissingExactly(edicts: EdictIndex, id: string, row: EdictRow, at: int)
    requires id !in edicts && row.effectiveDate <= at
    ensures GetCurrentLaw(edicts[id := row], row.lawType, at) == Missing <==> NoneWith(edicts, id, row, at)
  {
    MissingExactly(edicts[id := row], row.lawType, at);
    forall x ensures x in Candidates(edicts[id := row], row.lawType, at) <==>
                     (x in Candidates(edicts, row.lawType, at) && row.supersededEdictId != Some(x)) ||
                     (x == id && !OutOfForce(edicts, id, row, at))
    {
      AddedCandidates(edicts, id, row, x, at);
    }
  }

  lemma AddedFoundExactly(edicts: EdictIndex, id: string, row: EdictRow, at: int, best: string)
    requires id !in edicts && row.effectiveDate <= at && best in edicts
    ensures GetCurrentLaw(edicts[id := row], row.lawType, at) == Found(Resolve(edicts, best)) <==>
            PrevailsWith(edicts, id, row, at, best)
  {
    var more := edicts[id := row];
    FoundExactly(more, row.lawType, at, best);
    assert Resolve(more, best) == Resolve(edicts, best);
    AddedBest(edicts, id, row, at, best);
  }

  lemma AddedBest(edicts: EdictIndex, id: string, row: EdictRow, at: int, best: string)
    requires id !in edicts && row.effectiveDate <= at && best in edicts
    ensures UniqueBest(edicts[id := row], row.lawType, at, best) <==> PrevailsWith(edicts, id, row, at, best)
  {
    var more := edicts[id := row];
    AddedCandidates(edicts, id, row, best, at);
    AddedCandidates(edicts, id, row, id, at);
    if UniqueBest(more, row.lawType, at, best) {
      forall x | x in edicts && x in Candidates(edicts, row.lawType, at) && x != best && row.supersededEdictId != Some(x)
        ensures Outranks(KeyOf(edicts, best), KeyOf(edicts, x))
      {
        AddedCandidates(edicts, id, row, x, at);
        assert Outranks(KeyOf(more, best), KeyOf(more, x));
      }
    }
    if PrevailsWith(edicts, id, row, at, best) {
      forall x | x in Candidates(more, row.lawType, at) && x != best ensures Outranks(KeyOf(more, best), KeyOf(more, x)) {
        AddedCandidates(edicts, id, row, x, at);
      }
    }
  }
}
