/** What the law query answers, in terms of the columns of the edict index alone. */
module LawColumns {
  import opened Wrappers
  import opened Archive
  import opened Law

  /** The row is of the type and in effect, and no such row names it as superseded. */
  ghost predicate Stands(edicts: EdictIndex, id: string, lawType: string, at: int) {
    && id in edicts && edicts[id].lawType == lawType && edicts[id].effectiveDate <= at
    && forall s | s in edicts && edicts[s].lawType == lawType && edicts[s].effectiveDate <= at ::
         edicts[s].supersededEdictId != Some(id)
  }

  /** A smaller precedence; or the same and an earlier effective date; or both the same and an earlier sealed time. */
  predicate Weaker(x: EdictRow, best: EdictRow) {
    || x.precedence < best.precedence
    || (x.precedence == best.precedence && x.effectiveDate < best.effectiveDate)
    || (x.precedence == best.precedence && x.effectiveDate == best.effectiveDate && x.sealedAt < best.sealedAt)
  }

  /** The two rows do not differ in any column the query orders by, but for the id. */
  predicate Level(x: EdictRow, y: EdictRow) {
    x.precedence == y.precedence && x.effectiveDate == y.effectiveDate && x.sealedAt == y.sealedAt
  }

  lemma StandsIsCandidate(edicts: EdictIndex, id: string, lawType: string, at: int)
    ensures Stands(edicts, id, lawType, at) <==> id in Candidates(edicts, lawType, at)
  {
  }

  /** Who outranks whom is who is weaker in the three columns. */
  lemma RankIsColumns(edicts: EdictIndex, a: string, b: string)
    requires a in edicts && b in edicts
    ensures Outranks(KeyOf(edicts, a), KeyOf(edicts, b)) <==> Weaker(edicts[b], edicts[a])
  {
  }

  /** An edict is the law exactly when it stands and every other edict that stands is weaker. */
  lemma FoundByColumns(edicts: EdictIndex, lawType: string, at: int, best: string)
    ensures GetCurrentLaw(edicts, lawType, at).Found? && GetCurrentLaw(edicts, lawType, at).law.messageId == best <==>
            Stands(edicts, best, lawType, at) &&
            forall id | Stands(edicts, id, lawType, at) && id != best :: Weaker(edicts[id], edicts[best])
  {
    var answer := GetCurrentLaw(edicts, lawType, at);
    StandsIsCandidate(edicts, best, lawType, at);
    if answer.Found? { FoundIsIndexed(edicts, lawType, at); }
    if best in edicts {
      FoundExactly(edicts, lawType, at, best);
      forall id ensures Stands(edicts, id, lawType, at) <==> id in Candidates(edicts, lawType, at) {
        StandsIsCandidate(edicts, id, lawType, at);
      }
      forall id | id in edicts ensures Outranks(KeyOf(edicts, best), KeyOf(edicts, id)) <==> Weaker(edicts[id], edicts[best]) {
        RankIsColumns(edicts, best, id);
      }
    }
  }

  /** What is answered is what the row of that edict holds. */
  lemma AnswerIsRow(edicts: EdictIndex, lawType: string, at: int)
    requires GetCurrentLaw(edicts, lawType, at).Found?
    ensures var law := GetCurrentLaw(edicts, lawType, at).law;
            law.messageId in edicts &&
            var row := edicts[law.messageId];
            && row.lawType == lawType && law.lawType == lawType && row.effectiveDate <= at
            && law.version == row.version && law.content == row.content && law.precedence == row.precedence
            && law.effectiveDate == row.effectiveDate && law.sealedAt == row.sealedAt
  {
    var law := GetCurrentLaw(edicts, lawType, at).law;
    FoundIsIndexed(edicts, lawType, at);
    FoundByColumns(edicts, lawType, at, law.messageId);
  }

  /** There is no law exactly when no edict stands. */
  lemma MissingByColumns(edicts: EdictIndex, lawType: string, at: int)
    ensures GetCurrentLaw(edicts, lawType, at) == Missing <==> forall id | id in edicts :: !Stands(edicts, id, lawType, at)
  {
    MissingExactly(edicts, lawType, at);
    forall id | id in edicts ensures Stands(edicts, id, lawType, at) <==> id in Candidates(edicts, lawType, at) {
      StandsIsCandidate(edicts, id, lawType, at);
    }
  }

  /** Two edicts stand on one level, and none that stands is above them. */
  ghost predicate Tied(edicts: EdictIndex, lawType: string, at: int, a: string, b: string) {
    && a != b && Stands(edicts, a, lawType, at) && Stands(edicts, b, lawType, at) && Level(edicts[a], edicts[b])
    && forall id | Stands(edicts, id, lawType, at) :: !Weaker(edicts[a], edicts[id])
  }

  lemma NotWeakerLevel(a: EdictRow, b: EdictRow, x: EdictRow)
    requires Level(a, b)
    ensures Weaker(a, x) <==> Weaker(b, x)
    ensures !Weaker(a, b) && !Weaker(b, a)
  {
  }

  lemma SharedIsTied(edicts: EdictIndex, lawType: string, at: int, a: string, b: string)
    ensures SharedBest(edicts, lawType, at, a, b) <==> Tied(edicts, lawType, at, a, b)
  {
    StandsIsCandidate(edicts, a, lawType, at);
    StandsIsCandidate(edicts, b, lawType, at);
    if SharedBest(edicts, lawType, at, a, b) {
      RankIsColumns(edicts, a, b);
      RankIsColumns(edicts, b, a);
      forall id | Stands(edicts, id, lawType, at) ensures !Weaker(edicts[a], edicts[id]) {
        StandsIsCandidate(edicts, id, lawType, at);
        RankIsColumns(edicts, id, a);
      }
    }
    if Tied(edicts, lawType, at, a, b) {
      forall id | id in Candidates(edicts, lawType, at)
        ensures !Outranks(KeyOf(edicts, id), KeyOf(edicts, a)) && !Outranks(KeyOf(edicts, id), KeyOf(edicts, b))
      {
        StandsIsCandidate(edicts, id, lawType, at);
        RankIsColumns(edicts, id, a);
        RankIsColumns(edicts, id, b);
        NotWeakerLevel(edicts[a], edicts[b], edicts[id]);
      }
    }
  }

  /** The query is ambiguous exactly when two edicts stand on one level and none that stands is above them. */
  lemma AmbiguousByColumns(edicts: EdictIndex, lawType: string, at: int)
    ensures GetCurrentLaw(edicts, lawType, at) == Ambiguous <==> exists a, b :: Tied(edicts, lawType, at, a, b)
  {
    AmbiguousExactly(edicts, lawType, at);
    forall a, b ensures SharedBest(edicts, lawType, at, a, b) <==> Tied(edicts, lawType, at, a, b) {
      SharedIsTied(edicts, lawType, at, a, b);
    }
  }
}
