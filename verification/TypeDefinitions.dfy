/** Which type definition describes a genre at a moment. */
module TypeDefinitions {
  import opened Wrappers
  import opened Sorting
  import opened Ordering
  import opened Archive

  type TypeIndex = map<string, TypeRow>

  predicate Described(row: TypeRow, genre: string, at: int) {
    row.targetGenre == genre && row.sealedAt <= at
  }

  predicate Replaced(types: TypeIndex, id: string, genre: string, at: int) {
    exists s | s in types :: Described(types[s], genre, at) && types[s].supersededBy == Some(id)
  }

  function CandidateTypes(types: TypeIndex, genre: string, at: int): set<string> {
    set id | id in types && Described(types[id], genre, at) && !Replaced(types, id, genre, at)
  }

  datatype Seat = Seat(sealedAt: int, id: string)

  /** Latest sealed first, and of those the greatest id. */
  predicate Ahead(a: Seat, b: Seat) {
    a.sealedAt > b.sealedAt || (a.sealedAt == b.sealedAt && TextLeq(b.id, a.id))
  }

  lemma AheadIsTotal()
    ensures TotalOrder(Ahead)
  {
    forall a, b ensures Ahead(a, b) || Ahead(b, a) { TextTotal(a.id, b.id); }
    forall a, b | Ahead(a, b) && Ahead(b, a) ensures a == b { TextTotal(a.id, b.id); }
    forall a, b, c | Ahead(a, b) && Ahead(b, c) ensures Ahead(a, c) {
      if a.sealedAt == b.sealedAt == c.sealedAt { TextTransitive(c.id, b.id, a.id); }
    }
  }

  function GetCurrentTiDefinition(types: TypeIndex, genre: string, at: int): Option<string> {
    AheadIsTotal();
    var seats := Ascending(Ahead, set id | id in types && id in CandidateTypes(types, genre, at) :: Seat(types[id].sealedAt, id));
    if seats == [] then None else Some(seats[0].id)
  }

  lemma LeadingSeat(types: TypeIndex, genre: string, at: int)
    ensures GetCurrentTiDefinition(types, genre, at).None? <==> CandidateTypes(types, genre, at) == {}
    ensures GetCurrentTiDefinition(types, genre, at).Some? ==>
              var best := GetCurrentTiDefinition(types, genre, at).value;
              best in CandidateTypes(types, genre, at) &&
              forall id | id in CandidateTypes(types, genre, at) :: Ahead(Seat(types[best].sealedAt, best), Seat(types[id].sealedAt, id))
  {
    AheadIsTotal();
    var candidates := CandidateTypes(types, genre, at);
    var all := set id | id in types && id in candidates :: Seat(types[id].sealedAt, id);
    var seats := Ascending(Ahead, all);
    forall id | id in candidates ensures Seat(types[id].sealedAt, id) in seats {
      assert Seat(types[id].sealedAt, id) in all;
    }
    if seats != [] {
      assert seats[0] in seats;
      forall id | id in candidates ensures Ahead(seats[0], Seat(types[id].sealedAt, id)) {
        var i :| 0 <= i < |seats| && seats[i] == Seat(types[id].sealedAt, id);
        if i == 0 { TextTotal(id, id); }
      }
    }
  }

  /** The definition is of the genre and sealed by the moment, and no other such names it as its predecessor. */
  ghost predicate Stands(types: TypeIndex, id: string, genre: string, at: int) {
    && id in types && types[id].targetGenre == genre && types[id].sealedAt <= at
    && forall s | s in types && types[s].targetGenre == genre && types[s].sealedAt <= at :: types[s].supersededBy != Some(id)
  }

  /** It stands, and every other that stands was sealed earlier, or at the same time under a smaller id. */
  ghost predicate Leads(types: TypeIndex, genre: string, at: int, id: string) {
    Stands(types, id, genre, at) &&
    forall x | Stands(types, x, genre, at) && x != id ::
      types[x].sealedAt < types[id].sealedAt || (types[x].sealedAt == types[id].sealedAt && TextLeq(x, id))
  }

  lemma StandsIsCandidate(types: TypeIndex, id: string, genre: string, at: int)
    ensures Stands(types, id, genre, at) <==> id in CandidateTypes(types, genre, at)
  {
  }

  /** The answer is the definition that leads; there is none exactly when no definition stands. */
  lemma CurrentTypeExactly(types: TypeIndex, genre: string, at: int)
    ensures forall id :: GetCurrentTiDefinition(types, genre, at) == Some(id) <==> Leads(types, genre, at, id)
    ensures GetCurrentTiDefinition(types, genre, at).None? <==> forall id | id in types :: !Stands(types, id, genre, at)
  {
    LeadingSeat(types, genre, at);
    forall id ensures Stands(types, id, genre, at) <==> id in CandidateTypes(types, genre, at) {
      StandsIsCandidate(types, id, genre, at);
    }
    var current := GetCurrentTiDefinition(types, genre, at);
    forall id ensures current == Some(id) <==> Leads(types, genre, at, id) {
      if Leads(types, genre, at, id) { OneLeads(types, genre, at, id, current.value); }
    }
  }

  lemma SomeStands(types: TypeIndex, genre: string, at: int)
    ensures GetCurrentTiDefinition(types, genre, at).Some? <==> exists id :: Stands(types, id, genre, at)
  {
    CurrentTypeExactly(types, genre, at);
    var current := GetCurrentTiDefinition(types, genre, at);
    if current.Some? {
      assert Leads(types, genre, at, current.value);
    }
  }

  lemma OneLeads(types: TypeIndex, genre: string, at: int, id: string, best: string)
    requires Leads(types, genre, at, id) && Stands(types, best, genre, at)
    requires Ahead(Seat(types[best].sealedAt, best), Seat(types[id].sealedAt, id))
    ensures best == id
  {
    TextTotal(id, best);
  }

  /** The schema the pipeline reviews against. */
  function GetActiveGenreSchema(types: TypeIndex, genre: string, at: int): Option<string> {
    match GetCurrentTiDefinition(types, genre, at)
    case None => None
    case Some(id) =>
      LeadingSeat(types, genre, at);
      Some(types[id].schema)
  }
}
