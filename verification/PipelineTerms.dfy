/** What each judgement of the pipeline asks for, in terms of the message, the laws' contents and the tables. */
module PipelineTerms {
  import opened Wrappers
  import opened Archive
  import opened Kinds
  import opened LawResolver
  import opened Pipeline
  import Commitment
  import Consensus
  import Law
  import TypeDefinitions

  // ----- Routing -----

  /** What routing makes of a message: where the law lists destinations for its genre, an absent one is filled in and a
      named one has to be listed. */
  predicate RoutedTo(table: map<string, seq<string>>, m: Message, r: Message) {
    if m.genre in table && table[m.genre] != [] then
      if m.payload.destination == []
      then r == m.(payload := m.payload.(keys := m.payload.keys + {"routing"}, destination := table[m.genre]))
      else r == m && forall d | d in m.payload.destination :: d in table[m.genre]
    else r == m
  }

  lemma RoutedExactly(table: map<string, seq<string>>, m: Message, r: Message)
    ensures Pipeline.Route(table, m) == Success(r) <==> RoutedTo(table, m, r)
  {
  }

  lemma RouteExactly(table: map<string, seq<string>>, m: Message)
    ensures forall r :: Pipeline.Route(table, m) == Success(r) <==> RoutedTo(table, m, r)
    ensures Pipeline.Route(table, m).Failure? ==> Pipeline.Route(table, m).error == "routing-destination-disallowed"
  {
  }

  // ----- Reviews -----

  /** The payload has a key, and the author of a works genre may draft it. */
  predicate MayDraft(rules: Rules, m: Message) {
    m.payload.keys != {} && (rules.isWorksGenre(m.genre) ==> rules.canDraftGenre(m.actor.role, m.genre))
  }

  lemma DraftExactly(rules: Rules, m: Message)
    ensures Shenfu(rules, m) == if MayDraft(rules, m) then None
                                else if m.payload.keys == {} then Some("empty-payload") else Some("hierarchy_violation")
  {
  }

  predicate HasKeys(rules: Rules, schema: string, m: Message) {
    forall k | k in rules.requiredKeys(schema) :: k in m.payload.keys
  }

  /** An edict about a genre. */
  predicate AboutGenre(m: Message) {
    m.genre == "edict" && m.payload.targetGenre.Some? && m.payload.targetGenre.value != ""
  }

  /** The moment whose laws and definitions are asked for. */
  function Moment(m: Message): int {
    if m.lawSnapshotAt.Some? then m.lawSnapshotAt.value else m.submittedAt
  }

  /** An edict about a genre finds a definition of it standing as of its law snapshot. */
  ghost predicate KnowsGenre(types: TypeDefinitions.TypeIndex, m: Message) {
    AboutGenre(m) ==> exists id :: TypeDefinitions.Stands(types, id, m.payload.targetGenre.value, Moment(m))
  }

  /** The payload has the keys that the leading definition of the genre asks for; a genre without one asks for nothing. */
  ghost predicate FitsSchema(rules: Rules, types: TypeDefinitions.TypeIndex, m: Message, now: int) {
    forall id | TypeDefinitions.Leads(types, m.genre, now, id) :: HasKeys(rules, types[id].schema, m)
  }

  ghost predicate FitsDefinition(rules: Rules, types: TypeDefinitions.TypeIndex, m: Message, now: int) {
    if m.genre == "ti_definition" then rules.isTypeDefinition(m)
    else KnowsGenre(types, m) && FitsSchema(rules, types, m, now)
  }

  lemma KnowsGenreExactly(types: TypeDefinitions.TypeIndex, m: Message)
    ensures NamesUnknownGenre(types, m) <==> !KnowsGenre(types, m)
  {
    if AboutGenre(m) { TypeDefinitions.SomeStands(types, m.payload.targetGenre.value, Moment(m)); }
  }

  lemma FitsSchemaExactly(rules: Rules, types: TypeDefinitions.TypeIndex, m: Message, now: int)
    ensures FitsSchema(rules, types, m, now) <==>
            var schema := TypeDefinitions.GetActiveGenreSchema(types, m.genre, now);
            schema.Some? ==> HasKeys(rules, schema.value, m)
  {
    TypeDefinitions.CurrentTypeExactly(types, m.genre, now);
  }

  lemma MissingKey(rules: Rules, schema: string, m: Message)
    ensures var required := rules.requiredKeys(schema);
            (exists i | 0 <= i < |required| :: required[i] !in m.payload.keys) <==> !HasKeys(rules, schema, m)
  {
  }

  /** The schema review passes exactly what fits, and names the first thing that does not. */
  lemma SchemaReviewExactly(rules: Rules, types: TypeDefinitions.TypeIndex, m: Message, now: int)
    ensures ShenfuSchema(rules, types, m, now) ==
            if FitsDefinition(rules, types, m, now) then None
            else if m.genre == "ti_definition" then Some("invalid-ti-definition")
            else if !KnowsGenre(types, m) then Some("invalid-constitutional-reference")
            else Some("schema-noncompliant")
  {
    if m.genre != "ti_definition" {
      KnowsGenreExactly(types, m);
      FitsSchemaExactly(rules, types, m, now);
      var schema := TypeDefinitions.GetActiveGenreSchema(types, m.genre, now);
      if schema.Some? { MissingKey(rules, schema.value, m); }
    }
  }

  /** The law lets the author's role review, the works genre too, and allows it the genre. */
  predicate MayReview(rules: Rules, law: AppointmentLaw, m: Message) {
    && m.actor.role in law && "review" in law[m.actor.role].permissions
    && (rules.isWorksGenre(m.genre) ==> rules.canReviewGenre(m.actor.role, m.genre))
    && ("*" in law[m.actor.role].allowedGenres || m.genre in law[m.actor.role].allowedGenres)
  }

  lemma ReviewExactly(rules: Rules, law: AppointmentLaw, m: Message)
    ensures ReviewUnder(rules, law, m) ==
            if MayReview(rules, law, m) then None
            else if m.actor.role !in law || "review" !in law[m.actor.role].permissions then Some("actor-cannot-review")
            else if rules.isWorksGenre(m.genre) && !rules.canReviewGenre(m.actor.role, m.genre) then Some("hierarchy_violation")
            else Some("genre-not-allowed-for-role")
  {
  }

  /** The clearance of the metadata, or else of the payload, is absent, empty or one of the levels. */
  predicate ClearanceKnown(levels: seq<string>, m: Message) {
    if m.clearance.Some? then m.clearance.value == "" || m.clearance.value in levels
    else m.payload.clearance.Some? ==> m.payload.clearance.value == "" || m.payload.clearance.value in levels
  }

  lemma ClearanceExactly(levels: seq<string>, m: Message)
    ensures ClassifyUnder(levels, m) == if ClearanceKnown(levels, m) then None else Some("classification-clearance-invalid")
  {
  }

  /** The law lets the author's role authorize, the works genre too. */
  predicate MayAuthorize(rules: Rules, law: AppointmentLaw, m: Message) {
    && m.actor.role in law && "authorize" in law[m.actor.role].permissions
    && (rules.isWorksGenre(m.genre) ==> rules.canAuthorizeGenre(m.actor.role, m.genre))
  }

  lemma AuthorizationExactly(rules: Rules, law: AppointmentLaw, m: Message)
    ensures AuthorizeUnder(rules, law, m) ==
            if MayAuthorize(rules, law, m) then None
            else if m.actor.role !in law || "authorize" !in law[m.actor.role].permissions then Some("actor-cannot-authorize")
            else Some("hierarchy_violation")
  {
  }

  // ----- Gates -----

  /** How many offices have to approve: what the law says of the genre, or else one for each destination. */
  function AsManyAs(acks: map<string, int>, m: Message): int {
    if m.genre in acks then acks[m.genre] else if m.payload.destination == [] then 1 else |m.payload.destination|
  }

  /** At most one is asked for, or that many offices have each approved the message. */
  ghost predicate Acknowledged(t: Tables, acks: map<string, int>, m: Message) {
    AsManyAs(acks, m) <= 1 ||
    exists offices: set<string> :: |offices| >= AsManyAs(acks, m) && forall f | f in offices :: (m.id, f) in t.approvals
  }

  lemma AcknowledgedExactly(t: Tables, acks: map<string, int>, m: Message)
    ensures RequiredAcks(acks, m) == AsManyAs(acks, m)
    ensures Acknowledged(t, acks, m) <==> (RequiredAcks(acks, m) > 1 ==> |OfficeApprovals(t, m.id)| >= RequiredAcks(acks, m))
  {
    var approved := OfficeApprovals(t, m.id);
    if |approved| >= RequiredAcks(acks, m) {
      forall f | f in approved ensures (m.id, f) in t.approvals { }
    }
    if offices: set<string> :| |offices| >= AsManyAs(acks, m) && forall f | f in offices :: (m.id, f) in t.approvals {
      forall f | f in offices ensures f in approved { assert (m.id, f) in t.approvals; }
      Consensus.SmallerSet(offices, approved);
    }
  }

  /** For a type definition in a consort: the replica has it committed. */
  ghost predicate AgreedUpon(cfg: Config, inv: Invocation, replica: Option<Consensus.Replica>, m: Message) {
    inv.consort && m.genre == "ti_definition" ==>
      replica.Some? &&
      exists preparers, committers :: Commitment.Agreed(cfg.pbft, replica.value, m.id, preparers, committers)
  }

  lemma AgreedExactly(cfg: Config, inv: Invocation, replica: Option<Consensus.Replica>, m: Message)
    ensures AgreedUpon(cfg, inv, replica, m) <==>
            (NeedsConsensus(inv, m) ==> replica.Some? && Consensus.CommitIfThreshold(cfg.pbft, replica.value, m.id))
  {
    if replica.Some? { Commitment.CommittedExactly(cfg.pbft, replica.value, m.id); }
  }

  /** The proposal of the call goes through and is committed then. */
  ghost predicate ProposesAndAgrees(cfg: Config, inv: Invocation, replica: Option<Consensus.Replica>, m: Message) {
    inv.consort && m.genre == "ti_definition" ==>
      replica.Some? &&
      var (after, proposed) :=
        Consensus.SignAndAppend(cfg.signer, cfg.pbft, replica.value,
                                Consensus.ToSign(m.id, replica.value.viewNo, inv.nodeId, Consensus.PrePrepare, inv.proposedAt));
      proposed.Success? && exists preparers, committers :: Commitment.Agreed(cfg.pbft, after, m.id, preparers, committers)
  }

  lemma ConsensusExactly(cfg: Config, o: Office, inv: Invocation, m: Message)
    ensures ConsensusGate(cfg, o, inv, m).1 == if ProposesAndAgrees(cfg, inv, o.replica, m) then Open else AwaitingConsensus
  {
    if o.replica.Some? {
      var after := Consensus.ProposeTiDefinition(cfg.signer, cfg.pbft, o.replica.value, m.id, inv.nodeId, inv.proposedAt).0;
      Commitment.CommittedExactly(cfg.pbft, after, m.id);
    }
  }

  // ----- Laws -----

  /** The content of a law, or the reason that there is none. A live cached answer is used; otherwise the law is looked up as
      of the moment. */
  function LawAnswer<T>(cfg: Config, o: Office, inv: Invocation, k: nat, lawType: string, at: int, parse: string -> Option<T>):
    Result<T, string>
  {
    var cached := lawType in o.cache && inv.lookups(k) < o.cache[lawType].expiresAtMs;
    var found := Law.GetCurrentLaw(o.tables.edicts, lawType, at);
    if !cached && found == Law.Ambiguous then Failure(lawType + "-law-ambiguous-" + lawType)
    else
      var content := if cached then (if o.cache[lawType].value.Some? then Some(o.cache[lawType].value.value.content) else None)
                     else if found.Found? then Some(found.law.content) else None;
      if content.None? then Failure(lawType + "-law-missing-" + lawType)
      else if parse(content.value).None? then Failure(lawType + "-law-invalid")
      else Success(parse(content.value).value)
  }

  lemma LawLoadsExactly<T>(cfg: Config, o: Office, inv: Invocation, k: nat, lawType: string, at: int, parse: string -> Option<T>)
    ensures LoadLaw(cfg, o, inv, k, lawType, at, parse).1 == LawAnswer(cfg, o, inv, k, lawType, at, parse)
  {
  }

  // ----- Normalization -----

  /** What the docket step works on: the stored message with its payload's keys trimmed, asking for the laws of the moment the
      call began. */
  lemma NormalizedIs(cfg: Config, o: Office, inv: Invocation, id: string)
    requires id in o.tables.messages
    ensures var m, body := Normalized(cfg, o, inv, id), o.tables.messages[id].body;
            m == body.(lawSnapshotAt := Some(inv.now), payload := body.payload.(keys := m.payload.keys)) &&
            m.payload.keys == (set k | k in body.payload.keys :: cfg.rules.trim(k))
  {
  }
}
