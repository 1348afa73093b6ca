/**
 * The approval pipeline: one docket step or one finalization of one message. The functions say what a call
 * does to the office's state; the methods at the end do it step by step on the objects that hold the state.
 */
module Pipeline {
  import opened Wrappers
  import opened Kinds
  import opened SealChain
  import opened Sorting
  import opened Archive
  import opened Law
  import opened LawResolver
  import opened TypeDefinitions
  import Consensus

  // ----- What a call is given -----

  datatype RoleRule = RoleRule(permissions: seq<string>, allowedGenres: seq<string>)

  type AppointmentLaw = map<string, RoleRule>

  /** Code of other packages: the law schemas (None where a text does not fit), the works genres and their role
      tables, the type-definition schema, the text entries of a schema's `required` list, `trim` and decimal
      printing. */
  datatype Rules = Rules(
    routing: string -> Option<map<string, seq<string>>>,
    appointment: string -> Option<AppointmentLaw>,
    classification: string -> Option<seq<string>>,
    protocol: string -> Option<map<string, int>>,
    isWorksGenre: string -> bool,
    canDraftGenre: (string, string) -> bool,
    canReviewGenre: (string, string) -> bool,
    canAuthorizeGenre: (string, string) -> bool,
    isTypeDefinition: Message -> bool,
    requiredKeys: string -> seq<string>,
    trim: string -> string,
    decimal: int -> string)

  /** What stays the same from call to call. */
  datatype Config = Config(
    digests: Digests, crypto: Crypto, rules: Rules, ttlMs: int, signer: Consensus.Signer, pbft: Consensus.Options)

  datatype Stamp = Stamp(sealedAt: int, at: int)

  /** One call: its seal context, its options and its readings of the clocks. `stamps` are read for the
      transition with that sequence number, `lookups` for each law lookup, `seals` for each stage. */
  datatype Invocation = Invocation(
    context: SealContext, consort: bool, nodeId: string,
    now: int, schemaAt: int, stamps: nat -> Stamp, lookups: nat -> int, seals: nat -> int, verifiedAt: int, proposedAt: int)

  /** `replica` is absent when no consensus object is configured. */
  datatype Office = Office(tables: Tables, cache: Cache, history: set<Call>, replica: Option<Consensus.Replica>)

  datatype PipelineError = MessageNotFound | StoreFailed(e: StoreError) | SealingFailed

  datatype Outcome = Returned(finalState: MessageState, reason: Option<string>) | Threw(error: PipelineError)

  // ----- Appending -----

  function NextTransition(t: Tables, inv: Invocation, m: Message, from: MessageState, to: MessageState, reason: Option<string>):
    Transition
  {
    var n := |GetTransitions(t, m.id)| + 1;
    Transition(m.id, from, to, n, Some(m.actor.id), Some(inv.stamps(n).sealedAt), reason, None, inv.stamps(n).at)
  }

  function AppendNext(cfg: Config, o: Office, inv: Invocation, m: Message, from: MessageState, to: MessageState,
                      reason: Option<string>): Result<Office, StoreError>
  {
    match AppendTransition(cfg.digests, o.tables, NextTransition(o.tables, inv, m, from, to, reason))
    case Success(after) => Success(o.(tables := after))
    case Failure(e) => Failure(e)
  }

  /** Append one transition and return, or throw what the store threw. */
  function Conclude(cfg: Config, o: Office, inv: Invocation, m: Message, from: MessageState, to: MessageState,
                    reason: Option<string>, reported: Option<string>): (Office, Outcome)
  {
    match AppendNext(cfg, o, inv, m, from, to, reason)
    case Success(after) => (after, Returned(to, reported))
    case Failure(e) => (o, Threw(StoreFailed(e)))
  }

  // ----- Laws -----

  /** Look a law up and parse its content; the reasons are the strict-mode errors. */
  function LoadLaw<T>(cfg: Config, o: Office, inv: Invocation, k: nat, lawType: string, at: int, parse: string -> Option<T>):
    (Office, Result<T, string>)
  {
    var nowMs := inv.lookups(k);
    var edicts := o.tables.edicts;
    var after := o.(cache := CacheAfter(edicts, cfg.ttlMs, o.cache, lawType, at, nowMs),
                    history := o.history + {Call(lawType, at, nowMs)});
    (after, ParseLaw(LookUp(edicts, cfg.ttlMs, o.cache, lawType, at, nowMs), lawType, parse))
  }

  function ParseLaw<T>(lookup: Lookup, lawType: string, parse: string -> Option<T>): Result<T, string> {
    match lookup
    case AmbiguousLaw => Failure(lawType + "-law-ambiguous-" + lawType)
    case Resolved(None) => Failure(lawType + "-law-missing-" + lawType)
    case Resolved(Some(law)) =>
      match parse(law.content)
      case None => Failure(lawType + "-law-invalid")
      case Some(content) => Success(content)
  }

  function SnapshotAt(m: Message): int {
    m.lawSnapshotAt.GetOr(m.submittedAt)
  }

  function WithLawSnapshot(m: Message, at: int): Message {
    m.(lawSnapshotAt := Some(at))
  }

  /** Normalization trims the payload's keys; the fields it holds are taken to keep their names. */
  function Caoni(rules: Rules, m: Message): Message {
    m.(payload := m.payload.(keys := set k | k in m.payload.keys :: rules.trim(k)))
  }

  // ----- Judgements -----

  function Route(table: map<string, seq<string>>, m: Message): Result<Message, string> {
    if m.genre !in table || table[m.genre] == [] then Success(m)
    else
      var expected := table[m.genre];
      if m.payload.destination == [] then Success(m.(payload := m.payload.(keys := m.payload.keys + {"routing"}, destination := expected)))
      else if exists i | 0 <= i < |m.payload.destination| :: m.payload.destination[i] !in expected then
        Failure("routing-destination-disallowed")
      else Success(m)
  }

  function ApplyRoutingLaw(cfg: Config, o: Office, inv: Invocation, m: Message): (Office, Result<Message, string>) {
    var (after, law) := LoadLaw(cfg, o, inv, 0, "routing", SnapshotAt(m), cfg.rules.routing);
    (after, match law case Failure(e) => Failure(e) case Success(table) => Route(table, m))
  }

  /** A reason to reject, if there is one. */
  function Shenfu(rules: Rules, m: Message): Option<string> {
    if m.payload.keys == {} then Some("empty-payload")
    else if rules.isWorksGenre(m.genre) && !rules.canDraftGenre(m.actor.role, m.genre) then Some("hierarchy_violation")
    else None
  }

  predicate HasPermission(law: AppointmentLaw, role: string, permission: string) {
    role in law && permission in law[role].permissions
  }

  predicate AllowsGenre(law: AppointmentLaw, role: string, genre: string) {
    role in law && ("*" in law[role].allowedGenres || genre in law[role].allowedGenres)
  }

  function ReviewUnder(rules: Rules, law: AppointmentLaw, m: Message): Option<string> {
    if !HasPermission(law, m.actor.role, "review") then Some("actor-cannot-review")
    else if rules.isWorksGenre(m.genre) && !rules.canReviewGenre(m.actor.role, m.genre) then Some("hierarchy_violation")
    else if !AllowsGenre(law, m.actor.role, m.genre) then Some("genre-not-allowed-for-role")
    else None
  }

  function AuthorizeUnder(rules: Rules, law: AppointmentLaw, m: Message): Option<string> {
    if !HasPermission(law, m.actor.role, "authorize") then Some("actor-cannot-authorize")
    else if rules.isWorksGenre(m.genre) && !rules.canAuthorizeGenre(m.actor.role, m.genre) then Some("hierarchy_violation")
    else None
  }

  function ClassifyUnder(levels: seq<string>, m: Message): Option<string> {
    var clearance := m.clearance.OrElse(m.payload.clearance);
    if clearance.None? || clearance.value == "" || clearance.value in levels then None
    else Some("classification-clearance-invalid")
  }

  /** Apply a judgement to a law, if the law could be loaded. */
  function Judge<T>(law: Result<T, string>, judgement: T -> Option<string>): Option<string> {
    match law
    case Failure(e) => Some(e)
    case Success(content) => judgement(content)
  }

  /** The review against the type definitions in force; a genre nobody has defined passes. */
  function ShenfuSchema(rules: Rules, types: TypeIndex, m: Message, now: int): Option<string> {
    if m.genre == "ti_definition" then if rules.isTypeDefinition(m) then None else Some("invalid-ti-definition")
    else if NamesUnknownGenre(types, m) then Some("invalid-constitutional-reference")
    else match GetActiveGenreSchema(types, m.genre, now)
      case None => None
      case Some(schema) =>
        var required := rules.requiredKeys(schema);
        if exists i | 0 <= i < |required| :: required[i] !in m.payload.keys then Some("schema-noncompliant") else None
  }

  /** An edict about a genre that had no definition when it was taken up. */
  predicate NamesUnknownGenre(types: TypeIndex, m: Message) {
    m.genre == "edict" && m.payload.targetGenre.GetOr("") != "" &&
    GetCurrentTiDefinition(types, m.payload.targetGenre.value, SnapshotAt(m)).None?
  }

  function Objection(rules: Rules, types: TypeIndex, m: Message, now: int): Option<string> {
    Shenfu(rules, m).OrElse(ShenfuSchema(rules, types, m, now))
  }

  /** Everything that can reject a validated message. */
  function Review(cfg: Config, o: Office, inv: Invocation, m: Message): (Office, Option<string>) {
    var objection := Objection(cfg.rules, o.tables.types, m, inv.schemaAt);
    if objection.Some? then (o, objection) else
      var (o1, appointment) := LoadLaw(cfg, o, inv, 1, "appointment", SnapshotAt(m), cfg.rules.appointment);
      var denied := Judge(appointment, law => ReviewUnder(cfg.rules, law, m));
      if denied.Some? then (o1, denied) else
        var (o2, classification) := LoadLaw(cfg, o1, inv, 2, "classification", SnapshotAt(m), cfg.rules.classification);
        (o2, Judge(classification, levels => ClassifyUnder(levels, m)))
  }

  function DestinationCount(m: Message): int {
    if m.payload.destination == [] then 1 else |m.payload.destination|
  }

  function RequiredAcks(acks: map<string, int>, m: Message): int {
    if m.genre in acks then acks[m.genre] else DestinationCount(m)
  }

  /** Whether a message may be sealed now: not at all, not yet (with the count that is not met, if it is the
      acknowledgements), or yes. */
  datatype Gate = Shut(reason: string) | AwaitingAcks(required: int) | AwaitingConsensus | Open

  function AcksGate(cfg: Config, o: Office, inv: Invocation, k: nat, m: Message): (Office, Gate) {
    var (after, law) := LoadLaw(cfg, o, inv, k, "protocol", SnapshotAt(m), cfg.rules.protocol);
    match law
    case Failure(e) => (after, Shut(e))
    case Success(acks) =>
      var required := RequiredAcks(acks, m);
      (after, if required > 1 && |OfficeApprovals(o.tables, m.id)| < required then AwaitingAcks(required) else Open)
  }

  predicate NeedsConsensus(inv: Invocation, m: Message) {
    inv.consort && m.genre == "ti_definition"
  }

  function ConsensusGate(cfg: Config, o: Office, inv: Invocation, m: Message): (Office, Gate) {
    if !NeedsConsensus(inv, m) then (o, Open)
    else match o.replica
      case None => (o, AwaitingConsensus)
      case Some(r) =>
        var (proposed, result) := Consensus.ProposeTiDefinition(cfg.signer, cfg.pbft, r, m.id, inv.nodeId, inv.proposedAt);
        var after := o.(replica := Some(proposed));
        if result.Success? && Consensus.CommitIfThreshold(cfg.pbft, proposed, m.id) then (after, Open)
        else (after, AwaitingConsensus)
  }

  function Gates(cfg: Config, o: Office, inv: Invocation, k: nat, m: Message): (Office, Gate) {
    var (after, acks) := AcksGate(cfg, o, inv, k, m);
    if acks != Open then (after, acks) else ConsensusGate(cfg, after, inv, m)
  }

  // ----- Sealing -----

  /** Store seals one by one up to the first that fails. */
  function PutSeals(t: Tables, seals: seq<SealRecord>): (Tables, Option<StoreError>)
    decreases |seals|
  {
    if seals == [] then (t, None)
    else match AppendSeal(t, seals[0])
      case Failure(e) => (t, Some(e))
      case Success(after) => PutSeals(after, seals[1..])
  }

  /** Which law answers to drop for a message that has been archived; None drops nothing. */
  function DropAfter(cache: Cache, m: Message): Cache {
    if m.genre != "edict" then cache else Invalidated(cache, DropFor(m.payload.lawType))
  }

  function RejectNow(cfg: Config, o: Office, inv: Invocation, m: Message, reason: string): (Office, Outcome) {
    Conclude(cfg, o, inv, m, CurrentState(o.tables, m.id), Rejected, Some(reason), Some(reason))
  }

  function ArchiveAuthorized(cfg: Config, o: Office, inv: Invocation, m: Message): (Office, Outcome) {
    match AppendNext(cfg, o, inv, m, Authorized, MessageState.Archived, None)
    case Failure(e) => (o, Threw(StoreFailed(e)))
    case Success(archived) => (archived.(cache := DropAfter(archived.cache, m)), Returned(MessageState.Archived, None))
  }

  function ArchiveNow(cfg: Config, o: Office, inv: Invocation, m: Message): (Office, Outcome) {
    match AppendNext(cfg, o, inv, m, CurrentState(o.tables, m.id), Authorized, None)
    case Failure(e) => (o, Threw(StoreFailed(e)))
    case Success(authorized) =>
      ArchiveAuthorized(cfg, authorized, inv, m)
  }

  /** Store the seals of a chain that verified, then archive. */
  function StoreAndArchive(cfg: Config, o: Office, inv: Invocation, m: Message, seals: seq<SealRecord>): (Office, Outcome) {
    var (tables, failed) := PutSeals(o.tables, seals);
    var stored := o.(tables := tables);
    if failed.Some? then (stored, Threw(StoreFailed(failed.value))) else ArchiveNow(cfg, stored, inv, m)
  }

  function SealAndArchive(cfg: Config, o: Office, inv: Invocation, m: Message): (Office, Outcome) {
    match NewChain(cfg.crypto, m, inv.context, inv.seals)
    case Failure(InsufficientImperialAuthority) => RejectNow(cfg, o, inv, m, "insufficient-imperial-authority")
    case Failure(SigningFailed) => (o, Threw(SealingFailed))
    case Success(seals) =>
      if Verdict(cfg.crypto, m, seals, inv.context, inv.verifiedAt) != Some(true) then
        RejectNow(cfg, o, inv, m, "invalid-seal-chain")
      else StoreAndArchive(cfg, o, inv, m, seals)
  }

  // ----- The two entry points -----

  /** What follows once the gates have said what they say. */
  function AfterGates(cfg: Config, o: Office, inv: Invocation, m: Message, gate: Gate): (Office, Outcome) {
    match gate
    case Shut(reason) => Conclude(cfg, o, inv, m, Reviewed, Rejected, Some(reason), Some(reason))
    case AwaitingAcks(required) =>
      Conclude(cfg, o, inv, m, Reviewed, Pending, Some("awaiting-protocol-acks-" + cfg.rules.decimal(required)), None)
    case AwaitingConsensus =>
      Conclude(cfg, o, inv, m, Reviewed, Pending, Some("awaiting-pbft-consensus"), Some("awaiting-pbft-consensus"))
    case Open => SealAndArchive(cfg, o, inv, m)
  }

  function AfterAuthorization(cfg: Config, o: Office, inv: Invocation, m: Message, denied: Option<string>): (Office, Outcome) {
    if denied.Some? then Conclude(cfg, o, inv, m, Reviewed, Rejected, denied, denied) else
      var (o1, gate) := Gates(cfg, o, inv, 4, m);
      AfterGates(cfg, o1, inv, m, gate)
  }

  /** From `reviewed`: authorization, then the gates, then the seals. */
  function AuthorizeReviewed(cfg: Config, o: Office, inv: Invocation, m: Message): (Office, Outcome) {
    var (o1, appointment) := LoadLaw(cfg, o, inv, 3, "appointment", SnapshotAt(m), cfg.rules.appointment);
    AfterAuthorization(cfg, o1, inv, m, Judge(appointment, law => AuthorizeUnder(cfg.rules, law, m)))
  }

  function AfterReview(cfg: Config, o: Office, inv: Invocation, m: Message, denied: Option<string>): (Office, Outcome) {
    if denied.Some? then Conclude(cfg, o, inv, m, Validated, Rejected, denied, denied)
    else match AppendNext(cfg, o, inv, m, Validated, Reviewed, None)
      case Failure(e) => (o, Threw(StoreFailed(e)))
      case Success(reviewed) => AuthorizeReviewed(cfg, reviewed, inv, m)
  }

  /** From `validated`: the reviews. */
  function ReviewValidated(cfg: Config, o: Office, inv: Invocation, m: Message): (Office, Outcome) {
    var (o1, denied) := Review(cfg, o, inv, m);
    AfterReview(cfg, o1, inv, m, denied)
  }

  function AfterRouting(cfg: Config, o: Office, inv: Invocation, normalized: Message, routed: Result<Message, string>):
    (Office, Outcome)
  {
    match routed
    case Failure(reason) => Conclude(cfg, o, inv, normalized, Pending, Rejected, Some(reason), Some(reason))
    case Success(m) =>
      match AppendNext(cfg, o, inv, m, Pending, Validated, None)
      case Failure(e) => (o, Threw(StoreFailed(e)))
      case Success(validated) => ReviewValidated(cfg, validated, inv, m)
  }

  function Normalized(cfg: Config, o: Office, inv: Invocation, id: string): Message
    requires id in o.tables.messages
  {
    WithLawSnapshot(Caoni(cfg.rules, o.tables.messages[id].body), inv.now)
  }

  function ProcessDocket(cfg: Config, o: Office, inv: Invocation, id: string): (Office, Outcome) {
    if id !in o.tables.messages then (o, Threw(MessageNotFound)) else
      var normalized := Normalized(cfg, o, inv, id);
      var (o1, routed) := ApplyRoutingLaw(cfg, o, inv, normalized);
      AfterRouting(cfg, o1, inv, normalized, routed)
  }

  /** Finalization never looks at the stored state, and a shut gate is reported without being recorded. */
  function FinalizePending(cfg: Config, o: Office, inv: Invocation, id: string): (Office, Outcome) {
    if id !in o.tables.messages then (o, Threw(MessageNotFound)) else
      var m := WithLawSnapshot(o.tables.messages[id].body, inv.now);
      var (o1, gate) := Gates(cfg, o, inv, 0, m);
      FinalizeAfterGates(cfg, o1, inv, m, gate)
  }

  function FinalizeAfterGates(cfg: Config, o: Office, inv: Invocation, m: Message, gate: Gate): (Office, Outcome) {
    match gate
    case Shut(reason) => (o, Returned(Rejected, Some(reason)))
    case AwaitingAcks(_) => (o, Returned(Pending, Some("awaiting-protocol-acks")))
    case AwaitingConsensus => (o, Returned(Pending, Some("awaiting-pbft-consensus")))
    case Open => SealAndArchive(cfg, o, inv, m)
  }

  /** The docket worker's catch path: reject from whatever state is stored, naming the previous row's own
      previous hash as the previous hash. */
  function CatchTransition(t: Tables, id: string, nowMs: int, reason: string): Transition {
    var rows := GetTransitions(t, id);
    Transition(id, CurrentState(t, id), Rejected, |rows| + 1, Some("gateway-worker"), Some(nowMs), Some(reason),
               Some(if |rows| > 0 then rows[|rows| - 1].prevHash else "GENESIS"), nowMs)
  }

  function CatchFailure(cfg: Config, o: Office, id: string, nowMs: int, reason: string): (Office, Option<StoreError>) {
    if CurrentState(o.tables, id) == Rejected then (o, None)
    else match AppendTransition(cfg.digests, o.tables, CatchTransition(o.tables, id, nowMs, reason))
      case Success(after) => (o.(tables := after), None)
      case Failure(e) => (o, Some(e))
  }

  // ----- The calls on objects -----

  ghost function OfficeOf(store: Store, resolver: Resolver, pbft: Consensus.PbftConsensus?): Office
    reads store, resolver, pbft
  {
    Office(store.State(), resolver.cache, resolver.history, if pbft == null then None else Some(pbft.State()))
  }

  /** The objects are the configured ones. */
  ghost predicate Configured(cfg: Config, store: Store, resolver: Resolver, pbft: Consensus.PbftConsensus?)
    reads store, resolver, pbft
  {
    && store.digests == cfg.digests
    && resolver.archive == store && resolver.ttlMs == cfg.ttlMs
    && (pbft != null ==> pbft.signer == cfg.signer && pbft.options == cfg.pbft)
  }

  method AppendNextTransition(cfg: Config, store: Store, resolver: Resolver, pbft: Consensus.PbftConsensus?,
                              inv: Invocation, m: Message, from: MessageState, to: MessageState, reason: Option<string>)
    returns (e: Option<StoreError>)
    requires Configured(cfg, store, resolver, pbft)
    modifies store
    ensures AppendNext(cfg, old(OfficeOf(store, resolver, pbft)), inv, m, from, to, reason) ==
            if e.None? then Success(OfficeOf(store, resolver, pbft)) else Failure(e.value)
    ensures e.Some? ==> OfficeOf(store, resolver, pbft) == old(OfficeOf(store, resolver, pbft))
  {
    var rows := GetTransitions(store.State(), m.id);
    var n := |rows| + 1;
    var stamp := inv.stamps(n);
    var tr := Transition(m.id, from, to, n, Some(m.actor.id), Some(stamp.sealedAt), reason, None, stamp.at);
    assert tr == NextTransition(store.State(), inv, m, from, to, reason);
    e := store.InsertTransition(tr);
  }

  method Finish(cfg: Config, store: Store, resolver: Resolver, pbft: Consensus.PbftConsensus?, inv: Invocation, m: Message,
                from: MessageState, to: MessageState, reason: Option<string>, reported: Option<string>) returns (r: Outcome)
    requires Configured(cfg, store, resolver, pbft)
    modifies store
    ensures (OfficeOf(store, resolver, pbft), r) ==
            Conclude(cfg, old(OfficeOf(store, resolver, pbft)), inv, m, from, to, reason, reported)
  {
    var e := AppendNextTransition(cfg, store, resolver, pbft, inv, m, from, to, reason);
    r := if e.Some? then Threw(StoreFailed(e.value)) else Returned(to, reported);
  }

  method LoadLawContent<T>(cfg: Config, store: Store, resolver: Resolver, pbft: Consensus.PbftConsensus?, inv: Invocation,
                           k: nat, lawType: string, at: int, parse: string -> Option<T>) returns (r: Result<T, string>)
    requires Configured(cfg, store, resolver, pbft)
    modifies resolver
    ensures (OfficeOf(store, resolver, pbft), r) ==
            LoadLaw(cfg, old(OfficeOf(store, resolver, pbft)), inv, k, lawType, at, parse)
  {
    var lookup := resolver.Get(lawType, at, inv.lookups(k));
    r := ParseLaw(lookup, lawType, parse);
  }

  method PassGates(cfg: Config, store: Store, resolver: Resolver, pbft: Consensus.PbftConsensus?, inv: Invocation,
                   k: nat, m: Message) returns (gate: Gate)
    requires Configured(cfg, store, resolver, pbft)
    modifies resolver, pbft
    ensures (OfficeOf(store, resolver, pbft), gate) == Gates(cfg, old(OfficeOf(store, resolver, pbft)), inv, k, m)
  {
    var law := LoadLawContent(cfg, store, resolver, pbft, inv, k, "protocol", SnapshotAt(m), cfg.rules.protocol);
    if law.Failure? { return Shut(law.error); }
    var required := RequiredAcks(law.value, m);
    if required > 1 {
      var approvals := OfficeApprovals(store.State(), m.id);
      if |approvals| < required { return AwaitingAcks(required); }
    }
    if inv.consort && m.genre == "ti_definition" {
      if pbft == null { return AwaitingConsensus; }
      var proposed := pbft.ProposeDefinition(m.id, inv.nodeId, inv.proposedAt);
      if proposed.Failure? { return AwaitingConsensus; }
      if !Consensus.CommitIfThreshold(pbft.options, pbft.State(), m.id) { return AwaitingConsensus; }
    }
    return Open;
  }

  method StoreSeals(store: Store, seals: seq<SealRecord>) returns (e: Option<StoreError>)
    modifies store`seals
    ensures (store.State(), e) == PutSeals(old(store.State()), seals)
  {
    var k := 0;
    while k < |seals|
      invariant k <= |seals|
      invariant PutSeals(store.State(), seals[k..]) == PutSeals(old(store.State()), seals)
    {
      assert seals[k..][0] == seals[k] && seals[k..][1..] == seals[k + 1..];
      e := store.InsertSeal(seals[k]);
      if e.Some? { return; }
      k := k + 1;
    }
    return None;
  }

  method ApplySealsAndArchive(cfg: Config, store: Store, resolver: Resolver, pbft: Consensus.PbftConsensus?, inv: Invocation,
                              m: Message) returns (r: Outcome)
    requires Configured(cfg, store, resolver, pbft)
    modifies store, resolver
    ensures (OfficeOf(store, resolver, pbft), r) == SealAndArchive(cfg, old(OfficeOf(store, resolver, pbft)), inv, m)
  {
    var chain := CreateSealChain(cfg.crypto, m, inv.context, "GENESIS", inv.seals);
    if chain.Failure? {
      if chain.error == SigningFailed { return Threw(SealingFailed); }
      r := RejectAtOnce(cfg, store, resolver, pbft, inv, m, "insufficient-imperial-authority");
      return;
    }
    var valid := VerifySealChain(cfg.crypto, m, chain.value, inv.context, inv.verifiedAt);
    if valid != Some(true) {
      r := RejectAtOnce(cfg, store, resolver, pbft, inv, m, "invalid-seal-chain");
      return;
    }
    var e := StoreSeals(store, chain.value);
    if e.Some? { return Threw(StoreFailed(e.value)); }
    r := ArchiveAtOnce(cfg, store, resolver, pbft, inv, m);
  }

  method RejectAtOnce(cfg: Config, store: Store, resolver: Resolver, pbft: Consensus.PbftConsensus?, inv: Invocation,
                      m: Message, reason: string) returns (r: Outcome)
    requires Configured(cfg, store, resolver, pbft)
    modifies store
    ensures (OfficeOf(store, resolver, pbft), r) == RejectNow(cfg, old(OfficeOf(store, resolver, pbft)), inv, m, reason)
  {
    var current := CurrentState(store.State(), m.id);
    r := Finish(cfg, store, resolver, pbft, inv, m, current, Rejected, Some(reason), Some(reason));
  }

  method ArchiveAtOnce(cfg: Config, store: Store, resolver: Resolver, pbft: Consensus.PbftConsensus?, inv: Invocation,
                       m: Message) returns (r: Outcome)
    requires Configured(cfg, store, resolver, pbft)
    modifies store, resolver
    ensures (OfficeOf(store, resolver, pbft), r) == ArchiveNow(cfg, old(OfficeOf(store, resolver, pbft)), inv, m)
  {
    var current := CurrentState(store.State(), m.id);
    var e := AppendNextTransition(cfg, store, resolver, pbft, inv, m, current, Authorized, None);
    if e.Some? { return Threw(StoreFailed(e.value)); }
    r := ArchiveOnceAuthorized(cfg, store, resolver, pbft, inv, m);
  }

  method ArchiveOnceAuthorized(cfg: Config, store: Store, resolver: Resolver, pbft: Consensus.PbftConsensus?, inv: Invocation,
                               m: Message) returns (r: Outcome)
    requires Configured(cfg, store, resolver, pbft)
    modifies store, resolver
    ensures (OfficeOf(store, resolver, pbft), r) ==
            ArchiveAuthorized(cfg, old(OfficeOf(store, resolver, pbft)), inv, m)
  {
    var e := AppendNextTransition(cfg, store, resolver, pbft, inv, m, Authorized, MessageState.Archived, None);
    if e.Some? { return Threw(StoreFailed(e.value)); }
    MaybeInvalidateLaw(resolver, m);
    return Returned(MessageState.Archived, None);
  }

  method MaybeInvalidateLaw(resolver: Resolver, m: Message)
    modifies resolver`cache
    ensures resolver.cache == DropAfter(old(resolver.cache), m)
  {
    if m.genre != "edict" { return; }
    if m.payload.lawType.Some? && m.payload.lawType.value in LAW_TYPES {
      resolver.Invalidate(m.payload.lawType);
      return;
    }
    resolver.Invalidate(None);
  }

  method FinalizePendingMessage(cfg: Config, store: Store, resolver: Resolver, pbft: Consensus.PbftConsensus?, inv: Invocation,
                                id: string) returns (r: Outcome)
    requires Configured(cfg, store, resolver, pbft)
    modifies store, resolver, pbft
    ensures (OfficeOf(store, resolver, pbft), r) == FinalizePending(cfg, old(OfficeOf(store, resolver, pbft)), inv, id)
  {
    if id !in store.messages { return Threw(MessageNotFound); }
    var m := WithLawSnapshot(store.messages[id].body, inv.now);
    var gate := PassGates(cfg, store, resolver, pbft, inv, 0, m);
    match gate {
      case Shut(reason) => return Returned(Rejected, Some(reason));
      case AwaitingAcks(_) => return Returned(Pending, Some("awaiting-protocol-acks"));
      case AwaitingConsensus => return Returned(Pending, Some("awaiting-pbft-consensus"));
      case Open => r := ApplySealsAndArchive(cfg, store, resolver, pbft, inv, m);
    }
  }

  method ProcessDocketMessage(cfg: Config, store: Store, resolver: Resolver, pbft: Consensus.PbftConsensus?, inv: Invocation,
                              id: string) returns (r: Outcome)
    requires Configured(cfg, store, resolver, pbft)
    modifies store, resolver, pbft
    ensures (OfficeOf(store, resolver, pbft), r) == ProcessDocket(cfg, old(OfficeOf(store, resolver, pbft)), inv, id)
  {
    if id !in store.messages { return Threw(MessageNotFound); }
    var normalized := WithLawSnapshot(Caoni(cfg.rules, store.messages[id].body), inv.now);
    var law := LoadLawContent(cfg, store, resolver, pbft, inv, 0, "routing", SnapshotAt(normalized), cfg.rules.routing);
    var routed := if law.Success? then Route(law.value, normalized) else Failure(law.error);
    if routed.Failure? {
      r := Finish(cfg, store, resolver, pbft, inv, normalized, Pending, Rejected, Some(routed.error), Some(routed.error));
      return;
    }
    var m := routed.value;
    var e := AppendNextTransition(cfg, store, resolver, pbft, inv, m, Pending, Validated, None);
    if e.Some? { return Threw(StoreFailed(e.value)); }
    r := ProcessValidated(cfg, store, resolver, pbft, inv, m);
  }

  method ProcessValidated(cfg: Config, store: Store, resolver: Resolver, pbft: Consensus.PbftConsensus?, inv: Invocation,
                          m: Message) returns (r: Outcome)
    requires Configured(cfg, store, resolver, pbft)
    modifies store, resolver, pbft
    ensures (OfficeOf(store, resolver, pbft), r) == ReviewValidated(cfg, old(OfficeOf(store, resolver, pbft)), inv, m)
  {
    var denied := ReviewMessage(cfg, store, resolver, pbft, inv, m);
    if denied.Some? {
      r := Finish(cfg, store, resolver, pbft, inv, m, Validated, Rejected, denied, denied);
      return;
    }
    var e := AppendNextTransition(cfg, store, resolver, pbft, inv, m, Validated, Reviewed, None);
    if e.Some? { return Threw(StoreFailed(e.value)); }
    r := ProcessReviewed(cfg, store, resolver, pbft, inv, m);
  }

  method ReviewMessage(cfg: Config, store: Store, resolver: Resolver, pbft: Consensus.PbftConsensus?, inv: Invocation,
                       m: Message) returns (denied: Option<string>)
    requires Configured(cfg, store, resolver, pbft)
    modifies resolver
    ensures (OfficeOf(store, resolver, pbft), denied) == Review(cfg, old(OfficeOf(store, resolver, pbft)), inv, m)
  {
    denied := Shenfu(cfg.rules, m);
    if denied.Some? { return; }
    denied := ShenfuSchema(cfg.rules, store.types, m, inv.schemaAt);
    if denied.Some? { return; }
    var appointment := LoadLawContent(cfg, store, resolver, pbft, inv, 1, "appointment", SnapshotAt(m), cfg.rules.appointment);
    denied := Judge(appointment, law => ReviewUnder(cfg.rules, law, m));
    if denied.Some? { return; }
    var classification :=
      LoadLawContent(cfg, store, resolver, pbft, inv, 2, "classification", SnapshotAt(m), cfg.rules.classification);
    denied := Judge(classification, levels => ClassifyUnder(levels, m));
  }

  method ProcessReviewed(cfg: Config, store: Store, resolver: Resolver, pbft: Consensus.PbftConsensus?, inv: Invocation,
                         m: Message) returns (r: Outcome)
    requires Configured(cfg, store, resolver, pbft)
    modifies store, resolver, pbft
    ensures (OfficeOf(store, resolver, pbft), r) == AuthorizeReviewed(cfg, old(OfficeOf(store, resolver, pbft)), inv, m)
  {
    var appointment := LoadLawContent(cfg, store, resolver, pbft, inv, 3, "appointment", SnapshotAt(m), cfg.rules.appointment);
    var denied := Judge(appointment, law => AuthorizeUnder(cfg.rules, law, m));
    if denied.Some? {
      r := Finish(cfg, store, resolver, pbft, inv, m, Reviewed, Rejected, denied, denied);
      return;
    }
    var gate := PassGates(cfg, store, resolver, pbft, inv, 4, m);
    r := ProcessGated(cfg, store, resolver, pbft, inv, m, gate);
  }

  method ProcessGated(cfg: Config, store: Store, resolver: Resolver, pbft: Consensus.PbftConsensus?, inv: Invocation,
                      m: Message, gate: Gate) returns (r: Outcome)
    requires Configured(cfg, store, resolver, pbft)
    modifies store, resolver
    ensures (OfficeOf(store, resolver, pbft), r) == AfterGates(cfg, old(OfficeOf(store, resolver, pbft)), inv, m, gate)
  {
    match gate {
      case Shut(reason) =>
        r := Finish(cfg, store, resolver, pbft, inv, m, Reviewed, Rejected, Some(reason), Some(reason));
      case AwaitingAcks(required) =>
        var reason := "awaiting-protocol-acks-" + cfg.rules.decimal(required);
        r := Finish(cfg, store, resolver, pbft, inv, m, Reviewed, Pending, Some(reason), None);
      case AwaitingConsensus =>
        var reason := "awaiting-pbft-consensus";
        r := Finish(cfg, store, resolver, pbft, inv, m, Reviewed, Pending, Some(reason), Some(reason));
      case Open => r := ApplySealsAndArchive(cfg, store, resolver, pbft, inv, m);
    }
  }

  method CatchWorkerFailure(cfg: Config, store: Store, resolver: Resolver, pbft: Consensus.PbftConsensus?, id: string,
                            nowMs: int, reason: string) returns (e: Option<StoreError>)
    requires Configured(cfg, store, resolver, pbft)
    modifies store
    ensures (OfficeOf(store, resolver, pbft), e) ==
            CatchFailure(cfg, old(OfficeOf(store, resolver, pbft)), id, nowMs, reason)
  {
    var fromState := CurrentState(store.State(), id);
    if fromState == Rejected { return None; }
    e := store.InsertTransition(CatchTransition(store.State(), id, nowMs, reason));
  }
}
