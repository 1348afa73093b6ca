/** What routing lets through, and the empty payload. */
module PipelineReviews {
  import opened Wrappers
  import opened Kinds
  import opened Archive
  import opened Pipeline
  import opened PipelineEffects
  import opened PipelineGrounds
  import opened PipelineSteps
  import opened PipelineTerms
  import opened TypeDefinitions

  // ----- Routing -----

  /** The law has destinations for the message's genre. */
  predicate Listed(table: map<string, seq<string>>, m: Message) {
    m.genre in table && table[m.genre] != []
  }

  /** Routing refuses exactly a destination that is not listed where some are. What it lets through is settled:
      listed where some are, changed only where no destination was named, and left alone by routing it again. */
  lemma RoutingSettles(table: map<string, seq<string>>, m: Message)
    ensures Pipeline.Route(table, m).Failure? <==>
              Listed(table, m) && exists d :: d in m.payload.destination && d !in table[m.genre]
    ensures Pipeline.Route(table, m).Success? ==>
              var r := Pipeline.Route(table, m).value;
              Pipeline.Route(table, r) == Success(r) &&
              (Listed(table, m) ==> r.payload.destination != [] && forall d | d in r.payload.destination :: d in table[m.genre]) &&
              (r == m <==> !Listed(table, m) || m.payload.destination != []) &&
              r.(payload := m.payload) == m && m.payload.destination <= r.payload.destination &&
              r.payload.(keys := m.payload.keys, destination := m.payload.destination) == m.payload
  {
    RouteExactly(table, m);
    if Pipeline.Route(table, m).Success? {
      var r := Pipeline.Route(table, m).value;
      RouteExactly(table, r);
      if Listed(table, m) && m.payload.destination == [] { assert r.payload.destination != []; }
    }
  }

  // ----- The empty payload -----

  const EMPTY := Returned(Rejected, Some("empty-payload"))

  /** Reasons that cannot be mistaken for the empty payload's. */
  predicate Otherwise(reason: Option<string>) {
    reason.Some? ==> |reason.value| > 0 && reason.value[0] != 'e'
  }

  lemma ParseLawOtherwise<T>(cfg: Config, o: Office, inv: Invocation, k: nat, lawType: string, at: int, parse: string -> Option<T>)
    requires |lawType| > 0 && lawType[0] != 'e'
    ensures var law := LoadLaw(cfg, o, inv, k, lawType, at, parse).1;
            law.Failure? ==> Otherwise(Some(law.error))
  {
  }

  lemma ConcludeOtherwise(cfg: Config, o: Office, inv: Invocation, m: Message, from: MessageState, to: MessageState,
                          reason: Option<string>, reported: Option<string>)
    requires Otherwise(reported)
    ensures Conclude(cfg, o, inv, m, from, to, reason, reported).1 != EMPTY
  {
  }

  lemma SealAndArchiveOtherwise(cfg: Config, o: Office, inv: Invocation, m: Message)
    ensures SealAndArchive(cfg, o, inv, m).1 != EMPTY
  {
  }

  lemma GatesOtherwise(cfg: Config, o: Office, inv: Invocation, k: nat, m: Message)
    ensures var gate := Gates(cfg, o, inv, k, m).1;
            gate.Shut? ==> Otherwise(Some(gate.reason))
  {
    ParseLawOtherwise(cfg, o, inv, k, "protocol", SnapshotAt(m), cfg.rules.protocol);
  }

  lemma AfterGatesOtherwise(cfg: Config, o: Office, inv: Invocation, m: Message, gate: Gate)
    requires gate.Shut? ==> Otherwise(Some(gate.reason))
    ensures AfterGates(cfg, o, inv, m, gate).1 != EMPTY
  {
    if gate == Open { SealAndArchiveOtherwise(cfg, o, inv, m); }
  }

  lemma AfterAuthorizationOtherwise(cfg: Config, o: Office, inv: Invocation, m: Message, denied: Option<string>)
    requires Otherwise(denied)
    ensures AfterAuthorization(cfg, o, inv, m, denied).1 != EMPTY
  {
    if denied.Some? {
      ConcludeOtherwise(cfg, o, inv, m, Reviewed, Rejected, denied, denied);
    } else {
      var (o1, gate) := Gates(cfg, o, inv, 4, m);
      GatesOtherwise(cfg, o, inv, 4, m);
      AfterGatesOtherwise(cfg, o1, inv, m, gate);
    }
  }

  lemma AuthorizeReviewedOtherwise(cfg: Config, o: Office, inv: Invocation, m: Message)
    ensures AuthorizeReviewed(cfg, o, inv, m).1 != EMPTY
  {
    var (o1, appointment) := LoadLaw(cfg, o, inv, 3, "appointment", SnapshotAt(m), cfg.rules.appointment);
    ParseLawOtherwise(cfg, o, inv, 3, "appointment", SnapshotAt(m), cfg.rules.appointment);
    AfterAuthorizationOtherwise(cfg, o1, inv, m, Judge(appointment, law => AuthorizeUnder(cfg.rules, law, m)));
  }

  lemma ObjectionOtherwise(rules: Rules, types: TypeIndex, m: Message, now: int)
    requires m.payload.keys != {}
    ensures Otherwise(Objection(rules, types, m, now))
  {
    assert Otherwise(Shenfu(rules, m));
    assert Otherwise(ShenfuSchema(rules, types, m, now));
  }

  lemma AppointmentOtherwise(cfg: Config, o: Office, inv: Invocation, m: Message)
    ensures Otherwise(Judge(LoadLaw(cfg, o, inv, 1, "appointment", SnapshotAt(m), cfg.rules.appointment).1,
                            law => ReviewUnder(cfg.rules, law, m)))
  {
    ParseLawOtherwise(cfg, o, inv, 1, "appointment", SnapshotAt(m), cfg.rules.appointment);
    var law := LoadLaw(cfg, o, inv, 1, "appointment", SnapshotAt(m), cfg.rules.appointment).1;
    if law.Success? { assert Otherwise(ReviewUnder(cfg.rules, law.value, m)); }
  }

  lemma ClassificationOtherwise(cfg: Config, o: Office, inv: Invocation, m: Message)
    ensures Otherwise(Judge(LoadLaw(cfg, o, inv, 2, "classification", SnapshotAt(m), cfg.rules.classification).1,
                            levels => ClassifyUnder(levels, m)))
  {
    ParseLawOtherwise(cfg, o, inv, 2, "classification", SnapshotAt(m), cfg.rules.classification);
    var law := LoadLaw(cfg, o, inv, 2, "classification", SnapshotAt(m), cfg.rules.classification).1;
    if law.Success? { assert Otherwise(ClassifyUnder(law.value, m)); }
  }

  lemma ReviewOtherwise(cfg: Config, o: Office, inv: Invocation, m: Message)
    requires m.payload.keys != {}
    ensures Otherwise(Review(cfg, o, inv, m).1)
  {
    ObjectionOtherwise(cfg.rules, o.tables.types, m, inv.schemaAt);
    var o1 := LoadLaw(cfg, o, inv, 1, "appointment", SnapshotAt(m), cfg.rules.appointment).0;
    AppointmentOtherwise(cfg, o, inv, m);
    ClassificationOtherwise(cfg, o1, inv, m);
  }

  lemma ReviewValidatedEmpty(cfg: Config, o: Office, inv: Invocation, m: Message)
    ensures ReviewValidated(cfg, o, inv, m).1 == EMPTY ==> m.payload.keys == {}
    ensures m.payload.keys == {} ==>
              (ReviewValidated(cfg, o, inv, m) ==
               Conclude(cfg, o, inv, m, Validated, Rejected, Some("empty-payload"), Some("empty-payload")))
  {
    var (o1, denied) := Review(cfg, o, inv, m);
    if m.payload.keys != {} {
      ReviewOtherwise(cfg, o, inv, m);
      if denied.Some? {
        ConcludeOtherwise(cfg, o1, inv, m, Validated, Rejected, denied, denied);
      } else if AppendNext(cfg, o1, inv, m, Validated, Reviewed, None).Success? {
        AuthorizeReviewedOtherwise(cfg, AppendNext(cfg, o1, inv, m, Validated, Reviewed, None).value, inv, m);
      }
    }
  }

  /** Routing has nothing to add to this message. */
  predicate NothingAdded(cfg: Config, o: Office, inv: Invocation, m: Message) {
    var law := LoadLaw(cfg, o, inv, 0, "routing", SnapshotAt(m), cfg.rules.routing).1;
    law.Success? ==> !Listed(law.value, m) || m.payload.destination != []
  }

  /** A docket step turns a pending message down for an empty payload exactly when routing went through, no key is
      left in the payload, and routing had no destination to add: an empty payload that routing fills in passes. */
  lemma EmptyRefusedExactly(cfg: Config, o: Office, inv: Invocation, id: string)
    requires Orderly(cfg, o) && Track(cfg.digests, o.tables, id, Pending)
    ensures var m := Normalized(cfg, o, inv, id);
            ProcessDocket(cfg, o, inv, id).1 == EMPTY <==>
              ApplyRoutingLaw(cfg, o, inv, m).1.Success? && m.payload.keys == {} && NothingAdded(cfg, o, inv, m)
  {
    assert o.tables.messages[id].body.id == id;
    var m := Normalized(cfg, o, inv, id);
    var (o1, routed) := ApplyRoutingLaw(cfg, o, inv, m);
    RoutingConsults(cfg, o, inv, m);
    RoutedIsCopy(cfg, o, inv, id);
    RoutedKeys(cfg, o, inv, m);
    match routed
    case Failure(reason) =>
      RoutingOtherwise(cfg, o, inv, m);
      ConcludeOtherwise(cfg, o1, inv, m, Pending, Rejected, Some(reason), Some(reason));
    case Success(r) => AfterRoutingEmpty(cfg, o1, inv, m, r);
  }

  lemma RoutedKeys(cfg: Config, o: Office, inv: Invocation, m: Message)
    ensures var routed := ApplyRoutingLaw(cfg, o, inv, m).1;
            routed.Success? ==> (routed.value.payload.keys == {} <==> m.payload.keys == {} && NothingAdded(cfg, o, inv, m))
  {
    var law := LoadLaw(cfg, o, inv, 0, "routing", SnapshotAt(m), cfg.rules.routing).1;
    if law.Success? {
      RouteExactly(law.value, m);
      if Listed(law.value, m) && m.payload.destination == [] { assert "routing" in m.payload.keys + {"routing"}; }
    }
  }

  lemma RoutingOtherwise(cfg: Config, o: Office, inv: Invocation, m: Message)
    ensures var routed := ApplyRoutingLaw(cfg, o, inv, m).1;
            routed.Failure? ==> Otherwise(Some(routed.error))
  {
    ParseLawOtherwise(cfg, o, inv, 0, "routing", SnapshotAt(m), cfg.rules.routing);
  }

  lemma EmptyRejected(cfg: Config, o: Office, inv: Invocation, m: Message)
    requires Track(cfg.digests, o.tables, m.id, Validated)
    ensures Conclude(cfg, o, inv, m, Validated, Rejected, Some("empty-payload"), Some("empty-payload")).1 == EMPTY
  {
    AppendNextMoves(cfg, o, inv, m, Validated, Rejected, Some("empty-payload"));
  }

  lemma AfterRoutingIs(cfg: Config, o: Office, inv: Invocation, normalized: Message, m: Message, validated: Office)
    requires AppendNext(cfg, o, inv, m, Pending, Validated, None) == Success(validated)
    ensures AfterRouting(cfg, o, inv, normalized, Success(m)) == ReviewValidated(cfg, validated, inv, m)
  {
  }

  lemma AfterRoutingEmpty(cfg: Config, o: Office, inv: Invocation, normalized: Message, m: Message)
    requires Track(cfg.digests, o.tables, m.id, Pending)
    ensures AfterRouting(cfg, o, inv, normalized, Success(m)).1 == EMPTY <==> m.payload.keys == {}
  {
    AppendNextMoves(cfg, o, inv, m, Pending, Validated, None);
    var validated := AppendNext(cfg, o, inv, m, Pending, Validated, None).value;
    AfterRoutingIs(cfg, o, inv, normalized, m, validated);
    ReviewValidatedEmpty(cfg, validated, inv, m);
    if m.payload.keys == {} { EmptyRejected(cfg, validated, inv, m); }
  }

  /** An empty payload that the first review lets through, exactly: routing went through and filled it in, and the
      author may draft a works genre. */
  lemma EmptyPassesExactly(cfg: Config, o: Office, inv: Invocation, m: Message)
    requires m.payload.keys == {}
    ensures var routed := ApplyRoutingLaw(cfg, o, inv, m).1;
            routed.Success? && Shenfu(cfg.rules, routed.value).None? <==>
              routed.Success? && !NothingAdded(cfg, o, inv, m) &&
              (cfg.rules.isWorksGenre(m.genre) ==> cfg.rules.canDraftGenre(m.actor.role, m.genre))
  {
    RoutedKeys(cfg, o, inv, m);
    var law := LoadLaw(cfg, o, inv, 0, "routing", SnapshotAt(m), cfg.rules.routing).1;
    if law.Success? { RouteExactly(law.value, m); }
  }
}
