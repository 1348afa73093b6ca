/** What it takes for a proposal to be committed, in terms of the entries of the log alone. */
module Commitment {
  import opened Wrappers
  import opened Consensus

  /** The log holds an entry of the phase about the proposal by the node. */
  ghost predicate Holds(r: Replica, proposalId: string, phase: Phase, node: string) {
    proposalId in r.log && exists m | m in r.log[proposalId] :: m.body.phase == phase && m.body.nodeId == node
  }

  /** Somebody has proposed it, and at least `threshold` nodes, whoever they are, have each prepared it, and as many, the
      same or others, have each committed it. */
  ghost predicate Agreed(o: Options, r: Replica, proposalId: string, preparers: set<string>, committers: set<string>) {
    && (exists leader :: Holds(r, proposalId, PrePrepare, leader))
    && |preparers| >= o.threshold && (forall n | n in preparers :: Holds(r, proposalId, Prepare, n))
    && |committers| >= o.threshold && (forall n | n in committers :: Holds(r, proposalId, Commit, n))
  }

  lemma VotersHold(r: Replica, proposalId: string, phase: Phase, node: string)
    ensures node in Voters(Messages(r, proposalId), phase) <==> Holds(r, proposalId, phase, node)
  {
    var msgs := Messages(r, proposalId);
    if Holds(r, proposalId, phase, node) {
      var m :| m in r.log[proposalId] && m.body.phase == phase && m.body.nodeId == node;
      var i :| 0 <= i < |msgs| && msgs[i] == m;
    }
  }

  lemma LeaderHolds(r: Replica, proposalId: string)
    ensures var msgs := Messages(r, proposalId);
            (exists i | 0 <= i < |msgs| :: msgs[i].body.phase == PrePrepare) <==>
            exists leader :: Holds(r, proposalId, PrePrepare, leader)
  {
    var msgs := Messages(r, proposalId);
    if i :| 0 <= i < |msgs| && msgs[i].body.phase == PrePrepare {
      assert msgs[i] in r.log[proposalId];
      assert Holds(r, proposalId, PrePrepare, msgs[i].body.nodeId);
    }
    if leader :| Holds(r, proposalId, PrePrepare, leader) {
      var m :| m in r.log[proposalId] && m.body.phase == PrePrepare && m.body.nodeId == leader;
      var i :| 0 <= i < |msgs| && msgs[i] == m;
    }
  }

  lemma EnoughVoters(r: Replica, proposalId: string, phase: Phase, nodes: set<string>, threshold: int)
    requires |nodes| >= threshold && forall n | n in nodes :: Holds(r, proposalId, phase, n)
    ensures |Voters(Messages(r, proposalId), phase)| >= threshold
  {
    var voters := Voters(Messages(r, proposalId), phase);
    forall n | n in nodes ensures n in voters { VotersHold(r, proposalId, phase, n); }
    SmallerSet(nodes, voters);
  }

  /** A proposal is committed exactly when some such nodes have agreed on it. */
  lemma CommittedExactly(o: Options, r: Replica, proposalId: string)
    ensures CommitIfThreshold(o, r, proposalId) <==>
            exists preparers, committers :: Agreed(o, r, proposalId, preparers, committers)
  {
    LeaderHolds(r, proposalId);
    if CommitIfThreshold(o, r, proposalId) {
      var preparers, committers := Voters(Messages(r, proposalId), Prepare), Voters(Messages(r, proposalId), Commit);
      forall n | n in preparers ensures Holds(r, proposalId, Prepare, n) { VotersHold(r, proposalId, Prepare, n); }
      forall n | n in committers ensures Holds(r, proposalId, Commit, n) { VotersHold(r, proposalId, Commit, n); }
      assert Agreed(o, r, proposalId, preparers, committers);
    }
    if preparers, committers :| Agreed(o, r, proposalId, preparers, committers) {
      EnoughVoters(r, proposalId, Prepare, preparers, o.threshold);
      EnoughVoters(r, proposalId, Commit, committers, o.threshold);
    }
  }

  // ----- What is taken in -----

  /** The log has an entry of the node's for that phase and view. */
  ghost predicate SlotTaken(r: Replica, proposalId: string, node: string, phase: Phase, view: int) {
    proposalId in r.log && exists m | m in r.log[proposalId] :: m.body.nodeId == node && m.body.phase == phase && m.body.viewNo == view
  }

  lemma SlotIs(r: Replica, msg: PbftMessage)
    ensures SlotTaken(r, msg.body.proposalId, msg.body.nodeId, msg.body.phase, msg.body.viewNo) <==>
            var arr := Messages(r, msg.body.proposalId); exists i | 0 <= i < |arr| :: SameSlot(arr[i], msg)
  {
    var arr := Messages(r, msg.body.proposalId);
    if i :| 0 <= i < |arr| && SameSlot(arr[i], msg) { assert arr[i] in arr; }
  }

  /** A key is known if it is there and not the empty text. */
  predicate Known(keys: map<string, string>, node: string) {
    node in keys && keys[node] != ""
  }

  /** A message is refused for the first thing wrong with it: no member, another phase, no known key, a signature that does
      not verify. One that is in order is taken in unless its slot is; nothing else changes. */
  lemma ReceivedExactly(s: Signer, o: Options, r: Replica, msg: PbftMessage, phase: Phase)
    ensures var body := msg.body;
            AppendMessage(s, o, r, msg, phase) ==
            if body.nodeId !in o.replicaSet then (r, Failure(UnknownNode))
            else if body.phase != phase then (r, Failure(InvalidPhase))
            else if !Known(r.publicKeys, body.nodeId) then (r, Failure(InvalidSignature))
            else if s.verify(body, msg.signature, r.publicKeys[body.nodeId]).None? then (r, Failure(MalformedKey))
            else if !s.verify(body, msg.signature, r.publicKeys[body.nodeId]).value then (r, Failure(InvalidSignature))
            else if SlotTaken(r, body.proposalId, body.nodeId, body.phase, body.viewNo) then (r, Success(false))
            else (Replica(r.log[body.proposalId := (if body.proposalId in r.log then r.log[body.proposalId] else []) + [msg]],
                          r.viewNo, r.publicKeys), Success(true))
  {
    SlotIs(r, msg);
  }

  /** What the node itself signs: without a private key or with a malformed one nothing; otherwise its public key is known
      from then on, and the signed message is taken in as a received one is. */
  lemma SignedExactly(s: Signer, o: Options, r: Replica, body: ToSign)
    ensures var (after, result) := SignAndAppend(s, o, r, body);
            if !Known(o.replicaPrivateKeys, body.nodeId) then after == r && result == Failure(MissingPrivateKey)
            else
              var key := o.replicaPrivateKeys[body.nodeId];
              if !Known(r.publicKeys, body.nodeId) && s.publicKey(key).None? then after == r && result == Failure(MalformedKey)
              else
                var learned := if Known(r.publicKeys, body.nodeId) then r
                               else r.(publicKeys := r.publicKeys[body.nodeId := s.publicKey(key).value]);
                if s.sign(body, key).None? then after == learned && result == Failure(MalformedKey)
                else
                  var msg := PbftMessage(body, s.sign(body, key).value);
                  after == AppendMessage(s, o, learned, msg, body.phase).0 &&
                  result == (if AppendMessage(s, o, learned, msg, body.phase).1.Success? then Success(msg)
                             else Failure(AppendMessage(s, o, learned, msg, body.phase).1.error))
  {
  }

  // ----- Runs -----

  /** The event is the receipt of a message of the phase about the proposal, by a member whose known key it verifies under. */
  ghost predicate Delivers(s: Signer, o: Options, r: Replica, e: Event, proposalId: string, phase: Phase, node: string) {
    && e.Receive? && e.phase == phase && e.msg.body.phase == phase && e.msg.body.proposalId == proposalId
    && e.msg.body.nodeId == node && node in o.replicaSet
    && node in r.publicKeys && r.publicKeys[node] != ""
    && s.verify(e.msg.body, e.msg.signature, r.publicKeys[node]) == Some(true)
  }

  lemma DeliveredEnters(s: Signer, o: Options, viewChangeId: nat -> string, r: Replica, e: Event, proposalId: string, phase: Phase,
                        node: string)
    requires Delivers(s, o, r, e, proposalId, phase, node)
    ensures Holds(Step(s, o, viewChangeId, r, e), proposalId, phase, node)
  {
    var arr, after := Messages(r, proposalId), Step(s, o, viewChangeId, r, e);
    if i :| 0 <= i < |arr| && SameSlot(arr[i], e.msg) {
      assert arr[i] in after.log[proposalId];
    } else {
      assert after.log[proposalId] == arr + [e.msg];
      assert e.msg in after.log[proposalId];
    }
  }

  lemma HoldsStays(r: Replica, after: Replica, proposalId: string, phase: Phase, node: string)
    requires Extends(r, after) && Holds(r, proposalId, phase, node)
    ensures Holds(after, proposalId, phase, node)
  {
    var m :| m in r.log[proposalId] && m.body.phase == phase && m.body.nodeId == node;
    assert Messages(r, proposalId) <= Messages(after, proposalId);
    assert m in after.log[proposalId];
  }

  lemma DeliversStays(s: Signer, o: Options, r: Replica, after: Replica, e: Event, proposalId: string, phase: Phase, node: string)
    requires Extends(r, after) && Delivers(s, o, r, e, proposalId, phase, node)
    ensures Delivers(s, o, after, e, proposalId, phase, node)
  {
    assert KeyOf(r.publicKeys, node).Some?;
  }

  /** What is delivered at any point of a run is in the log at its end. */
  lemma {:induction false} DeliveredInRun(s: Signer, o: Options, viewChangeId: nat -> string, r: Replica, events: seq<Event>,
                                          i: nat, proposalId: string, phase: Phase, node: string)
    requires LogValid(s, o, r) && i < |events| && Delivers(s, o, r, events[i], proposalId, phase, node)
    ensures Holds(Run(s, o, viewChangeId, r, events), proposalId, phase, node)
    decreases i
  {
    var next := Step(s, o, viewChangeId, r, events[0]);
    StepKeeps(s, o, viewChangeId, r, events[0]);
    if i == 0 {
      DeliveredEnters(s, o, viewChangeId, r, events[0], proposalId, phase, node);
      RunKeeps(s, o, viewChangeId, next, events[1..]);
      HoldsStays(next, Run(s, o, viewChangeId, next, events[1..]), proposalId, phase, node);
    } else {
      DeliversStays(s, o, r, next, events[i], proposalId, phase, node);
      DeliveredInRun(s, o, viewChangeId, next, events[1..], i - 1, proposalId, phase, node);
    }
  }

  ghost predicate Delivered(s: Signer, o: Options, r: Replica, events: seq<Event>, proposalId: string, phase: Phase, node: string) {
    exists i: nat :: i < |events| && Delivers(s, o, r, events[i], proposalId, phase, node)
  }

  /** Whatever the order, and whatever else happens in between: a run that gets a proposal, its preparation by enough
      members and its commitment by enough members in ends with the proposal committed. */
  lemma RunCommits(s: Signer, o: Options, viewChangeId: nat -> string, r: Replica, events: seq<Event>, proposalId: string,
                   leader: string, preparers: set<string>, committers: set<string>)
    requires LogValid(s, o, r) && |preparers| >= o.threshold && |committers| >= o.threshold
    requires Delivered(s, o, r, events, proposalId, PrePrepare, leader)
    requires forall n | n in preparers :: Delivered(s, o, r, events, proposalId, Prepare, n)
    requires forall n | n in committers :: Delivered(s, o, r, events, proposalId, Commit, n)
    ensures CommitIfThreshold(o, Run(s, o, viewChangeId, r, events), proposalId)
  {
    var after := Run(s, o, viewChangeId, r, events);
    DeliveredHolds(s, o, viewChangeId, r, events, proposalId, PrePrepare, leader);
    forall n | n in preparers ensures Holds(after, proposalId, Prepare, n) {
      DeliveredHolds(s, o, viewChangeId, r, events, proposalId, Prepare, n);
    }
    forall n | n in committers ensures Holds(after, proposalId, Commit, n) {
      DeliveredHolds(s, o, viewChangeId, r, events, proposalId, Commit, n);
    }
    assert Agreed(o, after, proposalId, preparers, committers);
    CommittedExactly(o, after, proposalId);
  }

  lemma DeliveredHolds(s: Signer, o: Options, viewChangeId: nat -> string, r: Replica, events: seq<Event>, proposalId: string,
                       phase: Phase, node: string)
    requires LogValid(s, o, r) && Delivered(s, o, r, events, proposalId, phase, node)
    ensures Holds(Run(s, o, viewChangeId, r, events), proposalId, phase, node)
  {
    var i: nat :| i < |events| && Delivers(s, o, r, events[i], proposalId, phase, node);
    DeliveredInRun(s, o, viewChangeId, r, events, i, proposalId, phase, node);
  }
}
