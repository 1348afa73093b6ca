/** One replica's view of the PBFT-style agreement on constitutional changes. */
module Consensus {
  import opened Wrappers

  datatype Phase = PrePrepare | Prepare | Commit | ViewChange

  datatype ToSign = ToSign(proposalId: string, viewNo: int, nodeId: string, phase: Phase, at: int)

  datatype PbftMessage = PbftMessage(body: ToSign, signature: string)

  /** Ed25519 over the canonical payload; None where malformed key material makes it throw. */
  datatype Signer = Signer(
    sign: (ToSign, string) -> Option<string>,
    verify: (ToSign, string, string) -> Option<bool>,
    publicKey: string -> Option<string>)

  ghost predicate SignerSound(s: Signer) {
    forall body, key :: s.sign(body, key).Some? && s.publicKey(key).Some? ==>
      s.verify(body, s.sign(body, key).value, s.publicKey(key).value) == Some(true)
  }

  datatype Options = Options(
    replicaSet: seq<string>, threshold: int, allowSingleReplica: bool,
    replicaPublicKeys: map<string, string>, replicaPrivateKeys: map<string, string>)

  datatype PbftError =
    InvalidThreshold | UnknownNode | InvalidPhase | InvalidSignature | MissingPrivateKey | MalformedKey

  datatype Replica = Replica(log: map<string, seq<PbftMessage>>, viewNo: nat, publicKeys: map<string, string>)

  /** A key that is there and not the empty text. */
  function KeyOf(keys: map<string, string>, node: string): Option<string> {
    if node in keys && keys[node] != "" then Some(keys[node]) else None
  }

  function Messages(r: Replica, proposalId: string): seq<PbftMessage> {
    if proposalId in r.log then r.log[proposalId] else []
  }

  predicate SameSlot(a: PbftMessage, b: PbftMessage) {
    a.body.nodeId == b.body.nodeId && a.body.phase == b.body.phase && a.body.viewNo == b.body.viewNo
  }

  // ----- Operations -----

  function AppendMessage(s: Signer, o: Options, r: Replica, msg: PbftMessage, phase: Phase): (Replica, Result<bool, PbftError>) {
    if msg.body.nodeId !in o.replicaSet then (r, Failure(UnknownNode))
    else if msg.body.phase != phase then (r, Failure(InvalidPhase))
    else match KeyOf(r.publicKeys, msg.body.nodeId)
      case None => (r, Failure(InvalidSignature))
      case Some(key) =>
        match s.verify(msg.body, msg.signature, key)
        case None => (r, Failure(MalformedKey))
        case Some(false) => (r, Failure(InvalidSignature))
        case Some(true) =>
          var arr := Messages(r, msg.body.proposalId);
          if exists i | 0 <= i < |arr| :: SameSlot(arr[i], msg) then (r, Success(false))
          else (r.(log := r.log[msg.body.proposalId := arr + [msg]]), Success(true))
  }

  /** Sign with the node's own key, learning its public key on the way, and append. */
  function SignAndAppend(s: Signer, o: Options, r: Replica, body: ToSign): (Replica, Result<PbftMessage, PbftError>) {
    match KeyOf(o.replicaPrivateKeys, body.nodeId)
    case None => (r, Failure(MissingPrivateKey))
    case Some(key) =>
      match LearnKey(s, r, body.nodeId, key)
      case None => (r, Failure(MalformedKey))
      case Some(learned) =>
        match s.sign(body, key)
        case None => (learned, Failure(MalformedKey))
        case Some(signature) =>
          var msg := PbftMessage(body, signature);
          match AppendMessage(s, o, learned, msg, body.phase)
          case (after, Success(_)) => (after, Success(msg))
          case (after, Failure(e)) => (after, Failure(e))
  }

  function LearnKey(s: Signer, r: Replica, node: string, privateKey: string): Option<Replica> {
    if KeyOf(r.publicKeys, node).Some? then Some(r)
    else match s.publicKey(privateKey)
      case None => None
      case Some(k) => Some(r.(publicKeys := r.publicKeys[node := k]))
  }

  function ProposeTiDefinition(s: Signer, o: Options, r: Replica, proposalId: string, leader: string, at: int):
    (Replica, Result<PbftMessage, PbftError>)
  {
    SignAndAppend(s, o, r, ToSign(proposalId, r.viewNo, leader, PrePrepare, at))
  }

  /** The view moves on even when the announcement then fails; `viewChangeId` names it after the new view. */
  function OnViewChange(s: Signer, o: Options, r: Replica, node: string, at: int, viewChangeId: nat -> string):
    (Replica, Result<PbftMessage, PbftError>)
  {
    var moved := r.(viewNo := r.viewNo + 1);
    SignAndAppend(s, o, moved, ToSign(viewChangeId(moved.viewNo), moved.viewNo, node, ViewChange, at))
  }

  function Voters(msgs: seq<PbftMessage>, phase: Phase): set<string> {
    set i | 0 <= i < |msgs| && msgs[i].body.phase == phase :: msgs[i].body.nodeId
  }

  predicate CommitIfThreshold(o: Options, r: Replica, proposalId: string) {
    var msgs := Messages(r, proposalId);
    && (exists i | 0 <= i < |msgs| :: msgs[i].body.phase == PrePrepare)
    && |Voters(msgs, Prepare)| >= o.threshold
    && |Voters(msgs, Commit)| >= o.threshold
  }

  /** A member whose known public key, if any, matches its private key gets its own proposal through, once. */
  lemma OwnProposalEnters(s: Signer, o: Options, r: Replica, proposalId: string, leader: string, at: int)
    requires SignerSound(s) && leader in o.replicaSet && KeyOf(o.replicaPrivateKeys, leader).Some?
    requires var key := KeyOf(o.replicaPrivateKeys, leader).value;
             s.publicKey(key).Some? && s.publicKey(key).value != "" &&
             s.sign(ToSign(proposalId, r.viewNo, leader, PrePrepare, at), key).Some? &&
             (KeyOf(r.publicKeys, leader).Some? ==> KeyOf(r.publicKeys, leader) == s.publicKey(key))
    ensures var (after, result) := ProposeTiDefinition(s, o, r, proposalId, leader, at);
            result.Success? && exists m :: m in Messages(after, proposalId) && SameSlot(m, result.value)
  {
    var body, key := ToSign(proposalId, r.viewNo, leader, PrePrepare, at), KeyOf(o.replicaPrivateKeys, leader).value;
    var learned := LearnKey(s, r, leader, key).value;
    var msg := PbftMessage(body, s.sign(body, key).value);
    var arr := Messages(learned, proposalId);
    if i :| 0 <= i < |arr| && SameSlot(arr[i], msg) {
      assert arr[i] in arr;
    } else {
      var after := ProposeTiDefinition(s, o, r, proposalId, leader, at).0;
      assert Messages(after, proposalId) == arr + [msg];
      assert msg in arr + [msg];
    }
  }

  // ----- The log over whole runs -----

  ghost predicate EntryValid(s: Signer, o: Options, r: Replica, proposalId: string, m: PbftMessage) {
    && m.body.proposalId == proposalId
    && m.body.nodeId in o.replicaSet
    && KeyOf(r.publicKeys, m.body.nodeId).Some?
    && s.verify(m.body, m.signature, KeyOf(r.publicKeys, m.body.nodeId).value) == Some(true)
  }

  /** Every entry is validly signed by a member of the replica set, one per node, phase and view. */
  ghost predicate LogValid(s: Signer, o: Options, r: Replica) {
    forall p | p in r.log ::
      && (forall i | 0 <= i < |r.log[p]| :: EntryValid(s, o, r, p, r.log[p][i]))
      && (forall i, j | 0 <= i < j < |r.log[p]| :: !SameSlot(r.log[p][i], r.log[p][j]))
  }

  /** Nothing is taken back: messages stay where they are, keys once known stay the same. */
  ghost predicate Extends(r: Replica, after: Replica) {
    && (forall p :: Messages(r, p) <= Messages(after, p))
    && (forall n :: KeyOf(r.publicKeys, n).Some? ==> KeyOf(after.publicKeys, n) == KeyOf(r.publicKeys, n))
    && r.viewNo <= after.viewNo
  }

  lemma AppendKeeps(s: Signer, o: Options, r: Replica, msg: PbftMessage, phase: Phase)
    requires LogValid(s, o, r)
    ensures var after := AppendMessage(s, o, r, msg, phase).0; LogValid(s, o, after) && Extends(r, after)
  {
    var after := AppendMessage(s, o, r, msg, phase).0;
    if after != r {
      var arr := Messages(r, msg.body.proposalId);
      assert after.log[msg.body.proposalId] == arr + [msg];
      forall p | p in after.log
        ensures forall i | 0 <= i < |after.log[p]| :: EntryValid(s, o, after, p, after.log[p][i])
        ensures forall i, j | 0 <= i < j < |after.log[p]| :: !SameSlot(after.log[p][i], after.log[p][j])
      {
        forall i | 0 <= i < |after.log[p]| ensures EntryValid(s, o, after, p, after.log[p][i]) {
          if p in r.log && i < |r.log[p]| { assert EntryValid(s, o, r, p, r.log[p][i]); }
        }
      }
    }
  }

  lemma LearnKeyKeeps(s: Signer, o: Options, r: Replica, node: string, privateKey: string)
    requires LogValid(s, o, r) && LearnKey(s, r, node, privateKey).Some?
    ensures var learned := LearnKey(s, r, node, privateKey).value; LogValid(s, o, learned) && Extends(r, learned)
  {
    var learned := LearnKey(s, r, node, privateKey).value;
    forall p, i | p in learned.log && 0 <= i < |learned.log[p]| ensures EntryValid(s, o, learned, p, learned.log[p][i]) {
      assert EntryValid(s, o, r, p, r.log[p][i]);
    }
  }

  lemma ExtendsTransitive(a: Replica, b: Replica, c: Replica)
    requires Extends(a, b) && Extends(b, c)
    ensures Extends(a, c)
  {
    forall p ensures Messages(a, p) <= Messages(c, p) {
      assert Messages(a, p) <= Messages(b, p) && Messages(b, p) <= Messages(c, p);
    }
  }

  lemma SignAndAppendKeeps(s: Signer, o: Options, r: Replica, body: ToSign)
    requires LogValid(s, o, r)
    ensures var after := SignAndAppend(s, o, r, body).0; LogValid(s, o, after) && Extends(r, after)
  {
    var key := KeyOf(o.replicaPrivateKeys, body.nodeId);
    if key.Some? {
      var learned := LearnKey(s, r, body.nodeId, key.value);
      if learned.Some? {
        LearnKeyKeeps(s, o, r, body.nodeId, key.value);
        var signature := s.sign(body, key.value);
        if signature.Some? {
          var msg := PbftMessage(body, signature.value);
          AppendKeeps(s, o, learned.value, msg, body.phase);
          ExtendsTransitive(r, learned.value, AppendMessage(s, o, learned.value, msg, body.phase).0);
        }
      }
    }
  }

  datatype Event =
    | Propose(proposalId: string, leader: string, at: int)
    | Receive(msg: PbftMessage, phase: Phase)
    | ChangeView(node: string, at: int)

  function Step(s: Signer, o: Options, viewChangeId: nat -> string, r: Replica, e: Event): Replica {
    match e
    case Propose(p, leader, at) => ProposeTiDefinition(s, o, r, p, leader, at).0
    case Receive(msg, phase) => AppendMessage(s, o, r, msg, phase).0
    case ChangeView(node, at) => OnViewChange(s, o, r, node, at, viewChangeId).0
  }

  lemma MovingOnKeeps(s: Signer, o: Options, r: Replica, after: Replica)
    requires LogValid(s, o, r)
    ensures LogValid(s, o, r.(viewNo := r.viewNo + 1))
    ensures Extends(r.(viewNo := r.viewNo + 1), after) ==> Extends(r, after)
  {
    var moved := r.(viewNo := r.viewNo + 1);
    forall p, i | p in moved.log && 0 <= i < |moved.log[p]| ensures EntryValid(s, o, moved, p, moved.log[p][i]) {
      assert EntryValid(s, o, r, p, r.log[p][i]);
    }
    if Extends(moved, after) {
      forall p ensures Messages(r, p) <= Messages(after, p) { assert Messages(moved, p) <= Messages(after, p); }
    }
  }

  lemma ViewChangeKeeps(s: Signer, o: Options, viewChangeId: nat -> string, r: Replica, node: string, at: int)
    requires LogValid(s, o, r)
    ensures var after := OnViewChange(s, o, r, node, at, viewChangeId).0; LogValid(s, o, after) && Extends(r, after)
  {
    var moved := r.(viewNo := r.viewNo + 1);
    var body := ToSign(viewChangeId(moved.viewNo), moved.viewNo, node, ViewChange, at);
    var after := SignAndAppend(s, o, moved, body).0;
    MovingOnKeeps(s, o, r, after);
    SignAndAppendKeeps(s, o, moved, body);
    assert OnViewChange(s, o, r, node, at, viewChangeId).0 == after;
  }

  lemma StepKeeps(s: Signer, o: Options, viewChangeId: nat -> string, r: Replica, e: Event)
    requires LogValid(s, o, r)
    ensures var after := Step(s, o, viewChangeId, r, e); LogValid(s, o, after) && Extends(r, after)
  {
    match e
    case Propose(p, leader, at) => SignAndAppendKeeps(s, o, r, ToSign(p, r.viewNo, leader, PrePrepare, at));
    case Receive(msg, phase) => AppendKeeps(s, o, r, msg, phase);
    case ChangeView(node, at) => ViewChangeKeeps(s, o, viewChangeId, r, node, at);
  }

  function Run(s: Signer, o: Options, viewChangeId: nat -> string, r: Replica, events: seq<Event>): Replica
    decreases |events|
  {
    if events == [] then r else Run(s, o, viewChangeId, Step(s, o, viewChangeId, r, events[0]), events[1..])
  }

  /** In every reachable log each entry is validly signed by a member and alone in its slot; and nothing is
      ever taken back. */
  lemma {:induction false} RunKeeps(s: Signer, o: Options, viewChangeId: nat -> string, r: Replica, events: seq<Event>)
    requires LogValid(s, o, r)
    ensures var after := Run(s, o, viewChangeId, r, events); LogValid(s, o, after) && Extends(r, after)
    decreases |events|
  {
    if events != [] {
      var next := Step(s, o, viewChangeId, r, events[0]);
      StepKeeps(s, o, viewChangeId, r, events[0]);
      RunKeeps(s, o, viewChangeId, next, events[1..]);
      ExtendsTransitive(r, next, Run(s, o, viewChangeId, next, events[1..]));
    }
  }

  lemma VotersGrow(a: seq<PbftMessage>, b: seq<PbftMessage>, phase: Phase)
    requires a <= b
    ensures Voters(a, phase) <= Voters(b, phase) && |Voters(a, phase)| <= |Voters(b, phase)|
  {
    forall n | n in Voters(a, phase) ensures n in Voters(b, phase) {
      var i :| 0 <= i < |a| && a[i].body.phase == phase && a[i].body.nodeId == n;
      assert b[i] == a[i];
    }
    SmallerSet(Voters(a, phase), Voters(b, phase));
  }

  lemma {:induction false} SmallerSet<T>(a: set<T>, b: set<T>)
    requires a <= b
    ensures |a| <= |b|
  {
    assert b == a + (b - a);
  }

  /** A proposal once committed stays committed. */
  lemma CommitStays(s: Signer, o: Options, viewChangeId: nat -> string, r: Replica, events: seq<Event>, proposalId: string)
    requires LogValid(s, o, r) && CommitIfThreshold(o, r, proposalId)
    ensures CommitIfThreshold(o, Run(s, o, viewChangeId, r, events), proposalId)
  {
    var after := Run(s, o, viewChangeId, r, events);
    RunKeeps(s, o, viewChangeId, r, events);
    var a, b := Messages(r, proposalId), Messages(after, proposalId);
    VotersGrow(a, b, Prepare);
    VotersGrow(a, b, Commit);
    var i :| 0 <= i < |a| && a[i].body.phase == PrePrepare;
    assert b[i] == a[i];
  }

  // ----- Quorums -----

  function Members(o: Options): set<string> {
    set n | n in o.replicaSet
  }

  lemma VotersAreMembers(s: Signer, o: Options, r: Replica, proposalId: string, phase: Phase)
    requires LogValid(s, o, r)
    ensures Voters(Messages(r, proposalId), phase) <= Members(o)
  {
    var msgs := Messages(r, proposalId);
    forall n | n in Voters(msgs, phase) ensures n in Members(o) {
      var i :| 0 <= i < |msgs| && msgs[i].body.phase == phase && msgs[i].body.nodeId == n;
      assert EntryValid(s, o, r, proposalId, msgs[i]);
    }
  }

  /** Whatever two proposals two replicas of one set hold committed, at least 2t - n members committed both. */
  lemma QuorumsOverlap(s: Signer, o: Options, a: Replica, p: string, b: Replica, q: string)
    requires LogValid(s, o, a) && LogValid(s, o, b)
    requires CommitIfThreshold(o, a, p) && CommitIfThreshold(o, b, q)
    ensures |Voters(Messages(a, p), Commit) * Voters(Messages(b, q), Commit)| >= 2 * o.threshold - |Members(o)|
  {
    var x, y := Voters(Messages(a, p), Commit), Voters(Messages(b, q), Commit);
    VotersAreMembers(s, o, a, p, Commit);
    VotersAreMembers(s, o, b, q, Commit);
    SmallerSet(x + y, Members(o));
    assert |x + y| == |x| + |y| - |x * y|;
  }

  function VotersInView(msgs: seq<PbftMessage>, phase: Phase, view: int): set<string> {
    set i | 0 <= i < |msgs| && msgs[i].body.phase == phase && msgs[i].body.viewNo == view :: msgs[i].body.nodeId
  }

  // ----- Views -----

  /** The views that a phase's messages were sent in. */
  function ViewsOf(msgs: seq<PbftMessage>, phase: Phase): set<int> {
    set i | 0 <= i < |msgs| && msgs[i].body.phase == phase :: msgs[i].body.viewNo
  }

  function VotersInViews(msgs: seq<PbftMessage>, phase: Phase, views: set<int>): set<string> {
    set i | 0 <= i < |msgs| && msgs[i].body.phase == phase && msgs[i].body.viewNo in views :: msgs[i].body.nodeId
  }

  lemma {:induction false} VotersOfViews(msgs: seq<PbftMessage>, phase: Phase, views: set<int>, most: nat)
    requires forall v | v in views :: |VotersInView(msgs, phase, v)| <= most
    ensures |VotersInViews(msgs, phase, views)| <= |views| * most
  {
    if v :| v in views {
      var rest := views - {v};
      VotersOfViews(msgs, phase, rest, most);
      var x, y := VotersInView(msgs, phase, v), VotersInViews(msgs, phase, rest);
      SmallerSet(VotersInViews(msgs, phase, views), x + y);
      assert |x + y| <= |x| + |y|;
      assert |views| * most == |rest| * most + most by { assert |views| == |rest| + 1; }
    } else {
      assert VotersInViews(msgs, phase, views) == {};
    }
  }

  /** Some view among k has at least a k-th of the voters. */
  lemma SomeViewHasShare(msgs: seq<PbftMessage>, phase: Phase) returns (view: int)
    requires exists v :: v in ViewsOf(msgs, phase)
    ensures view in ViewsOf(msgs, phase)
    ensures |ViewsOf(msgs, phase)| * |VotersInView(msgs, phase, view)| >= |Voters(msgs, phase)|
  {
    var views := ViewsOf(msgs, phase);
    view := BusiestView(msgs, phase, views);
    VotersOfViews(msgs, phase, views, |VotersInView(msgs, phase, view)|);
    assert VotersInViews(msgs, phase, views) == Voters(msgs, phase);
  }

  lemma {:induction false} BusiestView(msgs: seq<PbftMessage>, phase: Phase, views: set<int>) returns (view: int)
    requires exists v :: v in views
    ensures view in views && forall v | v in views :: |VotersInView(msgs, phase, v)| <= |VotersInView(msgs, phase, view)|
  {
    view :| view in views;
    var rest := views - {view};
    if v :| v in rest {
      var other := BusiestView(msgs, phase, rest);
      if |VotersInView(msgs, phase, other)| > |VotersInView(msgs, phase, view)| { view := other; }
      forall v | v in views ensures |VotersInView(msgs, phase, v)| <= |VotersInView(msgs, phase, view)| {
        assert v in rest || v in views - rest;
      }
    } else {
      forall v | v in views ensures v == view { assert v in rest || v == view; }
    }
  }

  /** A committed proposal whose prepares were sent in k views has, in one of them, at least a k-th of the threshold;
      so in a single view it has a quorum there. */
  lemma CommittedShare(o: Options, r: Replica, p: string) returns (view: int)
    requires o.threshold >= 1 && CommitIfThreshold(o, r, p)
    ensures |ViewsOf(Messages(r, p), Prepare)| * |VotersInView(Messages(r, p), Prepare, view)| >= o.threshold
    ensures |ViewsOf(Messages(r, p), Prepare)| == 1 ==> |VotersInView(Messages(r, p), Prepare, view)| >= o.threshold
  {
    var msgs := Messages(r, p);
    var n :| n in Voters(msgs, Prepare);
    var i :| 0 <= i < |msgs| && msgs[i].body.phase == Prepare && msgs[i].body.nodeId == n;
    assert msgs[i].body.viewNo in ViewsOf(msgs, Prepare);
    view := SomeViewHasShare(msgs, Prepare);
  }

  /** All prepares for the proposal were sent in the view. */
  predicate PreparesIn(r: Replica, p: string, view: int) {
    var msgs := Messages(r, p);
    forall i | 0 <= i < |msgs| && msgs[i].body.phase == Prepare :: msgs[i].body.viewNo == view
  }

  /** The event delivers no prepare for the proposal but from the view. */
  predicate SendsIn(e: Event, p: string, view: int) {
    e.Receive? && e.phase == Prepare && e.msg.body.proposalId == p ==> e.msg.body.viewNo == view
  }

  lemma AppendKeepsView(s: Signer, o: Options, r: Replica, msg: PbftMessage, phase: Phase, p: string, view: int)
    requires PreparesIn(r, p, view)
    requires phase == Prepare && msg.body.proposalId == p ==> msg.body.viewNo == view
    ensures PreparesIn(AppendMessage(s, o, r, msg, phase).0, p, view)
  {
    var before, after := Messages(r, p), Messages(AppendMessage(s, o, r, msg, phase).0, p);
    assert after == before || (after == before + [msg] && msg.body.proposalId == p && msg.body.phase == phase);
  }

  lemma SigningKeepsView(s: Signer, o: Options, r: Replica, body: ToSign, p: string, view: int)
    requires PreparesIn(r, p, view) && body.phase != Prepare
    ensures PreparesIn(SignAndAppend(s, o, r, body).0, p, view)
  {
    var key := KeyOf(o.replicaPrivateKeys, body.nodeId);
    if key.Some? && LearnKey(s, r, body.nodeId, key.value).Some? && s.sign(body, key.value).Some? {
      var learned := LearnKey(s, r, body.nodeId, key.value).value;
      assert Messages(learned, p) == Messages(r, p);
      AppendKeepsView(s, o, learned, PbftMessage(body, s.sign(body, key.value).value), body.phase, p, view);
    }
  }

  /** In a run that delivers the proposal's prepares from one view only, committed means a quorum in that view. */
  lemma OneViewQuorum(s: Signer, o: Options, viewChangeId: nat -> string, r: Replica, events: seq<Event>, p: string, view: int)
    requires PreparesIn(r, p, view) && forall e | e in events :: SendsIn(e, p, view)
    requires CommitIfThreshold(o, Run(s, o, viewChangeId, r, events), p)
    ensures |VotersInView(Messages(Run(s, o, viewChangeId, r, events), p), Prepare, view)| >= o.threshold
  {
    RunKeepsView(s, o, viewChangeId, r, events, p, view);
    var msgs := Messages(Run(s, o, viewChangeId, r, events), p);
    assert Voters(msgs, Prepare) == VotersInView(msgs, Prepare, view);
  }

  lemma {:induction false} RunKeepsView(s: Signer, o: Options, viewChangeId: nat -> string, r: Replica, events: seq<Event>,
                                        p: string, view: int)
    requires PreparesIn(r, p, view) && forall e | e in events :: SendsIn(e, p, view)
    ensures PreparesIn(Run(s, o, viewChangeId, r, events), p, view)
    decreases |events|
  {
    if events != [] {
      StepKeepsView(s, o, viewChangeId, r, events[0], p, view);
      RunKeepsView(s, o, viewChangeId, Step(s, o, viewChangeId, r, events[0]), events[1..], p, view);
    }
  }

  lemma StepKeepsView(s: Signer, o: Options, viewChangeId: nat -> string, r: Replica, e: Event, p: string, view: int)
    requires PreparesIn(r, p, view) && SendsIn(e, p, view)
    ensures PreparesIn(Step(s, o, viewChangeId, r, e), p, view)
  {
    match e
    case Propose(q, leader, at) => SigningKeepsView(s, o, r, ToSign(q, r.viewNo, leader, PrePrepare, at), p, view);
    case Receive(msg, phase) => AppendKeepsView(s, o, r, msg, phase, p, view);
    case ChangeView(node, at) =>
      var moved := r.(viewNo := r.viewNo + 1);
      SigningKeepsView(s, o, moved, ToSign(viewChangeId(moved.viewNo), moved.viewNo, node, ViewChange, at), p, view);
  }

  // ----- A view change between two prepares -----

  /** The private key signs, and its public key is known for the node. */
  ghost predicate Member(s: Signer, o: Options, r: Replica, node: string, key: string) {
    && node in o.replicaSet && KeyOf(o.replicaPrivateKeys, node) == Some(key)
    && (forall body :: s.sign(body, key).Some?)
    && s.publicKey(key).Some? && KeyOf(r.publicKeys, node) == s.publicKey(key)
  }

  /** What the node sends. */
  function Sent(s: Signer, key: string, body: ToSign): PbftMessage {
    PbftMessage(body, s.sign(body, key).GetOr(""))
  }

  lemma SentEnters(s: Signer, o: Options, r: Replica, key: string, body: ToSign)
    requires SignerSound(s) && Member(s, o, r, body.nodeId, key)
    requires forall i | 0 <= i < |Messages(r, body.proposalId)| :: !SameSlot(Messages(r, body.proposalId)[i], Sent(s, key, body))
    ensures var after := AppendMessage(s, o, r, Sent(s, key, body), body.phase).0;
            Messages(after, body.proposalId) == Messages(r, body.proposalId) + [Sent(s, key, body)] &&
            after.publicKeys == r.publicKeys && after.viewNo == r.viewNo
    ensures SignAndAppend(s, o, r, body).0 == AppendMessage(s, o, r, Sent(s, key, body), body.phase).0
  {
    assert s.verify(body, s.sign(body, key).value, s.publicKey(key).value) == Some(true);
  }

  lemma ViewChangeLeaves(s: Signer, o: Options, viewChangeId: nat -> string, r: Replica, node: string, key: string, at: int, p: string)
    requires Member(s, o, r, node, key) && viewChangeId(r.viewNo + 1) != p
    ensures var after := OnViewChange(s, o, r, node, at, viewChangeId).0;
            Messages(after, p) == Messages(r, p) && after.publicKeys == r.publicKeys && after.viewNo == r.viewNo + 1
  {
  }

  lemma RunFirst(s: Signer, o: Options, viewChangeId: nat -> string, r: Replica, e: Event, rest: seq<Event>)
    ensures Run(s, o, viewChangeId, r, [e] + rest) == Run(s, o, viewChangeId, Step(s, o, viewChangeId, r, e), rest)
  {
    assert ([e] + rest)[1..] == rest;
  }

  /** Two members who both need to agree, one of whom prepares before a view change and the other after it. */
  function SplitRun(s: Signer, p: string, n1: string, k1: string, n2: string, k2: string): seq<Event> {
    [Propose(p, n1, 0)] + ([Receive(Sent(s, k1, ToSign(p, 0, n1, Prepare, 1)), Prepare)] + ([ChangeView(n1, 2)] +
    ([Receive(Sent(s, k2, ToSign(p, 1, n2, Prepare, 3)), Prepare)] +
    ([Receive(Sent(s, k1, ToSign(p, 1, n1, Commit, 4)), Commit)] +
    ([Receive(Sent(s, k2, ToSign(p, 1, n2, Commit, 5)), Commit)] + [])))))
  }

  function SplitLog(s: Signer, p: string, n1: string, k1: string, n2: string, k2: string): seq<PbftMessage> {
    [Sent(s, k1, ToSign(p, 0, n1, PrePrepare, 0)), Sent(s, k1, ToSign(p, 0, n1, Prepare, 1)),
     Sent(s, k2, ToSign(p, 1, n2, Prepare, 3)), Sent(s, k1, ToSign(p, 1, n1, Commit, 4)),
     Sent(s, k2, ToSign(p, 1, n2, Commit, 5))]
  }

  /** The proposal and the first prepare, then the view change. */
  lemma FirstView(s: Signer, o: Options, viewChangeId: nat -> string, p: string, n1: string, k1: string, rest: seq<Event>)
    returns (after: Replica)
    requires SignerSound(s) && viewChangeId(1) != p && Member(s, o, Replica(map[], 0, o.replicaPublicKeys), n1, k1)
    ensures Messages(after, p) == [Sent(s, k1, ToSign(p, 0, n1, PrePrepare, 0)), Sent(s, k1, ToSign(p, 0, n1, Prepare, 1))]
    ensures after.publicKeys == o.replicaPublicKeys
    ensures Run(s, o, viewChangeId, Replica(map[], 0, o.replicaPublicKeys),
                [Propose(p, n1, 0)] + ([Receive(Sent(s, k1, ToSign(p, 0, n1, Prepare, 1)), Prepare)] + ([ChangeView(n1, 2)] + rest)))
            == Run(s, o, viewChangeId, after, rest)
  {
    var r0, first := Replica(map[], 0, o.replicaPublicKeys), Sent(s, k1, ToSign(p, 0, n1, PrePrepare, 0));
    var moved := [ChangeView(n1, 2)] + rest;
    var r1 := Proposed(s, o, viewChangeId, r0, p, n1, k1, [Receive(Sent(s, k1, ToSign(p, 0, n1, Prepare, 1)), Prepare)] + moved);
    var r2 := Received(s, o, viewChangeId, r1, [first], k1, ToSign(p, 0, n1, Prepare, 1), moved);
    ViewChangeLeaves(s, o, viewChangeId, r2, n1, k1, 2, p);
    RunFirst(s, o, viewChangeId, r2, ChangeView(n1, 2), rest);
    after := Step(s, o, viewChangeId, r2, ChangeView(n1, 2));
  }

  lemma SplitRunLogs(s: Signer, o: Options, viewChangeId: nat -> string, p: string, n1: string, k1: string, n2: string, k2: string)
    requires SignerSound(s) && n1 != n2 && viewChangeId(1) != p
    requires var start := Replica(map[], 0, o.replicaPublicKeys); Member(s, o, start, n1, k1) && Member(s, o, start, n2, k2)
    ensures Messages(Run(s, o, viewChangeId, Replica(map[], 0, o.replicaPublicKeys), SplitRun(s, p, n1, k1, n2, k2)), p) ==
            SplitLog(s, p, n1, k1, n2, k2)
  {
    var rest := [Receive(Sent(s, k2, ToSign(p, 1, n2, Prepare, 3)), Prepare)] +
                ([Receive(Sent(s, k1, ToSign(p, 1, n1, Commit, 4)), Commit)] +
                ([Receive(Sent(s, k2, ToSign(p, 1, n2, Commit, 5)), Commit)] + []));
    var moved := FirstView(s, o, viewChangeId, p, n1, k1, rest);
    SecondView(s, o, viewChangeId, moved, p, n1, k1, n2, k2);
  }

  /** The other prepare and both commits. */
  lemma SecondView(s: Signer, o: Options, viewChangeId: nat -> string, r: Replica, p: string, n1: string, k1: string,
                   n2: string, k2: string)
    requires SignerSound(s) && n1 != n2 && Member(s, o, r, n1, k1) && Member(s, o, r, n2, k2)
    requires Messages(r, p) == [Sent(s, k1, ToSign(p, 0, n1, PrePrepare, 0)), Sent(s, k1, ToSign(p, 0, n1, Prepare, 1))]
    ensures Messages(Run(s, o, viewChangeId, r,
                         [Receive(Sent(s, k2, ToSign(p, 1, n2, Prepare, 3)), Prepare)] +
                         ([Receive(Sent(s, k1, ToSign(p, 1, n1, Commit, 4)), Commit)] +
                         ([Receive(Sent(s, k2, ToSign(p, 1, n2, Commit, 5)), Commit)] + []))), p) ==
            Messages(r, p) + [Sent(s, k2, ToSign(p, 1, n2, Prepare, 3))] + [Sent(s, k1, ToSign(p, 1, n1, Commit, 4))] +
            [Sent(s, k2, ToSign(p, 1, n2, Commit, 5))]
  {
    var log := Messages(r, p);
    var b3, b4, b5 := ToSign(p, 1, n2, Prepare, 3), ToSign(p, 1, n1, Commit, 4), ToSign(p, 1, n2, Commit, 5);
    var last := [Receive(Sent(s, k2, b5), Commit)] + [];
    var r3 := Received(s, o, viewChangeId, r, log, k2, b3, [Receive(Sent(s, k1, b4), Commit)] + last);
    var r4 := Received(s, o, viewChangeId, r3, log + [Sent(s, k2, b3)], k1, b4, last);
    var r5 := Received(s, o, viewChangeId, r4, log + [Sent(s, k2, b3)] + [Sent(s, k1, b4)], k2, b5, []);
  }

  lemma Proposed(s: Signer, o: Options, viewChangeId: nat -> string, r: Replica, p: string, node: string, key: string,
                 rest: seq<Event>) returns (after: Replica)
    requires SignerSound(s) && Member(s, o, r, node, key) && r.log == map[] && r.viewNo == 0
    ensures Messages(after, p) == [Sent(s, key, ToSign(p, 0, node, PrePrepare, 0))]
    ensures after.publicKeys == r.publicKeys && after.viewNo == 0
    ensures Run(s, o, viewChangeId, r, [Propose(p, node, 0)] + rest) == Run(s, o, viewChangeId, after, rest)
  {
    SentEnters(s, o, r, key, ToSign(p, 0, node, PrePrepare, 0));
    RunFirst(s, o, viewChangeId, r, Propose(p, node, 0), rest);
    after := Step(s, o, viewChangeId, r, Propose(p, node, 0));
  }

  lemma Received(s: Signer, o: Options, viewChangeId: nat -> string, r: Replica, log: seq<PbftMessage>, key: string, body: ToSign,
                 rest: seq<Event>) returns (after: Replica)
    requires SignerSound(s) && Member(s, o, r, body.nodeId, key) && Messages(r, body.proposalId) == log
    requires forall i | 0 <= i < |log| :: !SameSlot(log[i], Sent(s, key, body))
    ensures Messages(after, body.proposalId) == log + [Sent(s, key, body)]
    ensures after.publicKeys == r.publicKeys && after.viewNo == r.viewNo
    ensures Run(s, o, viewChangeId, r, [Receive(Sent(s, key, body), body.phase)] + rest) == Run(s, o, viewChangeId, after, rest)
  {
    SentEnters(s, o, r, key, body);
    RunFirst(s, o, viewChangeId, r, Receive(Sent(s, key, body), body.phase), rest);
    after := Step(s, o, viewChangeId, r, Receive(Sent(s, key, body), body.phase));
  }

  /** One view change is enough to commit without a quorum of prepares in any view. Whatever sound signature scheme
      and keys two members use, with a threshold of two the run in which one prepares before the change and the
      other after it ends with the proposal committed. */
  lemma ViewChangeSplitsQuorum(s: Signer, o: Options, viewChangeId: nat -> string, p: string, n1: string, k1: string,
                               n2: string, k2: string)
    requires SignerSound(s) && n1 != n2 && viewChangeId(1) != p && o.threshold == 2
    requires var start := Replica(map[], 0, o.replicaPublicKeys); Member(s, o, start, n1, k1) && Member(s, o, start, n2, k2)
    ensures var r := Run(s, o, viewChangeId, Replica(map[], 0, o.replicaPublicKeys), SplitRun(s, p, n1, k1, n2, k2));
            CommitIfThreshold(o, r, p) && forall v :: |VotersInView(Messages(r, p), Prepare, v)| < o.threshold
  {
    SplitRunLogs(s, o, viewChangeId, p, n1, k1, n2, k2);
    var msgs := SplitLog(s, p, n1, k1, n2, k2);
    TwoVoters(msgs, Prepare, 1, 2);
    TwoVoters(msgs, Commit, 3, 4);
    assert msgs[0].body.phase == PrePrepare;
    forall v ensures |VotersInView(msgs, Prepare, v)| < 2 { OneVoter(msgs, v, n1, n2); }
  }

  lemma OneVoter(msgs: seq<PbftMessage>, v: int, n1: string, n2: string)
    requires forall i | 0 <= i < |msgs| && msgs[i].body.phase == Prepare ::
               msgs[i].body.nodeId == if msgs[i].body.viewNo == 0 then n1 else n2
    ensures |VotersInView(msgs, Prepare, v)| < 2
  {
    var one := if v == 0 then {n1} else {n2};
    assert VotersInView(msgs, Prepare, v) <= one;
    SmallerSet(VotersInView(msgs, Prepare, v), one);
  }

  lemma TwoVoters(msgs: seq<PbftMessage>, phase: Phase, i: nat, j: nat)
    requires i < |msgs| && j < |msgs| && msgs[i].body.phase == phase && msgs[j].body.phase == phase
    requires msgs[i].body.nodeId != msgs[j].body.nodeId
    ensures |Voters(msgs, phase)| >= 2
  {
    SmallerSet({msgs[i].body.nodeId, msgs[j].body.nodeId}, Voters(msgs, phase));
  }

  // ----- The replica -----

  class PbftConsensus {
    const signer: Signer
    const options: Options
    const viewChangeId: nat -> string
    var log: map<string, seq<PbftMessage>>
    var viewNo: nat
    var publicKeys: map<string, string>

    function State(): Replica
      reads this
    {
      Replica(log, viewNo, publicKeys)
    }

    /** A threshold below two is refused unless a single replica is explicitly allowed. */
    static method Create(signer: Signer, options: Options, viewChangeId: nat -> string)
      returns (r: Result<PbftConsensus, PbftError>)
      ensures r.Failure? <==> options.threshold < 2 && !options.allowSingleReplica
      ensures r.Failure? ==> r.error == InvalidThreshold
      ensures r.Success? ==> fresh(r.value) && r.value.options == options
      ensures r.Success? ==> r.value.State() == Replica(map[], 0, options.replicaPublicKeys)
      ensures r.Success? ==> LogValid(signer, options, r.value.State())
    {
      if options.threshold < 2 && !options.allowSingleReplica { return Failure(InvalidThreshold); }
      var replica := new PbftConsensus(signer, options, viewChangeId);
      return Success(replica);
    }

    constructor (signer: Signer, options: Options, viewChangeId: nat -> string)
      ensures this.signer == signer && this.options == options && this.viewChangeId == viewChangeId
      ensures State() == Replica(map[], 0, options.replicaPublicKeys)
      ensures LogValid(signer, options, State())
    {
      this.signer := signer;
      this.options := options;
      this.viewChangeId := viewChangeId;
      log, viewNo, publicKeys := map[], 0, options.replicaPublicKeys;
    }

    method Append(msg: PbftMessage, phase: Phase) returns (r: Result<bool, PbftError>)
      modifies this`log
      ensures (State(), r) == AppendMessage(signer, options, old(State()), msg, phase)
      ensures old(LogValid(signer, options, State())) ==>
                LogValid(signer, options, State()) && Extends(old(State()), State())
    {
      if LogValid(signer, options, State()) { AppendKeeps(signer, options, State(), msg, phase); }
      if msg.body.nodeId !in options.replicaSet { return Failure(UnknownNode); }
      if msg.body.phase != phase { return Failure(InvalidPhase); }
      var key := KeyOf(publicKeys, msg.body.nodeId);
      if key.None? { return Failure(InvalidSignature); }
      var ok := signer.verify(msg.body, msg.signature, key.value);
      if ok.None? { return Failure(MalformedKey); }
      if !ok.value { return Failure(InvalidSignature); }
      var arr := Messages(State(), msg.body.proposalId);
      if exists i | 0 <= i < |arr| :: SameSlot(arr[i], msg) { return Success(false); }
      log := log[msg.body.proposalId := arr + [msg]];
      return Success(true);
    }

    method SignAndAppendOwn(body: ToSign) returns (r: Result<PbftMessage, PbftError>)
      modifies this`log, this`publicKeys
      ensures (State(), r) == SignAndAppend(signer, options, old(State()), body)
    {
      var key := KeyOf(options.replicaPrivateKeys, body.nodeId);
      if key.None? { return Failure(MissingPrivateKey); }
      if KeyOf(publicKeys, body.nodeId).None? {
        var k := signer.publicKey(key.value);
        if k.None? { return Failure(MalformedKey); }
        publicKeys := publicKeys[body.nodeId := k.value];
      }
      var signature := signer.sign(body, key.value);
      if signature.None? { return Failure(MalformedKey); }
      var msg := PbftMessage(body, signature.value);
      var appended := Append(msg, body.phase);
      match appended {
        case Success(_) => return Success(msg);
        case Failure(e) => return Failure(e);
      }
    }

    method ProposeDefinition(proposalId: string, leader: string, at: int) returns (r: Result<PbftMessage, PbftError>)
      modifies this`log, this`publicKeys
      ensures (State(), r) == ProposeTiDefinition(signer, options, old(State()), proposalId, leader, at)
      ensures old(LogValid(signer, options, State())) ==>
                LogValid(signer, options, State()) && Extends(old(State()), State())
    {
      if LogValid(signer, options, State()) {
        SignAndAppendKeeps(signer, options, State(), ToSign(proposalId, viewNo, leader, PrePrepare, at));
      }
      r := SignAndAppendOwn(ToSign(proposalId, viewNo, leader, PrePrepare, at));
    }

    method AnnounceViewChange(node: string, at: int) returns (r: Result<PbftMessage, PbftError>)
      modifies this
      ensures (State(), r) == OnViewChange(signer, options, old(State()), node, at, viewChangeId)
      ensures old(LogValid(signer, options, State())) ==>
                LogValid(signer, options, State()) && Extends(old(State()), State())
    {
      if LogValid(signer, options, State()) {
        ViewChangeKeeps(signer, options, viewChangeId, State(), node, at);
      }
      viewNo := viewNo + 1;
      r := SignAndAppendOwn(ToSign(viewChangeId(viewNo), viewNo, node, ViewChange, at));
    }
  }
}
