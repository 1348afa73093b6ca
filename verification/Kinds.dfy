/** Messages, their life-cycle states and the table of allowed transitions. */
module Kinds {
  import opened Wrappers

  datatype MessageState = Pending | Validated | Reviewed | Authorized | Rejected | Archived

  function AllowedTransitions(fromState: MessageState): seq<MessageState> {
    match fromState
    case Pending => [Validated, Authorized, Rejected]
    case Validated => [Reviewed, Rejected]
    case Reviewed => [Pending, Authorized, Rejected]
    case Authorized => [Archived]
    case Rejected => []
    case Archived => []
  }

  predicate CanTransition(fromState: MessageState, toState: MessageState) {
    toState in AllowedTransitions(fromState)
  }

  datatype Actor = Actor(id: string, role: string)

  /**
   * The parts of a payload the program looks at: its keys, the fields of an edict and of a type definition, the
   * routing destinations. `content`, `schema` and `rest` are JSON text.
   */
  datatype Payload = Payload(
    keys: set<string>,
    lawType: Option<string>,
    version: Option<string>,
    content: Option<string>,
    precedence: Option<int>,
    effectiveDate: Option<int>,
    supersededEdictId: Option<string>,
    supersededBy: Option<string>,
    targetGenre: Option<string>,
    schema: Option<string>,
    destination: seq<string>,
    clearance: Option<string>,
    rest: string)

  /** An envelope, with the metadata the program looks at. Times are milliseconds. */
  datatype Message = Message(
    id: string,
    genre: string,
    payload: Payload,
    actor: Actor,
    submittedAt: int,
    constitutional: bool,
    clearance: Option<string>,
    lawSnapshotAt: Option<int>)

  datatype Transition = Transition(
    messageId: string,
    fromState: MessageState,
    toState: MessageState,
    sequenceNo: int,
    actorId: Option<string>,
    sealedAt: Option<int>,
    reason: Option<string>,
    prevTransitionHash: Option<string>,
    at: int)
}
