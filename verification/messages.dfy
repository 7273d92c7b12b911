/** What crosses the wire between the server and the browser: the response
    bodies the route handlers send and the broadcast events they emit. An
    event is recorded with its audience; delivery itself is not modelled. */
module Messages {
  import opened Prelude
  import opened Models
  import opened Aggregate

  // ---------------------------------------------------------------------
  // Broadcast events

  /** The event names the server emits. */
  datatype Topic =
    | BoardCreated | BoardUpdated | BoardDeleted
    | FeedbackAdded | FeedbackUpdated | FeedbackDeleted | FeedbackLiked | FeedbackDisliked
    | CommentAdded | CommentUpdated | CommentDeleted | CommentLiked | CommentDisliked
    | MemberTyping | MemberStoppedTyping

  /** The shapes of event payload the server sends. */
  datatype Payload =
    | FullBoard(board: Board)                              // the board document itself
    | BoardWithId(boardId: string, boardDetails: Board)    // `{ boardId, boardDetails }`
    | DeletionMarker(boardId: string, feedbackId: string, commentId: Option<string>)
    | BoardIdText(id: string)                              // a bare board id string
    | MemberIdText(userId: string)                         // a bare member id string

  /** `io.emit` reaches every connection, `socket.broadcast.emit` every
      connection but the sender's. */
  datatype Audience = Everyone | AllExcept(socket: string)

  datatype Event = Event(topic: Topic, payload: Payload, audience: Audience)

  /** The payload's `_id` property; only a board document has one. */
  function IdField(p: Payload): (r: Option<string>)
    ensures r.Some? <==> p.FullBoard?
    ensures p.FullBoard? ==> r == Some(p.board.id)
  {
    match p
    case FullBoard(b) => Some(b.id)
    case _ => None
  }

  /** The payload's `boardId` property; a board document has none. */
  function BoardIdField(p: Payload): (r: Option<string>)
    ensures r.Some? <==> p.BoardWithId? || p.DeletionMarker?
    ensures r.Some? ==> r.value == p.boardId
  {
    match p
    case BoardWithId(bid, _) => Some(bid)
    case DeletionMarker(bid, _, _) => Some(bid)
    case _ => None
  }

  // ---------------------------------------------------------------------
  // Response bodies

  /** A member as the single-board read returns it: `userId || null`. */
  datatype MemberSummary = MemberSummary(name: string, userId: Option<string>)

  datatype BoardSummary = BoardSummary(id: string, title: string, isAnonymous: bool, teamMembers: seq<MemberSummary>)

  datatype JoinReply = JoinReply(
    message: string,
    id: string,
    title: string,
    userId: string,
    isAnonymous: bool,
    teamMembers: seq<Member>)

  datatype Body =
    | NewBoardId(boardId: string)
    | AllBoards(boards: set<Board>)
    | Summary(summary: BoardSummary)
    | Joined(reply: JoinReply)
    | Whole(board: Board)
    | Done(message: string)
    | Listing(views: seq<FeedbackView>)

  datatype Missing = BoardMissing | FeedbackMissing | CommentMissing

  /** 200/201 with a body, 404 naming what was not found, 400, or 500. */
  datatype Response = Ok(body: Body) | NotFound(missing: Missing) | BadRequest | ServerError

  function MemberSummaryOf(m: Member): MemberSummary
  {
    MemberSummary(m.name, if m.userId == "" then None else Some(m.userId))
  }

  /** The single-board read: id, title, anonymity and members, each member's
      missing `userId` reported as null; feedback is not included. */
  function SummaryOf(b: Board): (r: BoardSummary)
    ensures r.id == b.id && r.title == b.title && r.isAnonymous == b.isAnonymous
    ensures |r.teamMembers| == |b.teamMembers|
    ensures forall k :: 0 <= k < |r.teamMembers| ==>
      r.teamMembers[k].name == b.teamMembers[k].name &&
      (r.teamMembers[k].userId.None? <==> b.teamMembers[k].userId == "") &&
      (r.teamMembers[k].userId.Some? ==> r.teamMembers[k].userId.value == b.teamMembers[k].userId)
  {
    BoardSummary(b.id, b.title, b.isAnonymous,
      seq(|b.teamMembers|, k requires 0 <= k < |b.teamMembers| => MemberSummaryOf(b.teamMembers[k])))
  }

  /** Every member has been through the pre-save hook. */
  predicate Registered(b: Board)
  {
    forall k :: 0 <= k < |b.teamMembers| ==> b.teamMembers[k].userId != ""
  }

  /** For a board whose members were all saved, the read never reports a
      null member id. */
  lemma RegisteredSummaryHasIds(b: Board)
    requires Registered(b)
    ensures forall k :: 0 <= k < |SummaryOf(b).teamMembers| ==> SummaryOf(b).teamMembers[k].userId.Some?
  {
  }
}
