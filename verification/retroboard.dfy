/** The board page (frontend RetroBoard.js): entering a board id, joining it
    under a name, the stored session that survives a reload for one day, the
    socket listeners that replace the displayed board, the typing
    indicators, and the list of recently joined board ids. Each React state
    cell is a field; each handler or effect is a method. Replies of the
    server, the clock and the browser storage are parameters or fields. */
module RetroBoard {
  import opened Prelude
  import opened Models
  import opened Messages
  import opened Toasts

  /** What `boardDetails` holds: the single-board read, a board document
      received in an event, or any other event payload that a listener took
      for the watched board. */
  datatype View = SummaryView(summary: BoardSummary) | BoardView(board: Board) | RawView(payload: Payload)

  /** The `boardData` entry of local storage. Its `_id` is `None` when the
      join reply had none: `JSON.stringify` drops an undefined property and
      reading it back gives `undefined` again. */
  datatype StoredSession = StoredSession(
    boardId: Option<string>, title: string, userId: string, isAnonymous: bool, boardSuccess: bool, expiry: int)

  /** The fields the page reads from a join reply that parses as JSON. `id`
      is `None` where the body has no `_id`; the page's `===` tells that
      `undefined` apart from every string. */
  datatype JoinData = JoinData(id: Option<string>, title: string, userId: string, isAnonymous: bool)

  /** The fields the page reads from the single-board reply (absent ones as
      "" and false). */
  datatype BoardFields = BoardFields(title: string, isAnonymous: bool)

  /** The join request: board id in the path, name in the body. */
  datatype JoinRequest = JoinRequest(boardId: string, name: string)

  /** One day, in milliseconds. */
  const SessionLifetime: int := 24 * 60 * 60 * 1000

  const MaxRecentBoards: nat := 4

  /** The stored session is used only while it has not expired. */
  predicate Usable(s: StoredSession, now: int)
  {
    s.expiry > now
  }

  /** What the page reads from the join route's answer: the success body
      carries the board's `_id`; a 500 sends the serialised error, which is
      JSON without `_id`, title, `userId` or anonymity flag; the 404 body is
      text, so `response.json()` throws and nothing is read. */
  function JoinDataOf(r: Response): (d: Option<JoinData>)
    ensures r.Ok? && r.body.Joined? ==>
      d == Some(JoinData(Some(r.body.reply.id), r.body.reply.title, r.body.reply.userId, r.body.reply.isAnonymous))
    ensures r.ServerError? ==> d.Some? && d.value.id.None?
    ensures r.NotFound? ==> d.None?
    ensures d.Some? && d.value.id.Some? <==> r.Ok? && r.body.Joined?
  {
    match r
    case Ok(Joined(reply)) => Some(JoinData(Some(reply.id), reply.title, reply.userId, reply.isAnonymous))
    case ServerError => Some(JoinData(None, "", "", false))
    case _ => None
  }

  /** The session stored after a join at time `now`. */
  function SessionOf(reply: JoinData, now: int): (s: StoredSession)
    ensures s.boardId == reply.id && s.userId == reply.userId && s.boardSuccess
    ensures forall t :: Usable(s, t) <==> t < now + SessionLifetime
  {
    StoredSession(reply.id, reply.title, reply.userId, reply.isAnonymous, true, now + SessionLifetime)
  }

  /** The `boardDetails` property of a payload. */
  function DetailsField(p: Payload): Option<Board>
  {
    if p.BoardWithId? then Some(p.boardDetails) else None
  }

  /** The events whose listener is `handleUpdate`. */
  predicate RefreshesView(t: Topic)
  {
    t in {FeedbackAdded, FeedbackUpdated, FeedbackDeleted, FeedbackLiked, FeedbackDisliked,
          CommentAdded, CommentUpdated, CommentLiked, CommentDisliked, CommentDeleted}
  }

  /** The displayed board after event `e`, for listeners registered while
      the active board id was `listenerBoardId` (`None` is `undefined`).
      `boardUpdated` compares the payload's `boardId`, `handleUpdate` its
      `_id`, both with `===`, so a missing property matches an undefined
      board id; other events are not listened to here. */
  function ViewAfter(view: Option<View>, listenerBoardId: Option<string>, e: Event): (r: Option<View>)
    ensures !(e.topic == BoardUpdated || RefreshesView(e.topic)) ==> r == view
    ensures listenerBoardId.Some? && (e.payload.BoardIdText? || e.payload.MemberIdText?) ==> r == view
  {
    if e.topic == BoardUpdated then
      if BoardIdField(e.payload) == listenerBoardId then
        match DetailsField(e.payload)
        case Some(b) => Some(BoardView(b))
        case None => None
      else view
    else if RefreshesView(e.topic) then
      if IdField(e.payload) == listenerBoardId then
        Some(if e.payload.FullBoard? then BoardView(e.payload.board) else RawView(e.payload))
      else view
    else view
  }

  /** The typing indicators after event `e`: a participant's flag is set or
      cleared, every other flag is kept. */
  function TypingAfter(typing: map<string, bool>, e: Event): (r: map<string, bool>)
    ensures forall u :: u in typing && !(e.payload.MemberIdText? && u == e.payload.userId) ==> u in r && r[u] == typing[u]
  {
    match e.payload
    case MemberIdText(u) =>
      if e.topic == MemberTyping then typing[u := true]
      else if e.topic == MemberStoppedTyping then typing[u := false]
      else typing
    case _ => typing
  }

  /** The recent-ids update: an id already listed leaves the list alone;
      otherwise it is put in front and the list cut to four. The stored list
      holds strings and `null` (`None`), which is what `JSON.stringify`
      writes for an undefined id; `includes` never finds `undefined` in it,
      so an undefined id is always put in front. */
  function RecentIds(ids: seq<Option<string>>, boardId: Option<string>): (r: seq<Option<string>>)
    ensures boardId in r
    ensures r == ids || |r| <= MaxRecentBoards
  {
    if boardId.Some? && boardId in ids then ids
    else
      var full := [boardId] + ids;
      assert full[0] == boardId && |Take(full, MaxRecentBoards)| >= 1 by {
        assert |full| <= MaxRecentBoards || Take(full, MaxRecentBoards) == full[..MaxRecentBoards];
      }
      Take(full, MaxRecentBoards)
  }

  /** No board id is listed twice (`null` entries may repeat). */
  predicate NoRepeatedIds(ids: seq<Option<string>>)
  {
    forall i, j :: 0 <= i < j < |ids| && ids[i].Some? ==> ids[i] != ids[j]
  }

  /** A snapshot of every state cell of the page, and of its local storage. */
  datatype PageState = PageState(
    boardId: Option<string>,
    id: string,
    isAnonymous: bool,
    memberName: string,
    userId: string,
    boardDetails: Option<View>,
    openDialog: bool,
    boardTitle: string,
    toast: Toast,
    boardSuccess: bool,
    typingMembers: map<string, bool>,
    listenerBoardId: Option<string>,
    session: Option<StoredSession>,
    recentBoardIds: seq<Option<string>>)

  class RetroBoardPage {
    /** `None` is `undefined`, which a join answered by an error body leaves. */
    var boardId: Option<string>
    var id: string
    var isAnonymous: bool
    var memberName: string
    var userId: string
    var boardDetails: Option<View>
    var openDialog: bool
    var boardTitle: string
    var toast: Toast
    var boardSuccess: bool
    var typingMembers: map<string, bool>
    /** The `boardId` the socket listeners captured when they were registered. */
    var listenerBoardId: Option<string>
    /** Local storage `boardData`. */
    var session: Option<StoredSession>
    /** Local storage `retroBoardIds`. */
    var recentBoardIds: seq<Option<string>>

    function State(): PageState
      reads this
    {
      PageState(boardId, id, isAnonymous, memberName, userId, boardDetails, openDialog, boardTitle, toast,
        boardSuccess, typingMembers, listenerBoardId, session, recentBoardIds)
    }

    /** The initial state cells; local storage holds what it held before. */
    constructor (stored: Option<StoredSession>, recent: seq<Option<string>>)
      ensures State() == PageState(Some(""), "", false, "", "", None, false, "", Hidden, false, map[], Some(""), stored, recent)
    {
      boardId, id, isAnonymous, memberName, userId := Some(""), "", false, "", "";
      boardDetails, openDialog, boardTitle, toast := None, false, "", Hidden;
      boardSuccess, typingMembers, listenerBoardId := false, map[], Some("");
      session, recentBoardIds := stored, recent;
    }

    /** `resetBoardState`: back to no active board; the stored session is
        removed. Title, anonymity and the typed name are kept. */
    method ResetBoardState()
      modifies this
      ensures State() == PageState(Some(""), "", old(isAnonymous), old(memberName), "", None, false, old(boardTitle),
        Hidden, false, map[], old(listenerBoardId), None, old(recentBoardIds))
    {
      boardId, id, userId, boardDetails := Some(""), "", "", None;
      openDialog, toast, boardSuccess := false, Hidden, false;
      typingMembers, session := map[], None;
    }

    /** The stored-session effect: an unexpired session restores the active
        board and the participant's id; an expired one is removed. */
    method RestoreSession(now: int)
      modifies this
      ensures old(session).None? ==> State() == old(State())
      ensures old(session).Some? && Usable(old(session).value, now) ==>
        var s := old(session).value;
        State() == old(State()).(boardId := s.boardId, boardTitle := s.title, isAnonymous := s.isAnonymous,
          userId := s.userId, boardSuccess := s.boardSuccess)
      ensures old(session).Some? && !Usable(old(session).value, now) ==>
        State() == old(State()).(session := None)
    {
      if session.Some? {
        var s := session.value;
        if s.expiry > now {
          boardId := s.boardId;
          boardTitle := s.title;
          isAnonymous := s.isAnonymous;
          userId := s.userId;
          boardSuccess := s.boardSuccess;
        } else {
          session := None;
        }
      }
    }

    /** The board-details effect: with an active, joined board the board is
        read; a reply that is not a board (a 404 text body) leaves the view.
        Both "" and `undefined` count as no board. */
    method FetchBoardDetails(reply: Option<BoardSummary>) returns (requested: bool)
      modifies this
      ensures requested <==> boardId.Some? && boardId.value != "" && boardSuccess
      ensures requested && reply.Some? ==> State() == old(State()).(boardDetails := Some(SummaryView(reply.value)))
      ensures !(requested && reply.Some?) ==> State() == old(State())
    {
      requested := false;
      if boardId.None? || boardId.value == "" {
        return;
      }
      if boardSuccess {
        requested := true;
        if reply.Some? {
          boardDetails := Some(SummaryView(reply.value));
        }
      }
    }

    /** The listener effect: every listener is removed and registered again,
        capturing the current `boardId`. */
    method BindListeners()
      modifies this
      ensures State() == old(State()).(listenerBoardId := old(boardId))
    {
      listenerBoardId := boardId;
    }

    /** Delivery of one broadcast event to the page's listeners: the view
        listeners and the typing listeners each update their own cell. */
    method Receive(e: Event)
      modifies this
      ensures State() == old(State()).(boardDetails := ViewAfter(old(boardDetails), old(listenerBoardId), e),
        typingMembers := TypingAfter(old(typingMembers), e))
    {
      boardDetails, typingMembers := ViewAfter(boardDetails, listenerBoardId, e), TypingAfter(typingMembers, e);
    }

    /** The recent-ids effect: after a join the board id is remembered. */
    method RememberBoard()
      modifies this
      ensures boardSuccess ==> State() == old(State()).(recentBoardIds := RecentIds(old(recentBoardIds), old(boardId)))
      ensures !boardSuccess ==> State() == old(State())
    {
      if boardSuccess {
        if !(boardId.Some? && boardId in recentBoardIds) {
          recentBoardIds := Take([boardId] + recentBoardIds, MaxRecentBoards);
        }
      }
    }

    /** Typing in the board id field. */
    method TypeBoardId(text: string)
      modifies this
      ensures State() == old(State()).(id := text)
    {
      id := text;
    }

    /** Typing in the name field of the join dialog. */
    method TypeMemberName(text: string)
      modifies this
      ensures State() == old(State()).(memberName := text)
    {
      memberName := text;
    }

    /** `handleBoardIdSubmit`: re-entering the active board only says so;
        any other id is read and, when it is a board, opens the name dialog. */
    method SubmitBoardId(reply: Option<BoardFields>) returns (fetched: bool)
      modifies this
      ensures fetched <==> !(Some(old(id)) == old(boardId) && old(boardSuccess))
      ensures !fetched ==> State() == old(State()).(toast := Shown("This board is already activated", Info))
      ensures fetched && reply.Some? ==>
        State() == old(State()).(boardId := Some(old(id)), boardTitle := reply.value.title,
          isAnonymous := reply.value.isAnonymous, openDialog := true, memberName := "", toast := Hidden)
      ensures fetched && reply.None? ==>
        State() == old(State()).(boardTitle := "", isAnonymous := false, memberName := "",
          toast := Shown("Invalid Board ID", Failure))
    {
      if Some(id) == boardId && boardSuccess {
        toast := Shown("This board is already activated", Info);
        return false;
      }
      fetched := true;
      toast := Hidden;
      isAnonymous := false;
      memberName := "";
      boardTitle := "";
      match reply {
        case Some(fields) =>
          isAnonymous := fields.isAnonymous;
          boardTitle := fields.title;
          boardId := Some(id);
          openDialog := true;
        case None =>
          toast := Shown("Invalid Board ID", Failure);
      }
    }

    /** `handleJoinBoard`: the state is reset, the join is requested for
        the id as it was typed, and a JSON reply activates its board and is
        stored for one day, even an error body, whose missing `_id` leaves
        the board id undefined. The reply's `userId` reaches the page only
        through the stored session. */
    method JoinBoard(reply: Option<JoinData>, now: int) returns (request: JoinRequest)
      modifies this
      ensures request == JoinRequest(old(id), old(memberName))
      ensures var reset := old(State()).(boardId := Some(""), id := "", userId := "", boardDetails := None,
          openDialog := false, toast := Hidden, boardSuccess := false, typingMembers := map[], session := None);
        match reply
        case None => State() == reset
        case Some(data) =>
          State() == reset.(isAnonymous := data.isAnonymous, boardTitle := data.title, boardId := data.id,
            boardSuccess := true, session := Some(SessionOf(data, now)))
    {
      request := JoinRequest(id, memberName);
      ResetBoardState();
      if reply.Some? {
        var data := reply.value;
        isAnonymous := data.isAnonymous;
        boardTitle := data.title;
        boardId := data.id;
        boardSuccess := true;
        id := "";
        session := Some(StoredSession(data.id, data.title, data.userId, data.isAnonymous, true, now + SessionLifetime));
        openDialog := false;
      }
    }

    /** `handleCloseDialog`. */
    method CloseDialog()
      modifies this
      ensures State() == old(State()).(openDialog := false)
    {
      openDialog := false;
    }
  }

  // ---------------------------------------------------------------------
  // Properties

  /** A board document on a `handleUpdate` event replaces the view exactly
      when it is the board the listeners watch. */
  lemma BoardDocumentReplacesOwnBoard(view: Option<View>, listenerBoardId: Option<string>, e: Event)
    requires RefreshesView(e.topic) && e.payload.FullBoard?
    ensures ViewAfter(view, listenerBoardId, e) ==
      if listenerBoardId == Some(e.payload.board.id) then Some(BoardView(e.payload.board)) else view
  {
  }

  /** A deletion marker has no `_id`, so on a page watching a board a
      feedback or comment deletion leaves the displayed board as it was; on a
      page whose board id is undefined, `undefined === undefined` holds and
      the marker of any board becomes the displayed board. */
  lemma DeletionMarkerLeavesView(view: Option<View>, listenerBoardId: Option<string>, e: Event)
    requires e.topic == FeedbackDeleted || e.topic == CommentDeleted
    requires e.payload.DeletionMarker?
    ensures listenerBoardId.Some? ==> ViewAfter(view, listenerBoardId, e) == view
    ensures listenerBoardId.None? ==> ViewAfter(view, listenerBoardId, e) == Some(RawView(e.payload))
  {
  }

  /** The join announcement `{ boardId, boardDetails }` replaces the view
      exactly when it is about the watched board. */
  lemma JoinAnnouncementReplacesOwnBoard(view: Option<View>, listenerBoardId: Option<string>, bid: string, b: Board, a: Audience)
    ensures ViewAfter(view, listenerBoardId, Event(BoardUpdated, BoardWithId(bid, b), a)) ==
      if listenerBoardId == Some(bid) then Some(BoardView(b)) else view
  {
  }

  /** The board-update announcement of `PUT /boards/:boardId` carries the
      bare board, which has no `boardId`: a page watching a board ignores
      it, and a page whose board id is undefined takes it for its own and
      sets the view to its missing `boardDetails`. */
  lemma BoardEditAnnouncementIgnored(view: Option<View>, listenerBoardId: Option<string>, b: Board, a: Audience)
    ensures listenerBoardId.Some? ==> ViewAfter(view, listenerBoardId, Event(BoardUpdated, FullBoard(b), a)) == view
    ensures listenerBoardId.None? ==> ViewAfter(view, listenerBoardId, Event(BoardUpdated, FullBoard(b), a)) == None
  {
  }

  /** `memberTyping` raises one participant's flag, `memberStoppedTyping`
      lowers it; no other flag changes. */
  lemma TypingFlags(typing: map<string, bool>, u: string, a: Audience)
    ensures TypingAfter(typing, Event(MemberTyping, MemberIdText(u), a)) == typing[u := true]
    ensures TypingAfter(typing, Event(MemberStoppedTyping, MemberIdText(u), a)) == typing[u := false]
  {
  }

  /** A listed id leaves the recent list alone; anything else, an undefined
      id included, heads it, the list stays at most four long, and the rest
      is a prefix of the old list. */
  lemma RecentIdsShape(ids: seq<Option<string>>, boardId: Option<string>)
    ensures boardId.Some? && boardId in ids ==> RecentIds(ids, boardId) == ids
    ensures !(boardId.Some? && boardId in ids) ==>
      var r := RecentIds(ids, boardId);
      |r| >= 1 && r[0] == boardId && |r| <= MaxRecentBoards && r[1..] <= ids
  {
    if !(boardId.Some? && boardId in ids) {
      var full := [boardId] + ids;
      assert full[1..] == ids;
    }
  }

  /** The recent list never lists a board id twice if it did not before. */
  lemma RecentIdsNoDuplicates(ids: seq<Option<string>>, boardId: Option<string>)
    requires NoRepeatedIds(ids)
    ensures NoRepeatedIds(RecentIds(ids, boardId))
  {
    if !(boardId.Some? && boardId in ids) {
      var full := [boardId] + ids;
      assert NoRepeatedIds(full) by {
        forall i, j | 0 <= i < j < |full| && full[i].Some?
          ensures full[i] != full[j]
        {
          assert full[j] == ids[j - 1];
          if i > 0 {
            assert full[i] == ids[i - 1];
          }
        }
      }
      var r := Take(full, MaxRecentBoards);
      assert forall k :: 0 <= k < |r| ==> r[k] == full[k];
    }
  }

  /** Joins answered by an error body each add another `null` to the recent
      list, so the `null` entries are the ones that can repeat. */
  lemma UndefinedIdsRepeat(ids: seq<Option<string>>)
    requires |ids| < MaxRecentBoards - 1
    ensures RecentIds(RecentIds(ids, None), None) == [None, None] + ids
  {
    assert |[None] + ids| <= MaxRecentBoards;
    assert RecentIds(ids, None) == [None] + ids;
    assert [None] + ([None] + ids) == [None, None] + ids;
  }
}
