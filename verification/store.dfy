/** The board collection and the REST route handlers of backend/server.js.
    Each handler is a read-modify-write of one Board aggregate: it returns the
    response it sends and the events it emits, in order. Every `save()`
    validates the whole board (`Saveable`); a save that fails answers 500
    and leaves the collection as it was. Handlers that dereference a board
    or feedback item without checking it first answer 500 when it is
    missing. */
module Store {
  import opened Prelude
  import opened Models
  import opened Reactions
  import opened Aggregate
  import opened Messages

  const JoinedMessage := "Joined the board successfully"
  const BoardDeletedMessage := "Board deleted successfully"
  const FeedbackDeletedMessage := "Feedback deleted successfully"
  const CommentDeletedMessage := "Comment deleted successfully"

  /** The topic a reaction on a feedback item is announced under. */
  function FeedbackReactionTopic(p: Polarity): Topic
  {
    if p == Like then FeedbackLiked else FeedbackDisliked
  }

  function CommentReactionTopic(p: Polarity): Topic
  {
    if p == Like then CommentLiked else CommentDisliked
  }

  /** `board` with feedback item `i` replaced. */
  function WithFeedback(b: Board, i: nat, f: Feedback): (r: Board)
    requires i < |b.feedback|
    ensures |r.feedback| == |b.feedback| && r.feedback[i] == f
    ensures forall k :: 0 <= k < |b.feedback| && k != i ==> r.feedback[k] == b.feedback[k]
    ensures r.(feedback := b.feedback) == b
  {
    b.(feedback := b.feedback[i := f])
  }

  /** `feedback` with comment `j` replaced. */
  function WithComment(f: Feedback, j: nat, c: Comment): (r: Feedback)
    requires j < |f.comments|
    ensures |r.comments| == |f.comments| && r.comments[j] == c
    ensures forall k :: 0 <= k < |f.comments| && k != j ==> r.comments[k] == f.comments[k]
    ensures r.(comments := f.comments) == f
  {
    f.(comments := f.comments[j := c])
  }

  class BoardStore {
    /** The `boards` collection, keyed by `_id`. */
    var boards: map<string, Board>

    /** Every board is stored under its own non-empty `_id`, every member in
        it has been given a `userId`, no member name occurs twice, and the
        contents passed validation. The title is not part of the invariant:
        an update that bypasses validation can empty it. */
    ghost predicate Valid()
      reads this
    {
      forall bid :: bid in boards ==>
        bid != "" && boards[bid].id == bid && Registered(boards[bid]) &&
        UniqueNames(boards[bid].teamMembers) && ContentsValid(boards[bid])
    }

    constructor ()
      ensures boards == map[] && Valid()
    {
      boards := map[];
    }

    /** POST /boards. The title is required; the `_id` is derived by the
        pre-save hook and must not collide with a stored one. */
    method CreateBoard(title: string, isAnonymous: Option<bool>, today: CalendarDate, suffix: string, now: int)
      returns (r: Response, events: seq<Event>)
      requires Valid() && ValidDate(today) && today.year >= 0
      modifies this
      ensures Valid()
      ensures title == "" ==> r == ServerError && boards == old(boards) && events == []
      ensures title != "" ==>
        var id := GeneratedBoardId(title, today, suffix);
        var b := Board(id, title, isAnonymous.GetOr(false), [], [], now, now);
        if id in old(boards) then
          r == ServerError && boards == old(boards) && events == []
        else
          r == Ok(NewBoardId(id)) && boards == old(boards)[id := b] &&
          events == [Event(BoardCreated, FullBoard(b), Everyone)]
    {
      var newBoard := Board("", title, isAnonymous.GetOr(false), [], [], now, now);
      if !Saveable(newBoard) {
        return ServerError, [];
      }
      newBoard := PreSaveBoard(newBoard, today, suffix);
      if newBoard.id in boards {
        return ServerError, [];
      }
      boards := boards[newBoard.id := newBoard];
      r := Ok(NewBoardId(newBoard.id));
      events := [Event(BoardCreated, FullBoard(newBoard), Everyone)];
    }

    /** GET /boards: every stored board (the order of the listing is not
        represented). */
    method ListBoards() returns (r: Response)
      ensures r.Ok? && r.body.AllBoards?
      ensures forall b :: b in r.body.boards <==> exists bid :: bid in boards && boards[bid] == b
    {
      r := Ok(AllBoards(boards.Values));
    }

    /** GET /boards/:boardId. */
    method GetBoard(bid: string) returns (r: Response)
      ensures bid !in boards ==> r == NotFound(BoardMissing)
      ensures bid in boards ==> r == Ok(Summary(SummaryOf(boards[bid])))
    {
      if bid !in boards {
        return NotFound(BoardMissing);
      }
      r := Ok(Summary(SummaryOf(boards[bid])));
    }

    /** POST /join/:boardId. The first member with that name is overwritten
        with `{ name }` (or one is appended), the pre-save hook gives it a
        fresh `userId`, and the reply carries that id. On a valid store the
        join fails only for an empty name or an emptied title, and the
        joining name then occurs exactly once. */
    method JoinBoard(bid: string, name: string, suffix: string) returns (r: Response, events: seq<Event>)
      requires Valid()
      modifies this
      ensures Valid()
      ensures bid !in old(boards) ==> r == NotFound(BoardMissing) && boards == old(boards) && events == []
      ensures bid in old(boards) ==>
        var b := old(boards)[bid];
        var userId := GeneratedUserId(name, suffix);
        var b' := b.(teamMembers := AfterJoin(b.teamMembers, name, userId));
        if !Saveable(b') then r == ServerError && boards == old(boards) && events == []
        else
          boards == old(boards)[bid := b'] &&
          r == Ok(Joined(JoinReply(JoinedMessage, bid, b.title, userId, b.isAnonymous, b'.teamMembers))) &&
          events == [Event(BoardUpdated, BoardWithId(bid, b'), Everyone)]
      ensures bid in old(boards) ==>
        (r.Ok? <==> name != "" && old(boards)[bid].title != "")
      ensures r.Ok? ==> Count(Names(boards[bid].teamMembers), name) == 1
    {
      if bid !in boards {
        return NotFound(BoardMissing), [];
      }
      var board := boards[bid];
      var (members, slot) := Upsert(board.teamMembers, name);
      var saved := PreSaveMember(members[slot], suffix);
      members := members[slot := saved];
      board := board.(teamMembers := members);
      AfterJoinMembers(boards[bid].teamMembers, name, saved.userId);
      assert name == "" ==> board.teamMembers[slot].name == "";
      if !Saveable(board) {
        return ServerError, [];
      }
      JoinKeepsUniqueNames(boards[bid].teamMembers, name, saved.userId);
      boards := boards[bid := board];
      FindFirstIs(members, (m: Member) => m.name == name, slot);
      var member := members[MemberIndex(members, name).value];
      events := [Event(BoardUpdated, BoardWithId(board.id, board), Everyone)];
      r := Ok(Joined(JoinReply(JoinedMessage, board.id, board.title, member.userId, board.isAnonymous, members)));
    }

    /** PUT /boards/:boardId, for the `title` and `isAnonymous` fields. The
        update bypasses validation, so an empty title is stored. */
    method UpdateBoard(bid: string, title: Option<string>, isAnonymous: Option<bool>)
      returns (r: Response, events: seq<Event>)
      requires Valid()
      modifies this
      ensures Valid()
      ensures bid !in old(boards) ==> r == NotFound(BoardMissing) && boards == old(boards) && events == []
      ensures bid in old(boards) ==>
        var b := old(boards)[bid];
        var b' := b.(title := title.GetOr(b.title), isAnonymous := isAnonymous.GetOr(b.isAnonymous));
        boards == old(boards)[bid := b'] && r == Ok(Whole(b')) &&
        events == [Event(BoardUpdated, FullBoard(b'), Everyone)]
    {
      if bid !in boards {
        return NotFound(BoardMissing), [];
      }
      var board := boards[bid];
      board := board.(title := title.GetOr(board.title), isAnonymous := isAnonymous.GetOr(board.isAnonymous));
      boards := boards[bid := board];
      r := Ok(Whole(board));
      events := [Event(BoardUpdated, FullBoard(board), Everyone)];
    }

    /** DELETE /boards/:boardId. */
    method DeleteBoard(bid: string) returns (r: Response, events: seq<Event>)
      requires Valid()
      modifies this
      ensures Valid()
      ensures bid !in old(boards) ==> r == NotFound(BoardMissing) && boards == old(boards) && events == []
      ensures bid in old(boards) ==>
        boards == old(boards) - {bid} && r == Ok(Done(BoardDeletedMessage)) &&
        events == [Event(BoardDeleted, BoardIdText(bid), Everyone)]
    {
      if bid !in boards {
        return NotFound(BoardMissing), [];
      }
      boards := boards - {bid};
      r := Ok(Done(BoardDeletedMessage));
      events := [Event(BoardDeleted, BoardIdText(bid), Everyone)];
    }

    /** POST /boards/:boardId/feedback. The category is checked before the
        board is read; a new item is appended with zero counters and no
        comments. */
    method AddFeedback(bid: string, category: string, content: string, userId: string, newId: string, now: int)
      returns (r: Response, events: seq<Event>)
      requires Valid()
      modifies this
      ensures Valid()
      ensures !IsCategory(category) ==> r == BadRequest && boards == old(boards) && events == []
      ensures IsCategory(category) && bid !in old(boards) ==>
        r == NotFound(BoardMissing) && boards == old(boards) && events == []
      ensures IsCategory(category) && bid in old(boards) ==>
        var b := old(boards)[bid];
        var b' := b.(feedback := b.feedback + [NewFeedback(newId, category, content, userId, now)]);
        if !Saveable(b') then r == ServerError && boards == old(boards) && events == []
        else
          boards == old(boards)[bid := b'] && r == Ok(Whole(b')) &&
          events == [Event(FeedbackAdded, FullBoard(b'), Everyone)]
      ensures IsCategory(category) && bid in old(boards) ==> (r.Ok? <==> old(boards)[bid].title != "")
    {
      if !(category in Categories) {
        return BadRequest, [];
      }
      if bid !in boards {
        return NotFound(BoardMissing), [];
      }
      var board := boards[bid];
      var newFeedback := NewFeedback(newId, category, content, userId, now);
      board := board.(feedback := board.feedback + [newFeedback]);
      if !Saveable(board) {
        return ServerError, [];
      }
      boards := boards[bid := board];
      r := Ok(Whole(board));
      events := [Event(FeedbackAdded, FullBoard(board), Everyone)];
    }

    /** GET /boards/:boardId/feedback. */
    method ListFeedback(bid: string) returns (r: Response)
      ensures bid !in boards ==> r == NotFound(BoardMissing)
      ensures bid in boards ==> r == Ok(Listing(FeedbackViews(boards[bid])))
    {
      if bid !in boards {
        return NotFound(BoardMissing);
      }
      r := Ok(Listing(FeedbackViews(boards[bid])));
    }

    /** PUT /boards/:boardId/feedback/:feedbackId, for the `type` and
        `content` fields. The save validates the new category along with
        the rest of the board. */
    method UpdateFeedback(bid: string, fid: string, category: Option<string>, content: Option<string>)
      returns (r: Response, events: seq<Event>)
      requires Valid()
      modifies this
      ensures Valid()
      ensures bid !in old(boards) ==> r == ServerError && boards == old(boards) && events == []
      ensures bid in old(boards) && FeedbackIndex(old(boards)[bid], fid).None? ==>
        r == NotFound(FeedbackMissing) && boards == old(boards) && events == []
      ensures bid in old(boards) && FeedbackIndex(old(boards)[bid], fid).Some? ==>
        var b := old(boards)[bid];
        var i := FeedbackIndex(b, fid).value;
        var f := b.feedback[i];
        var f' := f.(category := category.GetOr(f.category), content := content.GetOr(f.content));
        var b' := WithFeedback(b, i, f');
        if !Saveable(b') then r == ServerError && boards == old(boards) && events == []
        else
          boards == old(boards)[bid := b'] && r == Ok(Whole(b')) &&
          events == [Event(FeedbackUpdated, FullBoard(b'), Everyone)]
      ensures bid in old(boards) && FeedbackIndex(old(boards)[bid], fid).Some? ==>
        (r.Ok? <==> old(boards)[bid].title != "" && IsCategory(category.GetOr(old(boards)[bid].feedback[FeedbackIndex(old(boards)[bid], fid).value].category)))
    {
      if bid !in boards {
        return ServerError, [];
      }
      var board := boards[bid];
      var found := FeedbackIndex(board, fid);
      if found.None? {
        return NotFound(FeedbackMissing), [];
      }
      var i := found.value;
      var feedback := board.feedback[i];
      feedback := feedback.(category := category.GetOr(feedback.category), content := content.GetOr(feedback.content));
      board := WithFeedback(board, i, feedback);
      if !Saveable(board) {
        return ServerError, [];
      }
      boards := boards[bid := board];
      r := Ok(Whole(board));
      events := [Event(FeedbackUpdated, FullBoard(board), Everyone)];
    }

    /** POST /boards/:boardId/feedback/:feedbackId/like and /dislike. Only a
        participant not yet in the list is counted, and only then is the
        board saved; the board is answered and announced either way. */
    method ReactToFeedback(bid: string, fid: string, userId: string, p: Polarity)
      returns (r: Response, events: seq<Event>)
      requires Valid()
      modifies this
      ensures Valid()
      ensures bid !in old(boards) ==> r == ServerError && boards == old(boards) && events == []
      ensures bid in old(boards) && FeedbackIndex(old(boards)[bid], fid).None? ==>
        r == NotFound(FeedbackMissing) && boards == old(boards) && events == []
      ensures bid in old(boards) && FeedbackIndex(old(boards)[bid], fid).Some? ==>
        var b := old(boards)[bid];
        var i := FeedbackIndex(b, fid).value;
        var v := b.feedback[i].votes;
        var b' := WithFeedback(b, i, b.feedback[i].(votes := React(v, p, userId)));
        if userId in Reactors(v, p) then
          boards == old(boards) && r == Ok(Whole(b)) &&
          events == [Event(FeedbackReactionTopic(p), FullBoard(b), Everyone)]
        else if !Saveable(b') then r == ServerError && boards == old(boards) && events == []
        else
          boards == old(boards)[bid := b'] && r == Ok(Whole(b')) &&
          events == [Event(FeedbackReactionTopic(p), FullBoard(b'), Everyone)]
      ensures bid in old(boards) && FeedbackIndex(old(boards)[bid], fid).Some? ==>
        var b := old(boards)[bid];
        (r.Ok? <==> b.title != "" || userId in Reactors(b.feedback[FeedbackIndex(b, fid).value].votes, p))
    {
      if bid !in boards {
        return ServerError, [];
      }
      var board := boards[bid];
      var found := FeedbackIndex(board, fid);
      if found.None? {
        return NotFound(FeedbackMissing), [];
      }
      var i := found.value;
      var votes := board.feedback[i].votes;
      var counted := false;
      if p == Like {
        if userId !in votes.likedBy {
          votes := votes.(likes := votes.likes + 1);
          votes := votes.(likedBy := votes.likedBy + [userId]);
          counted := true;
        }
      } else {
        if userId !in votes.dislikedBy {
          votes := votes.(dislikes := votes.dislikes + 1);
          votes := votes.(dislikedBy := votes.dislikedBy + [userId]);
          counted := true;
        }
      }
      if counted {
        board := WithFeedback(board, i, board.feedback[i].(votes := votes));
        if !Saveable(board) {
          return ServerError, [];
        }
        boards := boards[bid := board];
      }
      r := Ok(Whole(board));
      events := [Event(FeedbackReactionTopic(p), FullBoard(board), Everyone)];
    }

    /** DELETE /boards/:boardId/feedback/:feedbackId. */
    method DeleteFeedback(bid: string, fid: string) returns (r: Response, events: seq<Event>)
      requires Valid()
      modifies this
      ensures Valid()
      ensures bid !in old(boards) ==> r == NotFound(BoardMissing) && boards == old(boards) && events == []
      ensures bid in old(boards) && FeedbackIndex(old(boards)[bid], fid).None? ==>
        r == NotFound(FeedbackMissing) && boards == old(boards) && events == []
      ensures bid in old(boards) && FeedbackIndex(old(boards)[bid], fid).Some? ==>
        var b := old(boards)[bid];
        var b' := b.(feedback := RemoveFeedback(b.feedback, fid));
        if !Saveable(b') then r == ServerError && boards == old(boards) && events == []
        else
          boards == old(boards)[bid := b'] && r == Ok(Done(FeedbackDeletedMessage)) &&
          events == [Event(FeedbackDeleted, DeletionMarker(bid, fid, None), Everyone)]
      ensures bid in old(boards) && FeedbackIndex(old(boards)[bid], fid).Some? ==>
        (r.Ok? <==> old(boards)[bid].title != "")
    {
      if bid !in boards {
        return NotFound(BoardMissing), [];
      }
      var board := boards[bid];
      if FeedbackIndex(board, fid).None? {
        return NotFound(FeedbackMissing), [];
      }
      RemoveFeedbackKeepsContents(board, fid);
      board := board.(feedback := RemoveFeedback(board.feedback, fid));
      if !Saveable(board) {
        return ServerError, [];
      }
      boards := boards[bid := board];
      r := Ok(Done(FeedbackDeletedMessage));
      events := [Event(FeedbackDeleted, DeletionMarker(bid, fid, None), Everyone)];
    }

    /** POST /boards/:boardId/feedback/:feedbackId/comments. */
    method AddComment(bid: string, fid: string, text: string, userId: string, newId: string, now: int)
      returns (r: Response, events: seq<Event>)
      requires Valid()
      modifies this
      ensures Valid()
      ensures bid !in old(boards) ==> r == ServerError && boards == old(boards) && events == []
      ensures bid in old(boards) && FeedbackIndex(old(boards)[bid], fid).None? ==>
        r == NotFound(FeedbackMissing) && boards == old(boards) && events == []
      ensures bid in old(boards) && FeedbackIndex(old(boards)[bid], fid).Some? ==>
        var b := old(boards)[bid];
        var i := FeedbackIndex(b, fid).value;
        var f := b.feedback[i];
        var b' := WithFeedback(b, i, f.(comments := f.comments + [NewComment(newId, text, userId, now)]));
        if !Saveable(b') then r == ServerError && boards == old(boards) && events == []
        else
          boards == old(boards)[bid := b'] && r == Ok(Whole(b')) &&
          events == [Event(CommentAdded, FullBoard(b'), Everyone)]
      ensures bid in old(boards) && FeedbackIndex(old(boards)[bid], fid).Some? ==>
        (r.Ok? <==> old(boards)[bid].title != "")
    {
      if bid !in boards {
        return ServerError, [];
      }
      var board := boards[bid];
      var found := FeedbackIndex(board, fid);
      if found.None? {
        return NotFound(FeedbackMissing), [];
      }
      var i := found.value;
      var feedback := board.feedback[i];
      feedback := feedback.(comments := feedback.comments + [NewComment(newId, text, userId, now)]);
      board := WithFeedback(board, i, feedback);
      if !Saveable(board) {
        return ServerError, [];
      }
      boards := boards[bid := board];
      r := Ok(Whole(board));
      events := [Event(CommentAdded, FullBoard(board), Everyone)];
    }

    /** PUT /boards/:boardId/feedback/:feedbackId/comments/:commentId: only
        the comment's text changes. */
    method UpdateComment(bid: string, fid: string, cid: string, text: string)
      returns (r: Response, events: seq<Event>)
      requires Valid()
      modifies this
      ensures Valid()
      ensures bid !in old(boards) ==> r == ServerError && boards == old(boards) && events == []
      ensures bid in old(boards) && FeedbackIndex(old(boards)[bid], fid).None? ==>
        r == ServerError && boards == old(boards) && events == []
      ensures bid in old(boards) && FeedbackIndex(old(boards)[bid], fid).Some? ==>
        var b := old(boards)[bid];
        var i := FeedbackIndex(b, fid).value;
        var f := b.feedback[i];
        match CommentIndex(f, cid)
        case None => r == NotFound(CommentMissing) && boards == old(boards) && events == []
        case Some(j) =>
          var b' := WithFeedback(b, i, WithComment(f, j, f.comments[j].(text := text)));
          if !Saveable(b') then r == ServerError && boards == old(boards) && events == []
          else
            boards == old(boards)[bid := b'] && r == Ok(Whole(b')) &&
            events == [Event(CommentUpdated, FullBoard(b'), Everyone)]
      ensures bid in old(boards) && FeedbackIndex(old(boards)[bid], fid).Some? ==>
        var b := old(boards)[bid];
        CommentIndex(b.feedback[FeedbackIndex(b, fid).value], cid).Some? ==> (r.Ok? <==> b.title != "")
    {
      if bid !in boards {
        return ServerError, [];
      }
      var board := boards[bid];
      var found := FeedbackIndex(board, fid);
      if found.None? {
        return ServerError, [];
      }
      var i := found.value;
      var feedback := board.feedback[i];
      var foundComment := CommentIndex(feedback, cid);
      if foundComment.None? {
        return NotFound(CommentMissing), [];
      }
      var j := foundComment.value;
      feedback := WithComment(feedback, j, feedback.comments[j].(text := text));
      board := WithFeedback(board, i, feedback);
      if !Saveable(board) {
        return ServerError, [];
      }
      boards := boards[bid := board];
      r := Ok(Whole(board));
      events := [Event(CommentUpdated, FullBoard(board), Everyone)];
    }

    /** POST /boards/:boardId/feedback/:feedbackId/comments/:commentId/like
        and /dislike. As for feedback, the board is saved only when the
        reaction is counted. */
    method ReactToComment(bid: string, fid: string, cid: string, userId: string, p: Polarity)
      returns (r: Response, events: seq<Event>)
      requires Valid()
      modifies this
      ensures Valid()
      ensures bid !in old(boards) ==> r == ServerError && boards == old(boards) && events == []
      ensures bid in old(boards) && FeedbackIndex(old(boards)[bid], fid).None? ==>
        r == ServerError && boards == old(boards) && events == []
      ensures bid in old(boards) && FeedbackIndex(old(boards)[bid], fid).Some? ==>
        var b := old(boards)[bid];
        var i := FeedbackIndex(b, fid).value;
        var f := b.feedback[i];
        match CommentIndex(f, cid)
        case None => r == NotFound(CommentMissing) && boards == old(boards) && events == []
        case Some(j) =>
          var v := f.comments[j].votes;
          var b' := WithFeedback(b, i, WithComment(f, j, f.comments[j].(votes := React(v, p, userId))));
          if userId in Reactors(v, p) then
            boards == old(boards) && r == Ok(Whole(b)) &&
            events == [Event(CommentReactionTopic(p), FullBoard(b), Everyone)]
          else if !Saveable(b') then r == ServerError && boards == old(boards) && events == []
          else
            boards == old(boards)[bid := b'] && r == Ok(Whole(b')) &&
            events == [Event(CommentReactionTopic(p), FullBoard(b'), Everyone)]
      ensures bid in old(boards) && FeedbackIndex(old(boards)[bid], fid).Some? ==>
        var b := old(boards)[bid];
        var f := b.feedback[FeedbackIndex(b, fid).value];
        CommentIndex(f, cid).Some? ==>
          (r.Ok? <==> b.title != "" || userId in Reactors(f.comments[CommentIndex(f, cid).value].votes, p))
    {
      if bid !in boards {
        return ServerError, [];
      }
      var board := boards[bid];
      var found := FeedbackIndex(board, fid);
      if found.None? {
        return ServerError, [];
      }
      var i := found.value;
      var feedback := board.feedback[i];
      var foundComment := CommentIndex(feedback, cid);
      if foundComment.None? {
        return NotFound(CommentMissing), [];
      }
      var j := foundComment.value;
      var votes := feedback.comments[j].votes;
      var counted := false;
      if p == Like {
        if userId !in votes.likedBy {
          votes := votes.(likes := votes.likes + 1);
          votes := votes.(likedBy := votes.likedBy + [userId]);
          counted := true;
        }
      } else {
        if userId !in votes.dislikedBy {
          votes := votes.(dislikes := votes.dislikes + 1);
          votes := votes.(dislikedBy := votes.dislikedBy + [userId]);
          counted := true;
        }
      }
      if counted {
        feedback := WithComment(feedback, j, feedback.comments[j].(votes := votes));
        board := WithFeedback(board, i, feedback);
        if !Saveable(board) {
          return ServerError, [];
        }
        boards := boards[bid := board];
      }
      r := Ok(Whole(board));
      events := [Event(CommentReactionTopic(p), FullBoard(board), Everyone)];
    }

    /** DELETE /boards/:boardId/feedback/:feedbackId/comments/:commentId.
        Missing board, feedback and comment are reported in that order; only
        the target feedback item's comments are filtered. */
    method DeleteComment(bid: string, fid: string, cid: string) returns (r: Response, events: seq<Event>)
      requires Valid()
      modifies this
      ensures Valid()
      ensures bid !in old(boards) ==> r == NotFound(BoardMissing) && boards == old(boards) && events == []
      ensures bid in old(boards) && FeedbackIndex(old(boards)[bid], fid).None? ==>
        r == NotFound(FeedbackMissing) && boards == old(boards) && events == []
      ensures bid in old(boards) && FeedbackIndex(old(boards)[bid], fid).Some? ==>
        var b := old(boards)[bid];
        var i := FeedbackIndex(b, fid).value;
        var f := b.feedback[i];
        if CommentIndex(f, cid).None? then
          r == NotFound(CommentMissing) && boards == old(boards) && events == []
        else
          var b' := WithFeedback(b, i, f.(comments := RemoveComment(f.comments, cid)));
          if !Saveable(b') then r == ServerError && boards == old(boards) && events == []
          else
            boards == old(boards)[bid := b'] && r == Ok(Done(CommentDeletedMessage)) &&
            events == [Event(CommentDeleted, DeletionMarker(bid, fid, Some(cid)), Everyone)]
      ensures bid in old(boards) && FeedbackIndex(old(boards)[bid], fid).Some? ==>
        var b := old(boards)[bid];
        CommentIndex(b.feedback[FeedbackIndex(b, fid).value], cid).Some? ==> (r.Ok? <==> b.title != "")
    {
      if bid !in boards {
        return NotFound(BoardMissing), [];
      }
      var board := boards[bid];
      var found := FeedbackIndex(board, fid);
      if found.None? {
        return NotFound(FeedbackMissing), [];
      }
      var i := found.value;
      var feedback := board.feedback[i];
      if CommentIndex(feedback, cid).None? {
        return NotFound(CommentMissing), [];
      }
      feedback := feedback.(comments := RemoveComment(feedback.comments, cid));
      board := WithFeedback(board, i, feedback);
      if !Saveable(board) {
        return ServerError, [];
      }
      boards := boards[bid := board];
      r := Ok(Done(CommentDeletedMessage));
      events := [Event(CommentDeleted, DeletionMarker(bid, fid, Some(cid)), Everyone)];
    }
  }
}
