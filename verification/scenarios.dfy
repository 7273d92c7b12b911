/** End-to-end runs of the server and page models on concrete inputs: a board
    lifecycle, a repeated join under one name, the fate of a comment whose
    feedback item was deleted, and a page joining a board that refuses it. */
module Scenarios {
  import opened Prelude
  import opened Text
  import opened Models
  import opened Reactions
  import opened Aggregate
  import opened Messages
  import opened Store
  import opened Home
  import opened RetroBoard

  lemma Year2024()
    ensures NatToString(2024) == "2024"
  {
    assert NatToString(2) == "2";
    assert NatToString(20) == "20";
    assert NatToString(202) == "202";
  }

  /** The date segment written on 5 January 2024. */
  lemma FifthOfJanuary2024()
    ensures FormatDate(CalendarDate(5, 1, 2024)) == "05-01-2024"
  {
    Year2024();
    assert Pad2(5) == "05";
    assert Pad2(1) == "01";
  }

  /** The title "Sprint Review" is sanitised to "Sprint-Review". */
  lemma SprintReviewTitle()
    ensures SanitizeTitle("Sprint Review") == "Sprint-Review"
  {
    var a, b := "Sprint", "Review";
    assert forall k :: 0 <= k < |a| ==> !IsSpace(a[k]);
    assert forall k :: 0 <= k < |b| ==> !IsSpace(b[k]);
    CollapseSpacesBetweenWords(a, b);
    assert a + " " + b == "Sprint Review";
    assert a + "-" + b == "Sprint-Review";
  }

  /** On a board with a title and no feedback, one piece of feedback is
      liked twice by the same participant, then deleted: the like counts
      once and the listing ends empty. */
  method LikeTwiceThenDelete(store: BoardStore, bid: string)
    returns (likes: nat, listing: Response, deletion: seq<Event>)
    requires store.Valid() && bid in store.boards
    requires store.boards[bid].title != "" && store.boards[bid].feedback == []
    modifies store
    ensures likes == 1
    ensures listing == Ok(Listing([]))
    ensures deletion == [Event(FeedbackDeleted, DeletionMarker(bid, "f1", None), Everyone)]
  {
    var b0 := store.boards[bid];
    var r, events := store.AddFeedback(bid, "Good", "Great sprint", "p1", "f1", 1);
    var f := NewFeedback("f1", "Good", "Great sprint", "p1", 1);
    var b1 := b0.(feedback := [f]);
    assert b0.feedback + [f] == [f] && IsCategory("Good");
    assert store.boards == old(store.boards)[bid := b1];

    assert FeedbackIndex(b1, "f1") == Some(0);
    r, events := store.ReactToFeedback(bid, "f1", "p1", Like);
    var b2 := b1.(feedback := [f.(votes := Votes(1, 0, ["p1"], []))]);
    assert React(NoVotes, Like, "p1") == Votes(1, 0, ["p1"], []) by {
      assert NoVotes.likedBy + ["p1"] == ["p1"];
    }
    assert [f][0 := f.(votes := Votes(1, 0, ["p1"], []))] == b2.feedback;
    assert store.boards == old(store.boards)[bid := b2];

    assert FeedbackIndex(b2, "f1") == Some(0);
    r, events := store.ReactToFeedback(bid, "f1", "p1", Like);
    assert store.boards == old(store.boards)[bid := b2];
    likes := store.boards[bid].feedback[0].votes.likes;

    r, deletion := store.DeleteFeedback(bid, "f1");
    assert RemoveFeedback(b2.feedback, "f1") == [];
    listing := store.ListFeedback(bid);
  }

  /** Board "Sprint Review" created on 5 January 2024: its id carries that
      date, and the feedback lifecycle above runs on it. */
  method SprintReview() returns (boardId: string, likes: nat, listing: Response, deletion: seq<Event>)
    ensures boardId == GeneratedBoardId("Sprint Review", CalendarDate(5, 1, 2024), "x1")
    ensures DateSegment(boardId) == Some("05-01-2024")
    ensures likes == 1
    ensures listing == Ok(Listing([]))
    ensures deletion == [Event(FeedbackDeleted, DeletionMarker(boardId, "f1", None), Everyone)]
  {
    var store := new BoardStore();
    var today := CalendarDate(5, 1, 2024);
    boardId := GeneratedBoardId("Sprint Review", today, "x1");
    var r, events := store.CreateBoard("Sprint Review", None, today, "x1", 0);
    DateSegmentOfGeneratedId("Sprint Review", today, "x1");
    FifthOfJanuary2024();
    likes, listing, deletion := LikeTwiceThenDelete(store, boardId);
  }

  /** The member list after a first and a second join under "Alice". */
  lemma AliceJoins()
    ensures GeneratedUserId("Alice", "s1") == "Alice-s1" && GeneratedUserId("Alice", "s2") == "Alice-s2"
    ensures AfterJoin([], "Alice", "Alice-s1") == [Member("Alice", "Alice-s1")]
    ensures AfterJoin([Member("Alice", "Alice-s1")], "Alice", "Alice-s2") == [Member("Alice", "Alice-s2")]
  {
    assert SanitizeName("Alice") == "Alice" by {
      CollapseSpacesWithoutSpaces("Alice");
      FilterKeepsAll("Alice", IsIdChar);
    }
    assert MemberIndex([Member("Alice", "Alice-s1")], "Alice") == Some(0);
  }

  /** Two joins under the name "Alice": one member named Alice, in the same
      slot, with a new id the second time. */
  method JoinTwice(store: BoardStore, bid: string) returns (first: Response, second: Response)
    requires store.Valid() && bid in store.boards
    requires store.boards[bid].title != "" && store.boards[bid].teamMembers == []
    modifies store
    ensures first.Ok? && second.Ok? && first.body.Joined? && second.body.Joined?
    ensures first.body.reply.userId == "Alice-s1" && second.body.reply.userId == "Alice-s2"
    ensures bid in store.boards && store.boards[bid].teamMembers == [Member("Alice", "Alice-s2")]
  {
    AliceJoins();
    var b := store.boards[bid];
    var events;
    first, events := store.JoinBoard(bid, "Alice", "s1");
    var b1 := b.(teamMembers := [Member("Alice", "Alice-s1")]);
    assert first.Ok? && store.boards == old(store.boards)[bid := b1];
    second, events := store.JoinBoard(bid, "Alice", "s2");
    assert second.Ok?;
    assert store.boards[bid] == b1.(teamMembers := [Member("Alice", "Alice-s2")]);
  }

  /** After its feedback item is deleted, a comment can no longer be edited:
      the edit dereferences the missing item and answers 500. */
  method EditCommentOfDeletedFeedback(store: BoardStore, bid: string) returns (r: Response)
    requires store.Valid() && bid in store.boards && store.boards[bid].title != ""
    modifies store
    ensures r == ServerError
  {
    var added, events := store.AddFeedback(bid, "Ideas", "Retro earlier", "p1", "f7", 0);
    var b1 := store.boards[bid];
    assert IsCategory("Ideas") && b1.feedback[|b1.feedback| - 1].id == "f7";
    var i := FeedbackIndex(b1, "f7").value;
    added, events := store.AddComment(bid, "f7", "Agreed", "p2", "c1", 1);
    assert store.boards[bid].title == b1.title && store.boards[bid].feedback[i].id == "f7";
    var deleted, _ := store.DeleteFeedback(bid, "f7");
    assert deleted.Ok?;
    RemoveFeedbackExactly(old(store.boards)[bid].feedback, "f7");
    RemoveFeedbackExactly(store.boards[bid].feedback, "f7");
    r, events := store.UpdateComment(bid, "f7", "c1", "Edited");
  }

  /** A board whose title was emptied by an edit refuses every join with a
      500 whose body is the serialised validation error. A page that joins it
      reads that JSON body, becomes active with an undefined board id, and
      its listeners then take the deletion marker of any other board for
      their own board. */
  method JoinRefusedFollowsEveryBoard(store: BoardStore, bid: string, other: string, fid: string, now: int)
    returns (joined: Response, active: bool, view: Option<View>)
    requires store.Valid() && bid in store.boards
    modifies store
    ensures joined == ServerError
    ensures active
    ensures view == Some(RawView(DeletionMarker(other, fid, None)))
  {
    var edited, events := store.UpdateBoard(bid, Some(""), None);
    joined, events := store.JoinBoard(bid, "Alice", "s1");
    var page := new RetroBoardPage(None, []);
    page.TypeBoardId(bid);
    page.TypeMemberName("Alice");
    var _ := page.JoinBoard(JoinDataOf(joined), now);
    page.BindListeners();
    page.Receive(Event(FeedbackDeleted, DeletionMarker(other, fid, None), Everyone));
    active, view := page.boardSuccess, page.boardDetails;
  }

  lemma FilterOrThrowOfTwo<T>(x: T, y: T, test: T -> Option<bool>)
    requires test(x) == Some(true) && test(y) == Some(false)
    ensures FilterOrThrow([x, y], test) == Some([x])
  {
    assert FilterOrThrow([y], test) == Some([]) by {
      assert [y][1..] == [];
      assert FilterOrThrow([], test) == Some([]);
    }
    assert [x, y][1..] == [y];
    assert [x] + [] == [x];
  }

  /** The landing page's today filter keeps the board created today and
      drops the one created the day before. */
  lemma CreatedToday()
    ensures TodayBoardIds([GeneratedBoardId("Sprint Review", CalendarDate(5, 1, 2024), "x1"),
                           GeneratedBoardId("Planning", CalendarDate(4, 1, 2024), "y2")],
                          CalendarDate(5, 1, 2024))
         == Some([GeneratedBoardId("Sprint Review", CalendarDate(5, 1, 2024), "x1")])
  {
    var today, yesterday := CalendarDate(5, 1, 2024), CalendarDate(4, 1, 2024);
    IsTodayOfGeneratedId("Sprint Review", today, "x1", today);
    IsTodayOfGeneratedId("Planning", yesterday, "y2", today);
    FilterOrThrowOfTwo(GeneratedBoardId("Sprint Review", today, "x1"), GeneratedBoardId("Planning", yesterday, "y2"),
                       (id: string) => IsToday(id, today));
  }
}
