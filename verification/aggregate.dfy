/** Reads and edits of one Board aggregate that the route handlers share:
    lookup of a feedback item or comment by id, the filters that delete them,
    the join-by-name upsert of the team member list, and the projection the
    feedback listing returns. */
module Aggregate {
  import opened Prelude
  import opened Models
  import opened Reactions

  // ---------------------------------------------------------------------
  // Lookup by id (Mongoose `DocumentArray.id`: the first element with that id)

  function FeedbackIndex(b: Board, fid: string): (r: Option<nat>)
    ensures r.Some? ==> r.value < |b.feedback| && b.feedback[r.value].id == fid
    ensures r.None? <==> forall k :: 0 <= k < |b.feedback| ==> b.feedback[k].id != fid
  {
    FindFirst(b.feedback, (f: Feedback) => f.id == fid)
  }

  function CommentIndex(f: Feedback, cid: string): (r: Option<nat>)
    ensures r.Some? ==> r.value < |f.comments| && f.comments[r.value].id == cid
    ensures r.None? <==> forall k :: 0 <= k < |f.comments| ==> f.comments[k].id != cid
  {
    FindFirst(f.comments, (c: Comment) => c.id == cid)
  }

  // ---------------------------------------------------------------------
  // Deletion filters

  /** `board.feedback.filter((fb) => fb.id !== fid)`. */
  function RemoveFeedback(fs: seq<Feedback>, fid: string): seq<Feedback>
  {
    Filter(fs, (f: Feedback) => f.id != fid)
  }

  /** `feedback.comments.filter((c) => c.id !== cid)`. */
  function RemoveComment(cs: seq<Comment>, cid: string): seq<Comment>
  {
    Filter(cs, (c: Comment) => c.id != cid)
  }

  /** Deleting feedback keeps the board's contents valid: every item left
      was on the board before. */
  lemma RemoveFeedbackKeepsContents(b: Board, fid: string)
    requires ContentsValid(b)
    ensures ContentsValid(b.(feedback := RemoveFeedback(b.feedback, fid)))
  {
    var rest := RemoveFeedback(b.feedback, fid);
    FilterMembers(b.feedback, (f: Feedback) => f.id != fid);
    forall k | 0 <= k < |rest|
      ensures IsCategory(rest[k].category)
    {
      assert rest[k] in b.feedback;
    }
  }

  /** Deleting feedback drops every item with that id, together with the
      comments it owns, and keeps every other item, in order. */
  lemma RemoveFeedbackExactly(fs: seq<Feedback>, fid: string)
    ensures var r := RemoveFeedback(fs, fid);
      (forall k :: 0 <= k < |r| ==> r[k].id != fid) &&
      IsSubsequence(r, fs) &&
      forall f: Feedback :: f.id != fid ==> Count(r, f) == Count(fs, f)
  {
    var keep := (f: Feedback) => f.id != fid;
    FilterIsSubsequence(fs, keep);
    forall f: Feedback | f.id != fid
      ensures Count(RemoveFeedback(fs, fid), f) == Count(fs, f)
    {
      FilterCount(fs, keep, f);
    }
  }

  /** Deleting a comment drops every comment with that id and keeps every
      other one, in order. */
  lemma RemoveCommentExactly(cs: seq<Comment>, cid: string)
    ensures var r := RemoveComment(cs, cid);
      (forall k :: 0 <= k < |r| ==> r[k].id != cid) &&
      IsSubsequence(r, cs) &&
      forall c: Comment :: c.id != cid ==> Count(r, c) == Count(cs, c)
  {
    var keep := (c: Comment) => c.id != cid;
    FilterIsSubsequence(cs, keep);
    forall c: Comment | c.id != cid
      ensures Count(RemoveComment(cs, cid), c) == Count(cs, c)
    {
      FilterCount(cs, keep, c);
    }
  }

  // ---------------------------------------------------------------------
  // Membership registry

  /** `teamMembers.findIndex((member) => member.name === name)`. */
  function MemberIndex(ms: seq<Member>, name: string): Option<nat>
  {
    FindFirst(ms, (m: Member) => m.name == name)
  }

  /** The list edit of a join: a new name is pushed as `{ name }`; an existing
      name's first slot is overwritten with `{ name }`, which drops its
      `userId`. The second component is the slot written. */
  function Upsert(ms: seq<Member>, name: string): (r: (seq<Member>, nat))
    ensures r.1 < |r.0| && r.0[r.1] == Member(name, "")
    ensures MemberIndex(r.0, name) == Some(r.1)
    ensures MemberIndex(ms, name).None? ==> |r.0| == |ms| + 1 && r.1 == |ms|
    ensures MemberIndex(ms, name).Some? ==> |r.0| == |ms| && r.1 == MemberIndex(ms, name).value
    ensures forall k :: 0 <= k < |ms| && k != r.1 ==> r.0[k] == ms[k]
  {
    match MemberIndex(ms, name)
    case None => (ms + [Member(name, "")], |ms|)
    case Some(i) => (ms[i := Member(name, "")], i)
  }

  /** The slot a join writes, with the `userId` the pre-save hook gives it. */
  function AfterJoin(ms: seq<Member>, name: string, userId: string): seq<Member>
  {
    var (ms', slot) := Upsert(ms, name);
    ms'[slot := Member(name, userId)]
  }

  function Names(ms: seq<Member>): (r: seq<string>)
    ensures |r| == |ms| && forall k :: 0 <= k < |ms| ==> r[k] == ms[k].name
  {
    if ms == [] then [] else [ms[0].name] + Names(ms[1..])
  }

  /** A join leaves exactly one member with the joining name when there was
      at most one before, and the count of every other name unchanged. */
  lemma {:induction false} JoinNameCount(ms: seq<Member>, name: string, userId: string, other: string)
    requires Count(Names(ms), name) <= 1
    requires other != name
    ensures Count(Names(AfterJoin(ms, name, userId)), name) == 1
    ensures Count(Names(AfterJoin(ms, name, userId)), other) == Count(Names(ms), other)
  {
    var r := AfterJoin(ms, name, userId);
    var slot := Upsert(ms, name).1;
    match MemberIndex(ms, name)
    case None =>
      assert Names(r) == Names(ms) + [name];
      CountAppend(Names(ms), [name], name);
      CountAppend(Names(ms), [name], other);
      CountZeroIffAbsent(Names(ms), name);
    case Some(i) =>
      assert Names(r) == Names(ms)[i := name];
      assert name in Names(ms) by { assert Names(ms)[i] == name; }
      CountZeroIffAbsent(Names(ms), name);
      CountUpdate(Names(ms), i, name, name);
      CountUpdate(Names(ms), i, name, other);
  }

  /** No name occurs twice in the member list. */
  ghost predicate UniqueNames(ms: seq<Member>)
  {
    forall name :: Count(Names(ms), name) <= 1
  }

  /** Joins keep member names unique: the joining name occurs exactly once
      afterwards, and the list is otherwise unchanged. */
  lemma JoinKeepsUniqueNames(ms: seq<Member>, name: string, userId: string)
    requires UniqueNames(ms)
    ensures UniqueNames(AfterJoin(ms, name, userId))
    ensures Count(Names(AfterJoin(ms, name, userId)), name) == 1
  {
    var other := if name == "" then "a" else "";
    JoinNameCount(ms, name, userId, other);
    forall n | n != name
      ensures Count(Names(AfterJoin(ms, name, userId)), n) <= 1
    {
      JoinNameCount(ms, name, userId, n);
    }
  }

  /** Apart from the slot it writes, a join leaves every member as it was,
      so it keeps a property of all members that the new member has. */
  lemma AfterJoinMembers(ms: seq<Member>, name: string, userId: string)
    ensures var r := AfterJoin(ms, name, userId);
      forall k :: 0 <= k < |r| ==> r[k] == Member(name, userId) || (k < |ms| && r[k] == ms[k])
  {
  }

  /** A second join with the same name overwrites the same slot and, before
      the pre-save hook runs, leaves the list exactly as the first join did:
      whatever `userId` the slot had is discarded. */
  lemma RejoinSameSlot(ms: seq<Member>, name: string, userId: string)
    ensures var (ms1, slot1) := Upsert(ms, name);
      Upsert(ms1[slot1 := Member(name, userId)], name) == (ms1, slot1)
  {
    var (ms1, slot1) := Upsert(ms, name);
    var ms2 := ms1[slot1 := Member(name, userId)];
    assert forall k :: 0 <= k < slot1 ==> ms2[k].name != name;
    FindFirstIs(ms2, (m: Member) => m.name == name, slot1);
    assert ms2[slot1 := Member(name, "")] == ms1;
  }

  /** Generated member ids with different suffixes differ, so a participant
      who joins again under the same name gets a new id ... */
  lemma RejoinChangesUserId(name: string, suffix1: string, suffix2: string)
    requires suffix1 != suffix2
    ensures GeneratedUserId(name, suffix1) != GeneratedUserId(name, suffix2)
  {
    GeneratedUserIdShape(name, suffix1);
    GeneratedUserIdShape(name, suffix2);
  }

  /** ... and the reaction guard, which keys on that id, counts the same
      person's second like. */
  lemma RejoinedParticipantCountsTwice(v: Votes, p: Polarity, name: string, suffix1: string, suffix2: string)
    requires suffix1 != suffix2
    requires GeneratedUserId(name, suffix1) !in Reactors(v, p)
    requires GeneratedUserId(name, suffix2) !in Reactors(v, p)
    ensures Counter(React(React(v, p, GeneratedUserId(name, suffix1)), p, GeneratedUserId(name, suffix2)), p)
      == Counter(v, p) + 2
  {
    RejoinChangesUserId(name, suffix1, suffix2);
  }

  // ---------------------------------------------------------------------
  // Feedback listing projection

  datatype CommentView = CommentView(
    id: string, text: string, createdAt: int, likes: nat, dislikes: nat, userId: string)

  datatype FeedbackView = FeedbackView(
    id: string,
    category: string,
    content: string,
    createdAt: int,
    likes: nat,
    dislikes: nat,
    comments: seq<CommentView>,
    userId: string,
    isAnonymous: bool,
    title: string)

  function CommentViewOf(c: Comment): CommentView
  {
    CommentView(c.id, c.text, c.createdAt, c.votes.likes, c.votes.dislikes, c.userId)
  }

  function FeedbackViewOf(b: Board, f: Feedback): FeedbackView
  {
    FeedbackView(
      f.id, f.category, f.content, f.createdAt, f.votes.likes, f.votes.dislikes,
      seq(|f.comments|, k requires 0 <= k < |f.comments| => CommentViewOf(f.comments[k])),
      f.userId, b.isAnonymous, b.title)
  }

  /** The listing: one view per feedback item, in order, each annotated with
      the board's title and anonymity flag; reactor lists are not exposed. */
  function FeedbackViews(b: Board): (r: seq<FeedbackView>)
    ensures |r| == |b.feedback|
    ensures forall k :: 0 <= k < |r| ==>
      r[k].id == b.feedback[k].id && r[k].title == b.title && r[k].isAnonymous == b.isAnonymous &&
      r[k].category == b.feedback[k].category && r[k].content == b.feedback[k].content &&
      r[k].userId == b.feedback[k].userId && r[k].createdAt == b.feedback[k].createdAt &&
      r[k].likes == b.feedback[k].votes.likes && r[k].dislikes == b.feedback[k].votes.dislikes &&
      |r[k].comments| == |b.feedback[k].comments|
    ensures forall k, j :: 0 <= k < |r| && 0 <= j < |r[k].comments| ==>
      var c, cv := b.feedback[k].comments[j], r[k].comments[j];
      cv.id == c.id && cv.text == c.text && cv.userId == c.userId && cv.createdAt == c.createdAt &&
      cv.likes == c.votes.likes && cv.dislikes == c.votes.dislikes
  {
    seq(|b.feedback|, k requires 0 <= k < |b.feedback| => FeedbackViewOf(b, b.feedback[k]))
  }
}
