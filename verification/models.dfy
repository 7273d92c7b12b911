/** The persisted documents of backend/models.js — Board, TeamMember, Feedback,
    Comment — and the identifiers the pre-save hooks derive for boards and
    members. An identifier that is "absent" (falsy in JavaScript) is "". */
module Models {
  import opened Prelude
  import opened Text

  /** The closed set of feedback categories (the schema's `enum`). */
  const Categories: seq<string> := ["Good", "Bad", "Ideas", "Actions", "Kudos"]

  predicate IsCategory(name: string)
  {
    name in Categories
  }

  /** Reaction counters with the lists of who already reacted. The schema
      declares only the counters; the handlers read and push `likedBy` and
      `dislikedBy`, so they are explicit here. */
  datatype Votes = Votes(likes: nat, dislikes: nat, likedBy: seq<string>, dislikedBy: seq<string>)

  /** Schema defaults: `likes` and `dislikes` start at 0, nobody has reacted. */
  const NoVotes: Votes := Votes(0, 0, [], [])

  datatype Comment = Comment(id: string, text: string, userId: string, createdAt: int, votes: Votes)

  /** `category` is the schema's `type` field. */
  datatype Feedback = Feedback(
    id: string,
    category: string,
    content: string,
    userId: string,
    createdAt: int,
    votes: Votes,
    comments: seq<Comment>)

  datatype Member = Member(name: string, userId: string)

  datatype Board = Board(
    id: string,
    title: string,
    isAnonymous: bool,
    teamMembers: seq<Member>,
    feedback: seq<Feedback>,
    createdAt: int,
    updatedAt: int)

  /** The validators that look inside a board: a member's `name` is
      required, and a feedback item's `type` is required and one of the
      enum's categories. */
  predicate ContentsValid(b: Board)
  {
    (forall k :: 0 <= k < |b.teamMembers| ==> b.teamMembers[k].name != "") &&
    (forall k :: 0 <= k < |b.feedback| ==> IsCategory(b.feedback[k].category))
  }

  /** What validation on `save()` accepts. Validation covers every path of
      a loaded document, not only the changed ones, so a board whose
      required `title` is empty can no longer be saved by any handler. */
  predicate Saveable(b: Board)
  {
    b.title != "" && ContentsValid(b)
  }

  /** A new feedback item as `new Feedback({type, content, userId})` builds it. */
  function NewFeedback(id: string, category: string, content: string, userId: string, now: int): Feedback
  {
    Feedback(id, category, content, userId, now, NoVotes, [])
  }

  /** A new comment as `new Comment({text, userId})` builds it. */
  function NewComment(id: string, text: string, userId: string, now: int): Comment
  {
    Comment(id, text, userId, now, NoVotes)
  }

  // ---------------------------------------------------------------------
  // Calendar dates (the local date of `new Date()`), month counted from 1

  datatype CalendarDate = CalendarDate(day: int, month: int, year: int)

  predicate IsLeapYear(y: int)
  {
    y % 4 == 0 && (y % 100 != 0 || y % 400 == 0)
  }

  function DaysInMonth(y: int, m: int): (n: int)
    requires 1 <= m <= 12
    ensures 28 <= n <= 31
  {
    if m == 2 then (if IsLeapYear(y) then 29 else 28)
    else if m == 4 || m == 6 || m == 9 || m == 11 then 30
    else 31
  }

  predicate ValidDate(d: CalendarDate)
  {
    1 <= d.month <= 12 && 1 <= d.day <= DaysInMonth(d.year, d.month)
  }

  // ---------------------------------------------------------------------
  // Sanitisers

  /** `s.replace(/\s+/g, "-")`: every maximal run of whitespace becomes one hyphen. */
  function CollapseSpaces(s: string): (r: string)
    ensures forall k :: 0 <= k < |r| ==> !IsSpace(r[k])
    decreases |s|
  {
    if s == [] then []
    else if IsSpace(s[0]) then "-" + CollapseSpaces(TrimStart(s))
    else [s[0]] + CollapseSpaces(s[1..])
  }

  /** The characters `[a-zA-Z0-9-]`. */
  predicate IsIdChar(c: char)
  {
    'a' <= c <= 'z' || 'A' <= c <= 'Z' || '0' <= c <= '9' || c == '-'
  }

  /** `s.replace(/[^a-zA-Z0-9-]/g, "")`. */
  function RemoveNonIdChars(s: string): (r: string)
    ensures forall k :: 0 <= k < |r| ==> IsIdChar(r[k])
  {
    Filter(s, IsIdChar)
  }

  /** The board title with whitespace runs turned into hyphens (models.js:63). */
  function SanitizeTitle(title: string): (r: string)
    ensures forall k :: 0 <= k < |r| ==> !IsSpace(r[k])
  {
    CollapseSpaces(title)
  }

  /** The member name reduced to `[a-zA-Z0-9-]` (models.js:41-43). */
  function SanitizeName(name: string): (r: string)
    ensures forall k :: 0 <= k < |r| ==> IsIdChar(r[k]) && !IsSpace(r[k])
  {
    RemoveNonIdChars(CollapseSpaces(name))
  }

  // ---------------------------------------------------------------------
  // Identifiers

  /** `${day}-${month}-${year}` with day and month zero-padded to two digits. */
  function FormatDate(d: CalendarDate): string
    requires ValidDate(d) && d.year >= 0
  {
    Pad2(d.day) + "-" + Pad2(d.month) + "-" + NatToString(d.year)
  }

  /** `${sanitizedTitle}:${formattedDate}:${shortid}`. */
  function GeneratedBoardId(title: string, today: CalendarDate, suffix: string): string
    requires ValidDate(today) && today.year >= 0
  {
    SanitizeTitle(title) + ":" + FormatDate(today) + ":" + suffix
  }

  /** `${sanitizedUserName}-${shortid}`. */
  function GeneratedUserId(name: string, suffix: string): string
  {
    SanitizeName(name) + "-" + suffix
  }

  /** Pre-save hook of a team member: a `userId` is derived only when absent. */
  method PreSaveMember(m: Member, suffix: string) returns (r: Member)
    ensures r.name == m.name && r.userId != ""
    ensures m.userId != "" ==> r == m
    ensures m.userId == "" ==> r.userId == GeneratedUserId(m.name, suffix)
  {
    r := m;
    if r.userId == "" {
      var sanitizedUserName := SanitizeName(r.name);
      r := r.(userId := sanitizedUserName + "-" + suffix);
    }
  }

  /** Pre-save hook of a board: an `_id` is derived only when absent, from the
      title, today's date and a random suffix; nothing else is touched. */
  method PreSaveBoard(b: Board, today: CalendarDate, suffix: string) returns (r: Board)
    requires ValidDate(today) && today.year >= 0
    ensures r.id != "" && r == b.(id := r.id)
    ensures b.id != "" ==> r == b
    ensures b.id == "" ==> r.id == GeneratedBoardId(b.title, today, suffix)
  {
    r := b;
    if r.id == "" {
      var sanitizedTitle := SanitizeTitle(r.title);
      var formattedDate := Pad2(today.day) + "-" + Pad2(today.month) + "-" + NatToString(today.year);
      r := r.(id := sanitizedTitle + ":" + formattedDate + ":" + suffix);
    }
  }

  // ---------------------------------------------------------------------
  // Properties

  /** Text without whitespace is left alone by the whitespace replacement. */
  lemma {:induction false} CollapseSpacesWithoutSpaces(s: string)
    requires forall k :: 0 <= k < |s| ==> !IsSpace(s[k])
    ensures CollapseSpaces(s) == s
  {
    if s != [] {
      CollapseSpacesWithoutSpaces(s[1..]);
      assert [s[0]] + s[1..] == s;
    }
  }

  /** A leading space before a word becomes one hyphen. */
  lemma CollapseLeadingSpace(b: string)
    requires forall k :: 0 <= k < |b| ==> !IsSpace(b[k])
    ensures CollapseSpaces(" " + b) == "-" + b
  {
    var s := " " + b;
    assert s[1..] == b;
    assert TrimStart(b) == b;
    assert TrimStart(s) == b;
    CollapseSpacesWithoutSpaces(b);
  }

  /** One space between two words becomes one hyphen. */
  lemma {:induction false} CollapseSpacesBetweenWords(a: string, b: string)
    requires forall k :: 0 <= k < |a| ==> !IsSpace(a[k])
    requires forall k :: 0 <= k < |b| ==> !IsSpace(b[k])
    ensures CollapseSpaces(a + " " + b) == a + "-" + b
  {
    var s := a + " " + b;
    if a == [] {
      assert s == " " + b;
      CollapseLeadingSpace(b);
      assert a + "-" + b == "-" + b;
    } else {
      var t := a[1..] + " " + b;
      assert s == [a[0]] + t;
      CollapseSpacesBetweenWords(a[1..], b);
      assert CollapseSpaces(s) == [a[0]] + CollapseSpaces(t);
      assert a + "-" + b == [a[0]] + (a[1..] + "-" + b);
    }
  }

  /** The whitespace replacement introduces no character other than "-". */
  lemma {:induction false} CollapseSpacesIntroducesOnlyHyphens(s: string, c: char)
    requires c != '-' && c !in s
    ensures c !in CollapseSpaces(s)
    decreases |s|
  {
    if s != [] {
      if IsSpace(s[0]) {
        var t := TrimStart(s);
        assert c !in t by { TrimStartIsSuffix(s); }
        CollapseSpacesIntroducesOnlyHyphens(t, c);
      } else {
        CollapseSpacesIntroducesOnlyHyphens(s[1..], c);
      }
    }
  }

  /** Sanitising an already sanitised title changes nothing. */
  lemma SanitizeTitleIdempotent(title: string)
    ensures SanitizeTitle(SanitizeTitle(title)) == SanitizeTitle(title)
  {
    CollapseSpacesWithoutSpaces(SanitizeTitle(title));
  }

  /** Sanitising an already sanitised name changes nothing. */
  lemma SanitizeNameIdempotent(name: string)
    ensures SanitizeName(SanitizeName(name)) == SanitizeName(name)
  {
    var once := SanitizeName(name);
    CollapseSpacesWithoutSpaces(once);
    FilterKeepsAll(once, IsIdChar);
  }

  /** The name part of a generated member id is made of `[a-zA-Z0-9-]` and
      the id ends with "-" and the suffix. */
  lemma GeneratedUserIdShape(name: string, suffix: string)
    ensures var id := GeneratedUserId(name, suffix);
      var k := |SanitizeName(name)|;
      k < |id| && id[k] == '-' && id[k + 1..] == suffix &&
      forall j :: 0 <= j < k ==> IsIdChar(id[j])
  {
  }

  /** The date segment splits back on "-" into day, month and year, and is
      ten characters long for a four-digit year. */
  lemma FormatDateShape(d: CalendarDate)
    requires ValidDate(d) && d.year >= 0
    ensures Split(FormatDate(d), '-') == [Pad2(d.day), Pad2(d.month), NatToString(d.year)]
    ensures 1000 <= d.year <= 9999 ==> |FormatDate(d)| == 10
  {
    var dd, mm, yyyy := Pad2(d.day), Pad2(d.month), NatToString(d.year);
    assert FormatDate(d) == dd + ['-'] + (mm + ['-'] + yyyy);
    assert '-' !in dd by { assert AllDigits(dd); }
    assert '-' !in mm by { assert AllDigits(mm); }
    assert '-' !in yyyy by { assert AllDigits(yyyy); }
    SplitAtFirst(dd, '-', mm + ['-'] + yyyy);
    SplitAtFirst(mm, '-', yyyy);
    SplitWithoutSeparator(yyyy, '-');
    if 1000 <= d.year <= 9999 {
      NatToStringLength4(d.year);
    }
  }

  /** A generated board id splits on ":" into the sanitised title (no
      whitespace), the date segment and the rest, when the title has no ":". */
  lemma GeneratedBoardIdShape(title: string, today: CalendarDate, suffix: string)
    requires ValidDate(today) && today.year >= 0
    requires ':' !in title
    ensures var parts := Split(GeneratedBoardId(title, today, suffix), ':');
      |parts| >= 2 && parts[0] == SanitizeTitle(title) && parts[1] == FormatDate(today)
  {
    var st, fd := SanitizeTitle(title), FormatDate(today);
    CollapseSpacesIntroducesOnlyHyphens(title, ':');
    assert ':' !in fd by { assert AllDigits(Pad2(today.day)) && AllDigits(Pad2(today.month)) && AllDigits(NatToString(today.year)); }
    assert GeneratedBoardId(title, today, suffix) == st + [':'] + (fd + [':'] + suffix);
    SplitAtFirst(st, ':', fd + [':'] + suffix);
    SplitAtFirst(fd, ':', suffix);
  }
}
