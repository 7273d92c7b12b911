/** The landing page (frontend Home.js): board creation with the list of the
    four most recently created board ids, board deletion, and the filter of
    the ids created today, which reads the date back out of the id. The page
    state is replaced wholesale by each handler, so the model is a pure
    transition on `HomeState`; the server's reply and the clock are
    parameters. */
module Home {
  import opened Prelude
  import opened Text
  import opened Models
  import opened Toasts

  datatype HomeState = HomeState(boardTitle: string, isAnonymous: bool, boardIds: seq<string>, toast: Toast)

  /** The body of `POST /boards`: the title as typed, untrimmed. */
  datatype CreateBoardRequest = CreateBoardRequest(title: string, isAnonymous: bool)

  /** How the create request ended: a 2xx reply with the new id, a non-2xx
      reply, or a failure of the request or of reading its JSON body. */
  datatype CreateOutcome = Created(boardId: string) | Rejected | CreateFailed

  /** How the delete request ended. */
  datatype DeleteOutcome = Deleted | DeleteRejected | DeleteFailed

  const MaxRecentBoards: nat := 4

  /** A blank title sends nothing. */
  function CreateRequest(s: HomeState): (r: Option<CreateBoardRequest>)
    ensures r.None? <==> Trim(s.boardTitle) == []
    ensures r.Some? ==> r.value == CreateBoardRequest(s.boardTitle, s.isAnonymous)
  {
    if Trim(s.boardTitle) == [] then None else Some(CreateBoardRequest(s.boardTitle, s.isAnonymous))
  }

  /** `handleCreateBoard`: the new id goes to the head of the list, which is
      cut to four, and the title field is cleared. A blank title changes
      nothing and `outcome` is then irrelevant. */
  function CreateBoard(s: HomeState, outcome: CreateOutcome): (r: HomeState)
    ensures r.isAnonymous == s.isAnonymous
    ensures r.boardTitle == s.boardTitle || r.boardTitle == ""
    ensures r.boardIds == s.boardIds ||
      (outcome.Created? && |r.boardIds| >= 1 && r.boardIds[0] == outcome.boardId && |r.boardIds| <= MaxRecentBoards)
  {
    if CreateRequest(s).None? then s
    else match outcome
      case Created(id) =>
        s.(boardIds := Take([id] + s.boardIds, MaxRecentBoards),
           toast := Shown("Board created successfully!", Success),
           boardTitle := "")
      case Rejected => s
      case CreateFailed => s.(toast := Shown("Failed to create board.", Failure))
  }

  /** `handleDeleteBoard`: on success every occurrence of the id leaves the list. */
  function DeleteBoard(s: HomeState, id: string, outcome: DeleteOutcome): (r: HomeState)
    ensures r.boardTitle == s.boardTitle && r.isAnonymous == s.isAnonymous && r.toast.Shown?
    ensures outcome.Deleted? ==> id !in r.boardIds && |r.boardIds| <= |s.boardIds|
    ensures !outcome.Deleted? ==> r.boardIds == s.boardIds && r.toast.kind == Failure
  {
    match outcome
    case Deleted =>
      s.(boardIds := Filter(s.boardIds, (b: string) => b != id),
         toast := Shown("Board deleted successfully!", Success))
    case DeleteRejected => s.(toast := Shown("Failed to delete board.", Failure))
    case DeleteFailed => s.(toast := Shown("Network error, failed to delete board.", Failure))
  }

  // ---------------------------------------------------------------------
  // `new Date(year, monthIndex, day)`: out-of-range months and days roll over

  /** Years 0 to 99 are taken as 1900 to 1999. */
  function FullYear(y: int): (r: int)
    ensures 0 <= y <= 99 ==> r == 1900 + y
    ensures !(0 <= y <= 99) ==> r == y
  {
    if 0 <= y <= 99 then 1900 + y else y
  }

  function NextMonth(y: int, m: int): (r: (int, int))
    requires 1 <= m <= 12
    ensures 1 <= r.1 <= 12
  {
    if m == 12 then (y + 1, 1) else (y, m + 1)
  }

  function PreviousMonth(y: int, m: int): (r: (int, int))
    requires 1 <= m <= 12
    ensures 1 <= r.1 <= 12
  {
    if m == 1 then (y - 1, 12) else (y, m - 1)
  }

  /** A day past the end of the month counts on into the following months. */
  function RollForward(y: int, m: int, d: int): (r: CalendarDate)
    requires 1 <= m <= 12 && 1 <= d
    ensures ValidDate(r)
    decreases d
  {
    if d <= DaysInMonth(y, m) then CalendarDate(d, m, y)
    else var (y', m') := NextMonth(y, m); RollForward(y', m', d - DaysInMonth(y, m))
  }

  /** A day before the first counts back into the preceding months. */
  function RollBack(y: int, m: int, d: int): (r: CalendarDate)
    requires 1 <= m <= 12 && d <= DaysInMonth(y, m)
    ensures ValidDate(r)
    decreases if d < 1 then 1 - d else 0
  {
    if 1 <= d then CalendarDate(d, m, y)
    else var (y', m') := PreviousMonth(y, m); RollBack(y', m', d + DaysInMonth(y', m'))
  }

  /** The calendar date `new Date(y, monthIndex, day)` denotes (month counted
      from 0, as in JavaScript). */
  function MakeDate(y: int, monthIndex: int, day: int): (r: CalendarDate)
    ensures ValidDate(r)
  {
    var year := FullYear(y) + monthIndex / 12;
    var month := monthIndex % 12 + 1;
    if day < 1 then RollBack(year, month, day) else RollForward(year, month, day)
  }

  /** A valid date with a year past 99 is its own normal form. */
  lemma MakeDateOfValid(d: CalendarDate)
    requires ValidDate(d) && !(0 <= d.year <= 99)
    ensures MakeDate(d.year, d.month - 1, d.day) == d
  {
  }

  // ---------------------------------------------------------------------
  // Day numbers: an independent count of days, against which the
  // normalisation above is checked

  /** Days from 1 January 1970 to 1 January of year `y`: DayFromYear of
      ECMAScript's Date object (ECMA-262), with floor division. */
  function DayFromYear(y: int): int
  {
    365 * (y - 1970) + (y - 1969) / 4 - (y - 1901) / 100 + (y - 1601) / 400
  }

  /** Days in the months of year `y` before month `m`. */
  function DaysBeforeMonth(y: int, m: int): int
    requires 1 <= m <= 12
  {
    if m == 1 then 0 else DaysBeforeMonth(y, m - 1) + DaysInMonth(y, m - 1)
  }

  /** The day number of a date: its distance in days from 1 January 1970. */
  function DayNumber(d: CalendarDate): int
    requires 1 <= d.month <= 12
  {
    DayFromYear(d.year) + DaysBeforeMonth(d.year, d.month) + d.day - 1
  }

  /** Floor division by `n` goes up by one exactly where `n` divides. */
  lemma FloorStep(x: int, n: int)
    requires n == 4 || n == 100 || n == 400
    ensures (x + 1) / n == x / n + (if (x + 1) % n == 0 then 1 else 0)
  {
    var q, r := x / n, x % n;
    assert x == n * q + r && 0 <= r < n;
    if r == n - 1 {
      assert x + 1 == n * (q + 1);
    } else {
      assert x + 1 == n * q + (r + 1);
    }
  }

  /** A year has 366 days when it is a leap year and 365 otherwise. */
  lemma YearLength(y: int)
    ensures DayFromYear(y + 1) - DayFromYear(y) == if IsLeapYear(y) then 366 else 365
  {
    FloorStep(y - 1969, 4);
    FloorStep(y - 1901, 100);
    FloorStep(y - 1601, 400);
    assert (y - 1968) % 4 == y % 4 by { assert y - 1968 == y + 4 * (-492); }
    assert (y - 1900) % 100 == y % 100 by { assert y - 1900 == y + 100 * (-19); }
    assert (y - 1600) % 400 == y % 400 by { assert y - 1600 == y + 400 * (-4); }
  }

  /** The months of a year add up to its length. */
  lemma MonthsFillYear(y: int)
    ensures DaysBeforeMonth(y, 12) + DaysInMonth(y, 12) == DayFromYear(y + 1) - DayFromYear(y)
  {
    var feb := DaysInMonth(y, 2);
    assert DaysBeforeMonth(y, 2) == 31;
    assert DaysBeforeMonth(y, 4) == 62 + feb by { assert DaysBeforeMonth(y, 3) == 31 + feb; }
    assert DaysBeforeMonth(y, 6) == 123 + feb by { assert DaysBeforeMonth(y, 5) == 92 + feb; }
    assert DaysBeforeMonth(y, 8) == 184 + feb by { assert DaysBeforeMonth(y, 7) == 153 + feb; }
    assert DaysBeforeMonth(y, 10) == 245 + feb by { assert DaysBeforeMonth(y, 9) == 215 + feb; }
    assert DaysBeforeMonth(y, 12) == 306 + feb by { assert DaysBeforeMonth(y, 11) == 276 + feb; }
    YearLength(y);
  }

  /** The first of the next month comes one month length after the first
      of this one. */
  lemma NextMonthStart(y: int, m: int)
    requires 1 <= m <= 12
    ensures var (y', m') := NextMonth(y, m);
      DayNumber(CalendarDate(1, m', y')) == DayNumber(CalendarDate(1, m, y)) + DaysInMonth(y, m)
  {
    if m == 12 {
      MonthsFillYear(y);
    }
  }

  /** Rolling forward lands `d - 1` days after the first of the month. */
  lemma {:induction false} RollForwardDayNumber(y: int, m: int, d: int)
    requires 1 <= m <= 12 && 1 <= d
    ensures DayNumber(RollForward(y, m, d)) == DayNumber(CalendarDate(1, m, y)) + d - 1
    decreases d
  {
    if d > DaysInMonth(y, m) {
      var (y', m') := NextMonth(y, m);
      RollForwardDayNumber(y', m', d - DaysInMonth(y, m));
      NextMonthStart(y, m);
    }
  }

  /** Rolling back lands `1 - d` days before the first of the month. */
  lemma {:induction false} RollBackDayNumber(y: int, m: int, d: int)
    requires 1 <= m <= 12 && d <= DaysInMonth(y, m)
    ensures DayNumber(RollBack(y, m, d)) == DayNumber(CalendarDate(1, m, y)) + d - 1
    decreases if d < 1 then 1 - d else 0
  {
    if d < 1 {
      var (y', m') := PreviousMonth(y, m);
      RollBackDayNumber(y', m', d + DaysInMonth(y', m'));
      NextMonthStart(y', m');
    }
  }

  /** `new Date(y, monthIndex, day)` is the date `day - 1` days after the
      first of month `monthIndex % 12` of year `FullYear(y) + monthIndex / 12`,
      for every day, including 0, negative days and days past the month's end. */
  lemma MakeDateDayNumber(y: int, monthIndex: int, day: int)
    ensures DayNumber(MakeDate(y, monthIndex, day))
      == DayNumber(CalendarDate(1, monthIndex % 12 + 1, FullYear(y) + monthIndex / 12)) + day - 1
  {
    var year := FullYear(y) + monthIndex / 12;
    var month := monthIndex % 12 + 1;
    if day < 1 {
      RollBackDayNumber(year, month, day);
    } else {
      RollForwardDayNumber(year, month, day);
    }
  }

  /** Later years start later: a year ends no later than any later year begins. */
  lemma {:induction false} YearsInOrder(y1: int, y2: int)
    requires y1 < y2
    ensures DayFromYear(y1 + 1) <= DayFromYear(y2)
    decreases y2 - y1
  {
    if y1 + 1 < y2 {
      YearsInOrder(y1 + 1, y2);
      YearLength(y1 + 1);
    }
  }

  /** Within a year, a month ends no later than any later month begins. */
  lemma {:induction false} MonthsInOrder(y: int, m1: int, m2: int)
    requires 1 <= m1 < m2 <= 12
    ensures DaysBeforeMonth(y, m1) + DaysInMonth(y, m1) <= DaysBeforeMonth(y, m2)
    decreases m2 - m1
  {
    if m1 + 1 < m2 {
      MonthsInOrder(y, m1 + 1, m2);
    }
  }

  /** A valid date's day number lies within its month and its year. */
  lemma DayNumberBounds(d: CalendarDate)
    requires ValidDate(d)
    ensures DayNumber(CalendarDate(1, d.month, d.year)) <= DayNumber(d)
    ensures DayNumber(d) < DayNumber(CalendarDate(1, d.month, d.year)) + DaysInMonth(d.year, d.month)
    ensures DayFromYear(d.year) <= DayNumber(d) < DayFromYear(d.year + 1)
  {
    assert DaysBeforeMonth(d.year, d.month) >= 0 by {
      if d.month > 1 {
        MonthsInOrder(d.year, 1, d.month);
      }
    }
    if d.month < 12 {
      MonthsInOrder(d.year, d.month, 12);
    }
    MonthsFillYear(d.year);
  }

  /** Distinct valid dates have distinct day numbers, so the day number of
      `MakeDate` determines the date. */
  lemma DayNumberInjective(a: CalendarDate, b: CalendarDate)
    requires ValidDate(a) && ValidDate(b)
    ensures DayNumber(a) == DayNumber(b) <==> a == b
  {
    DayNumberBounds(a);
    DayNumberBounds(b);
    if a.year < b.year {
      YearsInOrder(a.year, b.year);
    } else if b.year < a.year {
      YearsInOrder(b.year, a.year);
    } else if a.month < b.month {
      MonthsInOrder(a.year, a.month, b.month);
    } else if b.month < a.month {
      MonthsInOrder(a.year, b.month, a.month);
    }
  }

  // ---------------------------------------------------------------------
  // `isToday` and `todayBoardIds`

  /** The second ":"-separated field of an id; `None` when the id has no
      ":" and the field is `undefined`. */
  function DateSegment(id: string): (r: Option<string>)
    ensures r.None? <==> ':' !in id
  {
    var parts := Split(id, ':');
    if |parts| < 2 then None else Some(parts[1])
  }

  /** Day, month and year read with `parseInt` from the "-"-separated
      fields; `None` when one is missing or not a number. */
  function ReadDate(segment: string): (r: Option<(int, int, int)>)
  {
    var fields := Split(segment, '-');
    var day := ParseInt(fields[0]);
    var month := if |fields| > 1 then ParseInt(fields[1]) else None;
    var year := if |fields| > 2 then ParseInt(fields[2]) else None;
    if day.None? || month.None? || year.None? then None
    else Some((day.value, month.value, year.value))
  }

  /** `isToday(id)`: the date the id's date field makes is compared with
      today's. `None` is the `TypeError` of an id without ":"; a missing or
      unreadable number makes an invalid date, which is never today. */
  function IsToday(id: string, today: CalendarDate): (r: Option<bool>)
    ensures r.None? <==> ':' !in id
  {
    match DateSegment(id)
    case None => None
    case Some(segment) =>
      match ReadDate(segment)
      case None => Some(false)
      case Some((day, month, year)) => Some(MakeDate(year, month - 1, day) == today)
  }

  /** `boardIds.filter(isToday)`; `None` when some id makes `isToday` throw. */
  function TodayBoardIds(ids: seq<string>, today: CalendarDate): (r: Option<seq<string>>)
    ensures r.None? <==> exists k :: 0 <= k < |ids| && ':' !in ids[k]
    ensures r.Some? ==> forall k :: 0 <= k < |r.value| ==> IsToday(r.value[k], today) == Some(true)
  {
    FilterOrThrow(ids, (id: string) => IsToday(id, today))
  }

  // ---------------------------------------------------------------------
  // Properties

  /** An empty or all-whitespace title sends no request and changes nothing. */
  lemma BlankTitleDoesNothing(s: HomeState, outcome: CreateOutcome)
    requires forall k :: 0 <= k < |s.boardTitle| ==> IsSpace(s.boardTitle[k])
    ensures CreateRequest(s).None? && CreateBoard(s, outcome) == s
  {
    TrimEmptyIffBlank(s.boardTitle);
  }

  /** A title with a visible character is sent as typed. */
  lemma TitleWithTextIsSent(s: HomeState)
    requires exists k :: 0 <= k < |s.boardTitle| && !IsSpace(s.boardTitle[k])
    ensures CreateRequest(s) == Some(CreateBoardRequest(s.boardTitle, s.isAnonymous))
  {
    TrimEmptyIffBlank(s.boardTitle);
  }

  /** After a successful create the new id heads a list of at most four, and
      the rest is a prefix of the previous list, which loses its last
      element only when it already held four. */
  lemma CreatedIdHeadsList(s: HomeState, id: string)
    requires CreateRequest(s).Some?
    ensures var r := CreateBoard(s, Created(id));
      |r.boardIds| >= 1 && r.boardIds[0] == id && |r.boardIds| <= MaxRecentBoards &&
      r.boardIds[1..] <= s.boardIds &&
      |r.boardIds| == (if |s.boardIds| < MaxRecentBoards then |s.boardIds| + 1 else MaxRecentBoards) &&
      r.boardTitle == ""
  {
    var r := CreateBoard(s, Created(id));
    var full := [id] + s.boardIds;
    assert r.boardIds == Take(full, MaxRecentBoards);
    assert full[1..] == s.boardIds;
  }

  /** A failed create leaves the list and the title as they were. */
  lemma FailedCreateKeepsList(s: HomeState, outcome: CreateOutcome)
    requires !outcome.Created?
    ensures CreateBoard(s, outcome).boardIds == s.boardIds
    ensures CreateBoard(s, outcome).boardTitle == s.boardTitle
  {
  }

  /** A successful delete removes every occurrence of the id and keeps every
      other id, as often as before and in the same order. */
  lemma DeleteRemovesExactly(s: HomeState, id: string)
    ensures var r := DeleteBoard(s, id, Deleted).boardIds;
      id !in r && IsSubsequence(r, s.boardIds) &&
      forall other :: other != id ==> Count(r, other) == Count(s.boardIds, other)
  {
    var keep := (b: string) => b != id;
    FilterIsSubsequence(s.boardIds, keep);
    FilterCount(s.boardIds, keep, id);
    CountZeroIffAbsent(Filter(s.boardIds, keep), id);
    forall other | other != id
      ensures Count(Filter(s.boardIds, keep), other) == Count(s.boardIds, other)
    {
      FilterCount(s.boardIds, keep, other);
    }
  }

  /** A failed delete leaves the list as it was. */
  lemma FailedDeleteKeepsList(s: HomeState, id: string, outcome: DeleteOutcome)
    requires outcome != Deleted
    ensures DeleteBoard(s, id, outcome).boardIds == s.boardIds
  {
  }

  /** The date field of a generated id is the formatted date, when the
      title has no ":". */
  lemma DateSegmentOfGeneratedId(title: string, created: CalendarDate, suffix: string)
    requires ValidDate(created) && created.year >= 0
    requires ':' !in title
    ensures DateSegment(GeneratedBoardId(title, created, suffix)) == Some(FormatDate(created))
  {
    GeneratedBoardIdShape(title, created, suffix);
  }

  /** The formatted date reads back as the day, month and year it encodes. */
  lemma ReadFormattedDate(d: CalendarDate)
    requires ValidDate(d) && d.year >= 0
    ensures ReadDate(FormatDate(d)) == Some((d.day, d.month, d.year))
  {
    FormatDateShape(d);
    ReadPaddedFields(FormatDate(d), d.day, d.month, d.year);
  }

  /** Fields written as padded day, padded month and year read back as
      those numbers. */
  lemma ReadPaddedFields(segment: string, day: nat, month: nat, year: nat)
    requires Split(segment, '-') == [Pad2(day), Pad2(month), NatToString(year)]
    ensures ReadDate(segment) == Some((day, month, year))
  {
    ParsePad2(day);
    ParsePad2(month);
    ParseNatToString(year);
  }

  /** For an id built by the board pre-save hook from a title without ":",
      `isToday` holds exactly when the date it was built on is today. */
  lemma IsTodayOfGeneratedId(title: string, created: CalendarDate, suffix: string, today: CalendarDate)
    requires ValidDate(created) && created.year >= 100
    requires ':' !in title
    ensures IsToday(GeneratedBoardId(title, created, suffix), today) == Some(created == today)
  {
    DateSegmentOfGeneratedId(title, created, suffix);
    ReadFormattedDate(created);
    MakeDateOfValid(created);
  }

  /** The ids shown as today's are an order-preserving sub-list of the
      recent ids. */
  lemma TodayBoardIdsSubsequence(ids: seq<string>, today: CalendarDate)
    requires TodayBoardIds(ids, today).Some?
    ensures IsSubsequence(TodayBoardIds(ids, today).value, ids)
  {
    FilterOrThrowIsSubsequence(ids, (id: string) => IsToday(id, today));
  }

  /** An id that is today's and sits in the list is shown. */
  lemma TodayBoardIdsComplete(ids: seq<string>, today: CalendarDate, k: nat)
    requires TodayBoardIds(ids, today).Some?
    requires k < |ids| && IsToday(ids[k], today) == Some(true)
    ensures ids[k] in TodayBoardIds(ids, today).value
  {
    FilterOrThrowKeeps(ids, (id: string) => IsToday(id, today), k);
  }
}
