# RetroSphere board aggregate, typing presence and page logic in Dafny

RetroSphere is a retrospective board. A team creates a board, members join it by name, and they post
feedback in five categories ("Good", "Bad", "Ideas", "Actions", "Kudos"). They comment on feedback and
like or dislike both feedback and comments. The server pushes every change to all connected pages
over a socket.

This project models the core of that system:

- **Server.**
  - The `boards` collection holds one Board aggregate per board: members, then feedback, then
    comments. Every REST route handler is a read-modify-write of one aggregate. Each one returns its
    response and the events it broadcasts.
  - The pre-save hooks derive the board `_id` and each member's `userId`.
  - The reaction guard counts each participant's like or dislike at most once.
  - The in-memory typing-presence table: a connection's own entries are removed when it closes.
- **Landing page** (`Home.js`).
  - It keeps a list of the four most recently created board ids and deletes ids from it.
  - Its `isToday` filter reads the creation date back out of a board id, with the day and month
    roll-over of JavaScript's `new Date(y, m, d)`.
- **Board page** (`RetroBoard.js`).
  - Entering a board id, and joining the board under a name.
  - The one-day stored session.
  - The socket listeners that replace the displayed board and flip typing indicators.
  - The list of recently joined board ids.

Module by module:

| module | file | what it holds |
|---|---|---|
| `Prelude` | prelude.dfy | `Option`, first-match search, filter, counting, sub-sequences |
| `Text` | text.dfy | the JavaScript string built-ins the source uses: `trim`, `split`, `parseInt`, `String(n)`, `padStart(2, "0")` |
| `Models` | models.dfy | the documents, the sanitisers, id derivation, the two pre-save hooks |
| `Reactions` | reactions.dfy | the like/dislike guard |
| `Aggregate` | aggregate.dfy | lookup by id, the deletion filters, the join upsert, the feedback listing |
| `Messages` | messages.dfy | topics, payloads, responses, the single-board read |
| `Store` | store.dfy | `class BoardStore`, one method per route handler |
| `Presence` | presence.dfy | `class PresenceTable`, the typing map |
| `Toasts` | toast.dfy | the notification banner |
| `Home` | home.dfy | the landing page as pure transitions |
| `RetroBoard` | retroboard.dfy | `class RetroBoardPage`, one field per state cell |
| `Scenarios` | scenarios.dfy | concrete end-to-end runs |

Conventions of the model:

- A missing string field is the empty string, except where a modelled comparison can tell `undefined`
  from `""`. The board page's board id, the id its listeners capture, the id in its stored session and
  the `_id` it reads from a join reply are `Option<string>`, with `None` for `undefined`. The page's
  `===` comparisons are then comparisons of options.
- A save that Mongoose validation refuses lands in the handler's `catch` and answers 500, modelled as
  `ServerError`, and stores nothing. Validation covers every path of the loaded board, not only the
  changed ones (`Models.Saveable`): an empty title, an empty member name or a category outside the five
  fails it. A duplicate `_id` on creation also answers 500.
- A handler that dereferences a board or feedback item without checking it answers `ServerError` when
  it is missing. A handler that checks answers `NotFound`.
- The random `shortid` suffix, the clock and today's date are parameters. The replies a page receives
  are parameters too.
- Local storage is a field of the page.

Behaviours of the code worth noting:

- A second join under the same name overwrites the member with `{ name }`. The pre-save hook then
  generates a **new** `userId`; the stored one is not preserved. `Aggregate.RejoinedParticipantCountsTwice`
  shows what follows: the same person's second like is counted.
- Editing, liking or disliking a comment whose feedback item was deleted answers 500, not 404. The
  handler reads `comments` of a missing item. `Scenarios.EditCommentOfDeletedFeedback` shows this.
- `PUT /boards/:boardId` broadcasts `boardUpdated` with the bare board. Board pages compare the
  payload's `boardId`, which a board document lacks, so no page watching a board acts on it
  (`RetroBoard.BoardEditAnnouncementIgnored`).
- A join refused with a 500 is answered with the serialised error, which is JSON. The page reads it as
  a successful join: it becomes active with an undefined board id, and stores a session without `_id`.
  Its listeners then match every payload that lacks the compared property. Any board's deletion marker
  becomes the displayed board, and a board edit announcement clears the view
  (`RetroBoard.DeletionMarkerLeavesView`, `RetroBoard.BoardEditAnnouncementIgnored`,
  `Scenarios.JoinRefusedFollowsEveryBoard`). The recent-ids list then gains a `null`, and repeated
  refusals add repeated `null`s (`RetroBoard.UndefinedIdsRepeat`).
- `PUT /boards/:boardId` goes through `findByIdAndUpdate`, which skips validation. An empty title is
  stored there, although creating a board with one fails.
- The board page keeps its recent ids under `retroBoardIds`. The landing page reads `boards`. The two
  lists are separate.
- The board page's join handler never sets the `userId` state cell. The id reaches the page only
  through the stored session, on the next run of the session effect.
- Once `PUT /boards/:boardId` has emptied a board's title, every later save of that board fails
  validation. Joins, feedback and comment changes on it then answer 500. Each store method states
  exactly when it succeeds; on a valid store the emptied title is the only cause besides an empty name
  or a category outside the five.
- A like or dislike by a participant who already reacted does not save the board. It answers 200 and
  broadcasts the board even when the board could not be saved.

## Model

| member | source | states |
|---|---|---|
| Models.RemoveNonIdChars | backend/models.js:43 | every character left is in `[a-zA-Z0-9-]` |
| Models.SanitizeTitle | backend/models.js:63 | the sanitised title contains no whitespace |
| Models.SanitizeName | backend/models.js:41-43 | the sanitised name contains only `[a-zA-Z0-9-]` and no whitespace |
| Models.PreSaveMember | backend/models.js:39-47 | the name is kept and the member always ends with a `userId`; an existing one is never changed; an absent one becomes sanitised name + "-" + suffix |
| Models.PreSaveBoard | backend/models.js:61-72 | only `_id` can change and it ends non-empty; an existing `_id` is kept; an absent one becomes sanitised title + ":" + dd-mm-yyyy + ":" + suffix |
| Models.CollapseSpacesWithoutSpaces | backend/models.js:63 | text without whitespace is left unchanged by the whitespace replacement |
| Models.CollapseSpacesBetweenWords | backend/models.js:63 | one space between two words becomes one hyphen |
| Models.CollapseSpacesIntroducesOnlyHyphens | backend/models.js:63 | the replacement adds no character except "-", so a title without ":" gives a sanitised title without ":" |
| Models.SanitizeTitleIdempotent | backend/models.js:63 | sanitising a sanitised title returns it unchanged |
| Models.SanitizeNameIdempotent | backend/models.js:41-43 | sanitising a sanitised name returns it unchanged |
| Models.GeneratedUserIdShape | backend/models.js:41-44 | a generated member id is the sanitised name, then "-", then the suffix, and its name part is all `[a-zA-Z0-9-]` |
| Models.FormatDateShape | backend/models.js:65-68 | the date segment splits on "-" into the padded day, the padded month and the year, and is 10 characters long for a four-digit year |
| Models.GeneratedBoardIdShape | backend/models.js:63-69 | a board id built from a title without ":" splits on ":" into the sanitised title and the date segment, then the rest |
| Text.NatToString | backend/models.js:67-68 | `String(n)` is a non-empty digit string with no leading zero, of one or two characters below 10 or 100 |
| Text.Pad2 | backend/models.js:65-66 | `padStart(2, "0")` gives at least two digits, exactly two below 100 |
| Text.NatToStringValue | backend/models.js:67 | the printed year reads back as the year |
| Text.Pad2Value | backend/models.js:65-66 | a padded day or month reads back as its number |
| Text.NatToStringLength4 | backend/models.js:67-68 | a four-digit year prints as four characters |
| Text.TrimEmptyIffBlank | frontend/src/components/Home/Home.js:37 | `trim()` empties a string exactly when every character is whitespace |
| Text.TrimStartIsSuffix | frontend/src/components/Home/Home.js:37 | removing leading whitespace leaves a suffix of the input |
| Text.Split | frontend/src/components/Home/Home.js:80-82 | `split` returns at least one piece, and exactly one when the separator does not occur |
| Text.SplitAtFirst | frontend/src/components/Home/Home.js:80-82 | the text before the first separator is the first piece and the rest splits on its own |
| Text.ParseInt | frontend/src/components/Home/Home.js:82 | `parseInt` is NaN exactly when no digit follows the leading whitespace and an optional sign |
| Text.ParseIntOfDigits | frontend/src/components/Home/Home.js:82 | `parseInt` of a non-empty digit string is the number the digits denote |
| Text.ParsePad2 | frontend/src/components/Home/Home.js:82 | `parseInt` of a zero-padded day or month is that number |
| Text.ParseNatToString | frontend/src/components/Home/Home.js:82 | `parseInt(String(n))` is `n` |
| Reactions.React | backend/server.js:274-278 | after a reaction the participant is in the polarity's list; the counter goes up by one exactly when they were not; the list only grows, by at most one; the other polarity is untouched |
| Reactions.ReactIdempotent | backend/server.js:274-278 | reacting again with the same polarity changes nothing |
| Reactions.ReactTwiceCountsOnce | backend/server.js:274-278 | two reactions of one participant with one polarity raise the counter by at most one |
| Reactions.LikeAndDislikeIndependent | backend/server.js:295-299 | a participant who has reacted with neither polarity can like and dislike; each counter goes up by one, in either order |
| Reactions.ReactKeepsTallied | backend/server.js:391-395 | the guard keeps each counter equal to the length of its duplicate-free reactor list |
| Reactions.ReactAllFromDefaults | backend/server.js:416-420 | from the schema defaults, after any sequence of reactions the counters are tallied and a participant is listed exactly when they reacted with that polarity |
| Reactions.ReactAllMonotone | backend/server.js:266-305 | counters never decrease along a sequence of reactions |
| Aggregate.FeedbackIndex | backend/server.js:252 | the found item has the requested id; nothing is found exactly when no item has it |
| Aggregate.CommentIndex | backend/server.js:365 | the found comment has the requested id; nothing is found exactly when no comment has it |
| Aggregate.RemoveFeedbackExactly | backend/server.js:322-324 | deleting feedback drops every item with the id, with its comments, and keeps every other item as often as before and in order |
| Aggregate.RemoveCommentExactly | backend/server.js:450-452 | deleting a comment drops every comment with the id and keeps every other one as often as before and in order |
| Aggregate.Upsert | backend/server.js:123-133 | a new name is appended (length + 1); an existing name's first slot is overwritten with `{ name }` (length unchanged); no other slot changes; the name is then found at the slot written |
| Aggregate.JoinNameCount | backend/server.js:123-135 | a join never creates a second member with the joining name, and leaves the count of every other name unchanged |
| Aggregate.JoinKeepsUniqueNames | backend/server.js:123-135 | a join keeps member names unique, and the joining name then occurs exactly once |
| Aggregate.RemoveFeedbackKeepsContents | backend/server.js:322-325 | deleting feedback keeps the board's members and categories valid |
| Aggregate.RejoinSameSlot | backend/server.js:132 | a second join with the same name writes the same slot and discards the `userId` it held |
| Aggregate.RejoinChangesUserId | backend/models.js:40-44 | ids generated with different suffixes differ, so a re-joined member gets a new `userId` |
| Aggregate.RejoinedParticipantCountsTwice | backend/server.js:274-278 | under its two ids, a re-joined participant's two likes both count |
| Aggregate.FeedbackViews | backend/server.js:208-240 | the listing has one entry per feedback item, in order, with its id, category, content, author, creation time and counters, annotated with the board's title and anonymity flag; each comment entry carries the comment's id, text, author, creation time and counters |
| Messages.SummaryOf | backend/server.js:98-107 | the single-board read reports the id, title, anonymity and every member in order, with a missing `userId` as null |
| Messages.RegisteredSummaryHasIds | backend/server.js:98-101 | when every member was saved, the read never reports a null member id |
| Store.BoardStore.constructor | backend/server.js:66-79 | the collection starts empty and consistent: every board under its own id, members registered with unique names, contents valid |
| Store.BoardStore.CreateBoard | backend/server.js:66-79 | an empty title fails validation and an `_id` already stored is a duplicate key: both answer 500 and change nothing; otherwise the board is stored under its derived id with no members or feedback, the id is answered and the board is broadcast |
| Store.BoardStore.ListBoards | backend/server.js:82-89 | the reply holds exactly the stored boards |
| Store.BoardStore.GetBoard | backend/server.js:92-111 | a missing board is 404; otherwise the reply is the board's summary |
| Store.BoardStore.JoinBoard | backend/server.js:114-150 | a missing board is 404; otherwise the member list becomes the join's upsert with a freshly generated `userId`; a board that then fails validation is 500 and changes nothing; otherwise the board is stored, the new id is answered and `{ boardId, boardDetails }` is broadcast; on a valid store the join succeeds exactly when the name and the stored title are non-empty, and the name then occurs exactly once |
| Store.BoardStore.UpdateBoard | backend/server.js:153-166 | a missing board is 404; otherwise only the given title and anonymity change, with no validation, and the bare board is answered and broadcast |
| Store.BoardStore.DeleteBoard | backend/server.js:169-180 | a missing board is 404; otherwise exactly that board leaves the collection and its id is broadcast |
| Store.BoardStore.AddFeedback | backend/server.js:183-206 | a category outside the five is 400 before the board is read; a missing board is 404; otherwise exactly one item is appended with zero counters and no comments, earlier items unchanged, unless the board fails validation (500, nothing changes), which on a valid store happens exactly when its title was emptied |
| Store.BoardStore.ListFeedback | backend/server.js:209-246 | a missing board is 404; otherwise the reply is the feedback listing |
| Store.BoardStore.UpdateFeedback | backend/server.js:249-263 | a missing board is 500; a missing item is 404; otherwise only that item's category and content change, unless the board then fails validation (500, nothing changes); on a valid store the edit succeeds exactly when the title is non-empty and the resulting category is one of the five |
| Store.BoardStore.ReactToFeedback | backend/server.js:266-305 | a missing board is 500; a missing item is 404; a participant already in the list changes nothing and the board is answered and broadcast without a save; otherwise only that item's votes change, by the reaction guard, and the board is saved, answered and broadcast, or answers 500 and changes nothing when it fails validation |
| Store.BoardStore.DeleteFeedback | backend/server.js:308-334 | a missing board or item is 404 and changes nothing; otherwise the items with that id are filtered out and a marker without `_id` is broadcast, unless the board fails validation (500, nothing changes), which on a valid store happens exactly when its title was emptied |
| Store.BoardStore.AddComment | backend/server.js:337-356 | a missing board is 500; a missing item is 404; otherwise exactly one comment with zero counters is appended to that item only, unless the board fails validation (500, nothing changes), which on a valid store happens exactly when its title was emptied |
| Store.BoardStore.UpdateComment | backend/server.js:359-377 | a missing board or item is 500; a missing comment is 404; otherwise only that comment's text changes, unless the board fails validation (500, nothing changes), which on a valid store happens exactly when its title was emptied |
| Store.BoardStore.ReactToComment | backend/server.js:380-427 | a missing board or item is 500; a missing comment is 404; a participant already in the list changes nothing and gets the board without a save; otherwise only that comment's votes change, by the reaction guard, or the save fails validation (500, nothing changes), which on a valid store happens exactly when its title was emptied |
| Store.BoardStore.DeleteComment | backend/server.js:430-465 | a missing board, item or comment is 404 in that order and changes nothing; otherwise only the target item's comments are filtered and a marker is broadcast, unless the board fails validation (500, nothing changes), which on a valid store happens exactly when its title was emptied |
| Presence.Released | backend/server.js:56-61 | no surviving entry points at the closed connection, and every entry of another connection survives unchanged |
| Presence.HeldBy | backend/server.js:57 | the participants removed are exactly those whose entry points at the connection |
| Presence.ReleasedPartition | backend/server.js:56-61 | the surviving and the removed entries partition the table, so their sizes add up |
| Presence.StartThenDisconnect | backend/server.js:41-61 | typing and then disconnecting from one connection leaves no entry for that participant and no other change |
| Presence.DisconnectIdle | backend/server.js:53-62 | closing a connection that holds no entry changes nothing |
| Presence.PresenceTable.constructor | backend/server.js:34 | the table starts empty |
| Presence.PresenceTable.StartTyping | backend/server.js:41-45 | the participant's entry is overwritten with the connection, and the other connections are told |
| Presence.PresenceTable.StopTyping | backend/server.js:48-51 | the participant's entry is deleted, whichever connection held it, and the other connections are told |
| Presence.PresenceTable.Disconnect | backend/server.js:53-62 | the table becomes the surviving entries, and exactly one `memberStoppedTyping` is emitted per removed entry, for that participant |
| Home.CreateBoard | frontend/src/components/Home/Home.js:36-75 | the anonymity flag is kept, the title is kept or cleared, and the list is either kept or headed by the new id and at most four long; the lemmas below state each outcome |
| Home.DeleteBoard | frontend/src/components/Home/Home.js:107-139 | title and anonymity are kept and a notice is shown; a successful delete removes the id and never lengthens the list; a refused or failed one keeps the list and shows a failure |
| Home.CreateRequest | frontend/src/components/Home/Home.js:37-47 | no request is sent exactly when the trimmed title is empty; otherwise the title is sent as typed |
| Home.BlankTitleDoesNothing | frontend/src/components/Home/Home.js:37-39 | an empty or all-whitespace title sends nothing and changes nothing |
| Home.TitleWithTextIsSent | frontend/src/components/Home/Home.js:41-48 | a title with a visible character is sent as typed |
| Home.CreatedIdHeadsList | frontend/src/components/Home/Home.js:51-61 | after a successful create, the new id heads a list of at most four, the rest is a prefix of the old list, and the title field is cleared |
| Home.FailedCreateKeepsList | frontend/src/components/Home/Home.js:62-72 | a refused or failed create keeps the list and the title |
| Home.DeleteRemovesExactly | frontend/src/components/Home/Home.js:113-121 | a successful delete removes every occurrence of the id and keeps every other id, as often as before and in order |
| Home.FailedDeleteKeepsList | frontend/src/components/Home/Home.js:122-137 | a refused or failed delete keeps the list |
| Home.RollForward | frontend/src/components/Home/Home.js:83 | a day past the end of a month rolls into a valid later date |
| Home.RollForwardDayNumber | frontend/src/components/Home/Home.js:83 | the rolled date is `d - 1` days after the first of the month, counted by the independent day number |
| Home.RollBack | frontend/src/components/Home/Home.js:83 | a day before the first rolls into a valid earlier date |
| Home.RollBackDayNumber | frontend/src/components/Home/Home.js:83 | the rolled-back date is `1 - d` days before the first of the month, counted by the independent day number |
| Home.MakeDate | frontend/src/components/Home/Home.js:83 | `new Date(y, m, d)` always denotes a valid calendar date |
| Home.MakeDateDayNumber | frontend/src/components/Home/Home.js:83 | `new Date(y, m, d)` is the date `d - 1` days after the first of month `m % 12` of year `y + m / 12` (years 0 to 99 read as 1900 to 1999), for every day, zero and negative included |
| Home.YearLength | frontend/src/components/Home/Home.js:83 | ECMAScript's DayFromYear gives a leap year 366 days and any other year 365 |
| Home.MonthsFillYear | frontend/src/components/Home/Home.js:83 | the twelve month lengths add up to the year's length |
| Home.NextMonthStart | frontend/src/components/Home/Home.js:83 | the first of the next month, across a year end too, is one month length after the first of this one |
| Home.DayNumberBounds | frontend/src/components/Home/Home.js:83 | a valid date's day number lies within its month and within its year |
| Home.DayNumberInjective | frontend/src/components/Home/Home.js:83 | two valid dates have the same day number exactly when they are equal, so the day number fixes the date `new Date` makes |
| Home.MakeDateOfValid | frontend/src/components/Home/Home.js:83 | a valid date with a year past 99 is its own normal form |
| Home.DateSegment | frontend/src/components/Home/Home.js:80-81 | the date field is undefined exactly when the id has no ":" |
| Home.DateSegmentOfGeneratedId | frontend/src/components/Home/Home.js:80-81 | the date field of an id built from a title without ":" is the formatted date |
| Home.ReadFormattedDate | frontend/src/components/Home/Home.js:82 | a formatted date reads back as its day, month and year |
| Home.ReadPaddedFields | frontend/src/components/Home/Home.js:82 | a date field made of a padded day, a padded month and a year reads back as those three numbers |
| Home.IsToday | frontend/src/components/Home/Home.js:77-89 | `isToday` throws exactly when the id has no ":" |
| Home.IsTodayOfGeneratedId | frontend/src/components/Home/Home.js:79-88 | for an id built from a title without ":" in a year past 99, `isToday` holds exactly when the date it was built on is today |
| Home.TodayBoardIds | frontend/src/components/Home/Home.js:91 | the filter throws exactly when some id has no ":"; otherwise every kept id is today's |
| Home.TodayBoardIdsSubsequence | frontend/src/components/Home/Home.js:91 | the ids shown as today's are an order-preserving sub-list of the recent ids |
| Home.TodayBoardIdsComplete | frontend/src/components/Home/Home.js:91 | every id in the list that is today's is shown |
| RetroBoard.JoinDataOf | frontend/src/components/RetroBoard/RetroBoard.js:211-215 | a success reply gives the board's `_id`, title, member id and anonymity; a 500's JSON error body gives an undefined `_id`; the 404 text body gives nothing; the `_id` is defined exactly for a success reply |
| RetroBoard.SessionOf | frontend/src/components/RetroBoard/RetroBoard.js:218-226 | the stored session carries the joined board and member id, and is usable exactly until one day after the join |
| RetroBoard.ViewAfter | frontend/src/components/RetroBoard/RetroBoard.js:89-132 | an event with no listener that sets the board leaves the displayed board as it was, and so does a bare-string payload on a page watching a board |
| RetroBoard.TypingAfter | frontend/src/components/RetroBoard/RetroBoard.js:96-102 | an event changes no participant's typing flag except the one it names |
| RetroBoard.RetroBoardPage.constructor | frontend/src/components/RetroBoard/RetroBoard.js:27-39 | every state cell starts at its initial value, and local storage is as found |
| RetroBoard.RetroBoardPage.ResetBoardState | frontend/src/components/RetroBoard/RetroBoard.js:42-53 | the active board, typed id, member id, view, dialog, toast, success flag and typing flags are cleared and the session is removed; nothing else changes |
| RetroBoard.RetroBoardPage.RestoreSession | frontend/src/components/RetroBoard/RetroBoard.js:55-70 | an unexpired session restores board id, title, anonymity, member id and success flag; an expired one is removed; no session changes nothing |
| RetroBoard.RetroBoardPage.FetchBoardDetails | frontend/src/components/RetroBoard/RetroBoard.js:72-86 | the board is requested exactly when the board id is neither empty nor undefined and the join succeeded, and only a board reply replaces the view |
| RetroBoard.RetroBoardPage.BindListeners | frontend/src/components/RetroBoard/RetroBoard.js:89-153 | the listeners are registered again and capture the current board id |
| RetroBoard.RetroBoardPage.Receive | frontend/src/components/RetroBoard/RetroBoard.js:89-132 | an event changes only the view and the typing flags, as the listener rules say |
| RetroBoard.RetroBoardPage.RememberBoard | frontend/src/components/RetroBoard/RetroBoard.js:156-164 | after a join the recent list gets the board id; before one nothing changes |
| RetroBoard.RetroBoardPage.TypeBoardId | frontend/src/components/RetroBoard/RetroBoard.js:248 | typing changes only the entered id |
| RetroBoard.RetroBoardPage.TypeMemberName | frontend/src/components/RetroBoard/RetroBoard.js:272-273 | typing changes only the entered name |
| RetroBoard.RetroBoardPage.SubmitBoardId | frontend/src/components/RetroBoard/RetroBoard.js:166-197 | re-entering the active, joined board only shows a notice and fetches nothing; otherwise the board is read and either opens the name dialog or shows "Invalid Board ID" |
| RetroBoard.RetroBoardPage.JoinBoard | frontend/src/components/RetroBoard/RetroBoard.js:199-233 | the join is requested with the typed id and name; the state is reset; a JSON reply activates its board and stores a one-day session, and a 500's error body does so with an undefined board id |
| RetroBoard.RetroBoardPage.CloseDialog | frontend/src/components/RetroBoard/RetroBoard.js:235-237 | only the dialog closes |
| RetroBoard.BoardDocumentReplacesOwnBoard | frontend/src/components/RetroBoard/RetroBoard.js:105-109 | a board document on a feedback or comment event replaces the view exactly when its `_id` is the watched board |
| RetroBoard.DeletionMarkerLeavesView | frontend/src/components/RetroBoard/RetroBoard.js:105-109 | a deletion marker has no `_id`, so on a page watching a board feedback and comment deletions leave the view as it was; on a page whose board id is undefined, the marker of any board becomes the view |
| RetroBoard.JoinAnnouncementReplacesOwnBoard | frontend/src/components/RetroBoard/RetroBoard.js:90-94 | a join announcement replaces the view exactly when its `boardId` is the watched board |
| RetroBoard.BoardEditAnnouncementIgnored | frontend/src/components/RetroBoard/RetroBoard.js:90-94 | the bare board broadcast by a board edit leaves the view of a page watching a board; a page whose board id is undefined has its view cleared |
| RetroBoard.TypingFlags | frontend/src/components/RetroBoard/RetroBoard.js:96-102 | `memberTyping` sets one participant's flag, `memberStoppedTyping` clears it, and no other flag changes |
| RetroBoard.RecentIds | frontend/src/components/RetroBoard/RetroBoard.js:156-164 | the id is in the updated list, and the list is either unchanged or at most four long; its partners are the two lemmas below |
| RetroBoard.RecentIdsShape | frontend/src/components/RetroBoard/RetroBoard.js:158-161 | a listed id leaves the list alone; a new one heads a list of at most four whose rest is a prefix of the old list |
| RetroBoard.RecentIdsNoDuplicates | frontend/src/components/RetroBoard/RetroBoard.js:158-161 | the recent list never holds a board id twice if it did not before |
| RetroBoard.UndefinedIdsRepeat | frontend/src/components/RetroBoard/RetroBoard.js:158-161 | `includes` never finds `undefined` among the stored `null`s, so each undefined id adds another `null` |
| Scenarios.SprintReviewTitle | backend/models.js:63 | the title "Sprint Review" is sanitised to "Sprint-Review" |
| Scenarios.LikeTwiceThenDelete | backend/server.js:183-334 | on a board with a title and no feedback, one item liked twice by one participant counts one like, and after its deletion the listing is empty and a marker is broadcast |
| Scenarios.SprintReview | backend/server.js:66-334 | create "Sprint Review" on 5 January 2024, add one feedback item, like it twice as one participant and delete it: the id's date field is "05-01-2024", one like is counted, the listing ends empty, and the deletion is broadcast as a marker |
| Scenarios.AliceJoins | backend/server.js:114-150 | two joins under "Alice" leave one member, who holds the second generated id |
| Scenarios.JoinTwice | backend/server.js:114-150 | on a board with a title and no members, two joins under "Alice" through the store answer "Alice-s1" and then "Alice-s2", and the board keeps one Alice |
| Scenarios.EditCommentOfDeletedFeedback | backend/server.js:359-377 | on a board with a title, editing a comment after its feedback item was deleted answers 500 |
| Scenarios.JoinRefusedFollowsEveryBoard | frontend/src/components/RetroBoard/RetroBoard.js:199-233 | after an edit empties a board's title, a join answers 500; a page reading that body becomes active, and another board's deletion marker becomes its view |
| Scenarios.CreatedToday | frontend/src/components/Home/Home.js:77-91 | the today filter keeps the board created today and drops the one created the day before |

## Left out

- Express routing, body parsing and CORS are not modelled. Status codes are not modelled either; a
  response is the `Response` datatype.
- Mongoose persistence is an in-memory map. Schema casting of arbitrary request bodies is not
  modelled.
- Error bodies are not modelled. `ServerError` stands for every 500, whatever error object is sent.
- Socket.IO delivery and fan-out are not modelled. An emit is an `Event` record with its audience.
  The `memberJoined` and `memberLeft` listeners are left out, because the server never emits those
  topics.
- Concurrency and lost updates between overlapping async handlers are not modelled. The model is
  sequential.
- `shortid.generate()`, `new Date()` and `Date.now` are parameters.
- The keep-alive cron ping, static file serving and console logging are not modelled.
- Store.BoardStore.ListBoards: the listing is a set, so the order `find()` returns is not stated.
- Presence.PresenceTable.Disconnect: the events are stated as one per removed entry, each for that
  entry's participant. Their order follows JavaScript's key order, which a `map` does not have, so the
  order is not stated.
- Store.BoardStore.UpdateFeedback: only `type` and `content` of the request body are applied. The
  `Object.assign` of other fields, such as `likes` or `_id`, is not modelled.
- Store.BoardStore.UpdateBoard: only `title` and `isAnonymous` of the request body are applied. Other
  fields of the `findByIdAndUpdate` patch are not modelled.
- Home.MakeDate: the time-value range limit of ECMAScript dates (TimeClip) is not modelled. Floating
  point precision for huge parsed numbers is not modelled either.
- Home.IsTodayOfGeneratedId: it is stated only for creation years past 99. For years 0 to 99 the
  id reads back as 1900 to 1999, so the equivalence does not hold there.
- Store.BoardStore.ReactToFeedback: the schemas declare only the `likes` and `dislikes` counters, yet
  the handler reads `feedback.likedBy`. Under strict schemas that read is `undefined`, so `.includes`
  throws and every like or dislike as written answers 500. The model gives every feedback item both
  reactor lists and states the guard the code evidently intends.
- Store.BoardStore.ReactToComment: the same holds for `comment.likedBy` and `comment.dislikedBy`. As
  written every comment reaction answers 500; the model states the intended guard.
- Reactions.React: it is the intended reaction guard over explicit reactor lists. The lists are not
  schema fields, so the code as written never reaches the guard.
- Text.IsSpace: only ASCII whitespace is recognised. The full Unicode `\s` class of JavaScript regular
  expressions is not.
- The `isLoading` flags, the five-second toast timers and console output of both pages are not
  modelled.
- Local storage reads and writes are values: the page's `session` and `recentBoardIds` fields, and the
  landing page's list. The landing page's initial load of the `boards` key is not modelled.
- The page's JSON reading of a reply is not modelled. A reply that cannot be read is `None`. A JSON
  error body is modelled through the fields the page reads. Its missing `_id` is `undefined`. Its
  missing title, `userId` and anonymity flag are read as "" and false, because no modelled comparison
  tells those apart from `undefined`.
- RetroBoard.TypingAfter: typing events whose payload is not a participant id string are treated as no
  change.
- The rendering components (feedback cards, member lists, dialogs, navigation) hold no state logic.
  They are not part of this model.
