# Smart bookmark app: a Dafny model of its client-side logic

The app is a personal bookmark manager. A signed-in user adds and deletes
URL bookmarks, and the list stays in step across open sessions through a
realtime change feed from the hosted backend. This project models the part
of the client that is logic and not presentation:

- **the dashboard page** (`DashboardPage`, `dashboard.dfy`). It owns the
  in-memory bookmark list. Three sources change that list:
  - the bulk fetch, which replaces it;
  - push events (INSERT prepends, DELETE filters by id, UPDATE replaces by id);
  - optimistic edits reported by the form and the list (add prepends, delete
    filters by id).

  The list changes are pure functions on `seq<Bookmark>`, with lemmas about
  them. The component state (`bookmarks`, `loading`, `user`, the channel
  ref, the `initRef` guard) is the class `Dashboard`. Its methods are
  specified in terms of those functions.
- **the add-bookmark form** (`BookmarkForm`, `form.dfy`). It has the URL
  check and the submit handler: the ordered checks (title, URL present, URL
  scheme), then the user lookup, the insert, and the resulting state. The
  reference function `SubmitOutcome` gives the outcome of one submit. The
  lemmas state what the code promises about it. The method
  `Form.HandleSubmit` does the same steps one at a time and is proved equal
  to `SubmitOutcome`.
- **the bookmark list** (`BookmarkList`, `list.dfy`). It covers the
  relative-date label, the `www.` stripping of hostnames, the delete
  button's `deletingId`/`error` transitions, and the empty-state branch.
- **shared pieces.** `Records` (`records.dfy`) holds the row type. `Text`
  (`text.dfy`) holds the JavaScript string operations the components use:
  `trim`, `replace` with a string pattern (first occurrence only), and the
  decimal text of a number.

The model follows the code as written. The code does **not** keep the list
unique by id and does **not** re-sort it after a change. The newest-first
order comes only from the fetch query. A local add followed by the server's
INSERT for the same row leaves two entries. `AddedTwice` and
`EchoedAddScenario` prove this. There is no uniqueness or ordering
invariant, because nothing in the code keeps one entry per id or re-sorts
the list after a change.

Anything outside the client's control is a parameter of the model, not
something it computes:
- the backend's answers: `AuthReply`, `FetchReply`, `InsertReply`, and the
  `ok` flag of a delete;
- the URL parser: `protocolOf` in the form, `hostname` in the list;
- the clock: the elapsed milliseconds, `None` when the stored date is
  invalid and the difference is NaN;
- the locale date text.

Each `await` completes as one atomic step with the given answer.

## Model

| member | source | states |
|---|---|---|
| `DashboardPage.Prepend` | app/dashboard/page.tsx:71 | the new row is at the head and the old list follows it unchanged, one longer; the same spread is the local add at page.tsx:100 |
| `DashboardPage.RemoveId` | app/dashboard/page.tsx:73-75 | the filtered list is no longer than the input and holds exactly the input's entries whose id differs from the deleted one |
| `DashboardPage.ReplaceById` | app/dashboard/page.tsx:77-79 | same length; every position holds the pushed row if its id matches and the old entry otherwise |
| `DashboardPage.ApplyChange` | app/dashboard/page.tsx:69-81 | INSERT grows the list by one with the row at the head; UPDATE keeps the length; DELETE never grows it and leaves no entry with the deleted id |
| `DashboardPage.ApplyLocal` | app/dashboard/page.tsx:98-106 | a local add grows the list by one with the row at the head; a local delete leaves no entry with that id |
| `DashboardPage.InsertAddsOneCopy` | app/dashboard/page.tsx:70-71 | an INSERT adds exactly one entry with the row's id, whether or not that id is already present, and changes no other id's count |
| `DashboardPage.RemoveIdLength` | app/dashboard/page.tsx:72-75 | a DELETE shortens the list by exactly the number of entries carrying the id, and none remain |
| `DashboardPage.RemoveAbsentId` | app/dashboard/page.tsx:72-75 | a DELETE for an id that is absent leaves the list unchanged |
| `DashboardPage.RemoveIdConcat` | app/dashboard/page.tsx:74 | filtering distributes over concatenation, so the surviving entries keep their relative order |
| `DashboardPage.RemoveIdIdempotent` | app/dashboard/page.tsx:72-75 | the same DELETE delivered twice has the effect of delivering it once |
| `DashboardPage.RemoveIdCommutes` | app/dashboard/page.tsx:72-75 | DELETEs of two ids give the same list in either order |
| `DashboardPage.ReplaceKeepsCounts` | app/dashboard/page.tsx:76-79 | an UPDATE never changes how many entries carry any id |
| `DashboardPage.ReplaceAbsentId` | app/dashboard/page.tsx:76-79 | an UPDATE for an id that is absent leaves the list unchanged |
| `DashboardPage.ReplaceIdempotent` | app/dashboard/page.tsx:76-79 | the same UPDATE delivered twice has the effect of delivering it once |
| `DashboardPage.LocalDeleteIsRemoteDelete` | app/dashboard/page.tsx:103-106 | the optimistic delete is the same list change as a remote DELETE of that id |
| `DashboardPage.AddedTwice` | app/dashboard/page.tsx:98-101 | a local add and a remote INSERT of the same row, in either order, give the same list: that row twice at the head over the old list, so its id's count rises by two |
| `DashboardPage.DeleteClearsBothCopies` | app/dashboard/page.tsx:72-75 | after a row was added twice, one DELETE of its id removes both copies |
| `DashboardPage.ChannelFor` | app/dashboard/page.tsx:59-67 | the channel's topic is `bookmarks-` followed by the user id, its filter is `user_id=eq.` followed by the user id, and it is active |
| `DashboardPage.Dashboard.constructor` | app/dashboard/page.tsx:13-17 | empty list, loading, no user, no channel, init guard unset |
| `DashboardPage.Dashboard.FetchBookmarks` | app/dashboard/page.tsx:20-36 | on success the list is replaced wholesale by the data, or by the empty list when the data is null; on failure it is kept; `loading` is false afterwards; nothing else changes |
| `DashboardPage.Dashboard.Initialize` | app/dashboard/page.tsx:39-89 | a second call after the guard is set changes nothing. With no user it only redirects: no fetch, no channel, `loading` untouched. When `getUser` throws, only the guard is set. With a user, the user is stored, the fetch result is applied, `loading` ends false, and the channel is opened even when the fetch failed |
| `DashboardPage.Dashboard.OnChange` | app/dashboard/page.tsx:69-81 | while subscribed, one push event changes the list to `ApplyChange` of the old list, and nothing else |
| `DashboardPage.Dashboard.HandleBookmarkAdded` | app/dashboard/page.tsx:98-101 | the list becomes the local add applied to the old list |
| `DashboardPage.Dashboard.HandleBookmarkDeleted` | app/dashboard/page.tsx:103-106 | the list becomes the local delete applied to the old list |
| `DashboardPage.Dashboard.SubmitForm` | app/dashboard/page.tsx:131 | the form ends in the reference submit state; the returned row, when the form reports one, goes to the head of the list, and otherwise the list is kept |
| `DashboardPage.Dashboard.DeleteFromList` | app/dashboard/page.tsx:135-138 | a delete whose request succeeds removes the id from the list and leaves it marked as deleting; a failed one keeps the list, clears `deletingId` and shows the error |
| `DashboardPage.Dashboard.Teardown` | app/dashboard/page.tsx:93-95 | unsubscribing deactivates the channel if there is one and is harmless with no channel or when repeated |
| `DashboardPage.EchoedAddScenario` | app/dashboard/page.tsx:69-101 | a form submit whose row is then echoed by the server's INSERT leaves exactly that row twice in a list that was fetched empty |
| `BookmarkForm.ValidateUrl` | components/BookmarkForm.tsx:17-24 | accepted only when parsing succeeded, and then exactly when the protocol is `http:` or `https:` |
| `BookmarkForm.SubmitClearsMessages` | components/BookmarkForm.tsx:28-29 | every submit first clears `error` and `success`: success shows exactly after a completed insert, and an error shows exactly when success does not |
| `BookmarkForm.TitleCheckedFirst` | components/BookmarkForm.tsx:32-35 | a title that is blank after trimming gives the title error whatever the URL, the parser and the backend would say; nothing else changes and nothing is sent |
| `BookmarkForm.BlankUrlSkipsParser` | components/BookmarkForm.tsx:37-40 | with a title present, a blank URL gives "Please enter a URL" and the same outcome under any parser |
| `BookmarkForm.ParserSeesUntrimmedUrl` | components/BookmarkForm.tsx:42 | the outcome depends on the parser only through its answer for the URL exactly as typed |
| `BookmarkForm.ValidationFailureSendsNothing` | components/BookmarkForm.tsx:31-48 | a failed check returns with one of the three validation messages, `loading` and both fields untouched, no user lookup, no insert and no callback |
| `BookmarkForm.SubmitOutcome` | components/BookmarkForm.tsx:26-91 | the reference outcome of one submit: nothing is sent and `loading` is untouched unless the user was looked up, a row is sent only after the lookup, the callback runs only after a row was sent and with success shown, and the fields are kept unless the insert completed; the order of the checks and the message of each are `TitleCheckedFirst`, `BlankUrlSkipsParser` and `InvalidUrlRejected`, and the backend outcomes are `AcceptedInputReachesBackend` and `InsertOutcome` |
| `BookmarkForm.InvalidUrlRejected` | components/BookmarkForm.tsx:42-45 | with a title and a URL present, a URL that `validateUrl` rejects gives "Please enter a valid URL (must start with http:// or https://)" |
| `BookmarkForm.AcceptedInputReachesBackend` | components/BookmarkForm.tsx:47-90 | past validation the user is looked up and `loading` ends false on every path. An insert happens exactly when a user exists, and its row holds the user id, the trimmed title and the trimmed URL. Without a user the error is the login message, or the generic failure when the lookup throws |
| `BookmarkForm.InsertOutcome` | components/BookmarkForm.tsx:72-90 | a completed insert clears both fields and shows success, and calls `onBookmarkAdded` exactly when data is present, with `data[0]`, which is the first row, or `undefined` (`None`) when the returned array is empty. A failed insert shows the failure, keeps both fields and calls nothing |
| `BookmarkForm.Form.constructor` | components/BookmarkForm.tsx:11-15 | empty fields, not loading, no error, no success |
| `BookmarkForm.Form.SetUrl` | components/BookmarkForm.tsx:121 | the URL field takes the typed value and nothing else changes |
| `BookmarkForm.Form.SetTitle` | components/BookmarkForm.tsx:137 | the title field takes the typed value and nothing else changes |
| `BookmarkForm.Form.HandleSubmit` | components/BookmarkForm.tsx:26-91 | the step-by-step handler ends in exactly the state, user lookup, inserted row and callback of `SubmitOutcome` |
| `Text.Trim` | components/BookmarkForm.tsx:32 | the trimmed string has no white space at either end, and is empty exactly when the input is all white space |
| `Text.TrimIsSlice` | components/BookmarkForm.tsx:32 | the trimmed string is a slice of the input with only white space cut off before and after it, so together with `Trim`'s own contract it is the input without its leading and trailing white space |
| `Text.IndexOf` | components/BookmarkList.tsx:41 | the found position holds the pattern and no earlier one does; when none is found the pattern occurs nowhere |
| `Text.ReplaceFirst` | components/BookmarkList.tsx:41 | when the pattern occurs nowhere the string is returned unchanged; the found case is `ReplaceFirstAt` |
| `Text.ReplaceFirstAt` | components/BookmarkList.tsx:41 | a string-pattern replace rewrites exactly the first occurrence and keeps what is before and after it |
| `Text.Decimal` | components/BookmarkList.tsx:53-55 | the number is written as a non-empty run of digits without a leading zero |
| `Text.DecimalRoundTrip` | components/BookmarkList.tsx:53-55 | reading the digits back gives the number |
| `Text.DecimalInjective` | components/BookmarkList.tsx:53-55 | different numbers give different text |
| `BookmarkList.ElapsedSeconds` | components/BookmarkList.tsx:50 | the seconds are the floor of the milliseconds over 1000, also for a negative difference |
| `BookmarkList.DateBucket` | components/BookmarkList.tsx:52-57 | under 60 s (negative included) reads "just now". Minutes cover 60 s up to one hour, hours up to one day, days up to one week. Anything later, or a NaN count, gets the locale date. Each count is the floor in its unit: minutes in 1..59, hours in 1..23, days in 1..6 |
| `BookmarkList.LabelText` | components/BookmarkList.tsx:52-57 | "just now", the locale date, or decimal digits followed by `m ago`, `h ago` or `d ago` according to the unit; `LabelTextShowsCount` shows that the digits read back as the label's count |
| `BookmarkList.LabelTextShowsCount` | components/BookmarkList.tsx:53-55 | the digits of a minutes, hours or days label read back as exactly that label's count |
| `BookmarkList.FormatDate` | components/BookmarkList.tsx:47-58 | an invalid date or one a week or more ago shows the locale date, less than a minute (future dates included) shows "just now", and in between digits followed by `m ago` under an hour, `h ago` under a day and `d ago` under a week; the exact count for each unit is `MinutesText`, `HoursText` and `DaysText` |
| `BookmarkList.RecentIsJustNow` | components/BookmarkList.tsx:50-52 | any difference under a minute, a future date included, is shown as "just now" |
| `BookmarkList.MinutesText` | components/BookmarkList.tsx:53 | between one minute and one hour the text is the floored minute count, in 1..59, followed by "m ago" |
| `BookmarkList.HoursText` | components/BookmarkList.tsx:54 | between one hour and one day the text is the floored hour count, in 1..23, followed by "h ago" |
| `BookmarkList.DaysText` | components/BookmarkList.tsx:55 | between one day and one week the text is the floored day count, in 1..6, followed by "d ago" |
| `BookmarkList.LabelTextInjective` | components/BookmarkList.tsx:52-55 | two relative labels with the same text are the same label, so the text determines the unit and the count |
| `BookmarkList.FormatUrl` | components/BookmarkList.tsx:38-45 | an unparsable URL is returned as given; a hostname without `www.` is returned as is |
| `BookmarkList.FormatUrlDropsFirstWww` | components/BookmarkList.tsx:41 | with `www.` in the hostname, exactly its first occurrence is removed, wherever it stands, and the text shrinks by four |
| `BookmarkList.FormatUrlLeadingWww` | components/BookmarkList.tsx:41 | a leading `www.` is cut off |
| `BookmarkList.FormatUrlExample` | components/BookmarkList.tsx:41 | `www.www.example.com` becomes `www.example.com`: only the first occurrence goes |
| `BookmarkList.ListView` | components/BookmarkList.tsx:60-124 | an empty list takes the empty-state branch. A non-empty one shows the count and the error, and disables exactly the delete button of the rows whose id is `deletingId` |
| `BookmarkList.DeleteControl.constructor` | components/BookmarkList.tsx:15-16 | nothing being deleted and no error |
| `BookmarkList.DeleteControl.StartDelete` | components/BookmarkList.tsx:19-21 | starting a delete marks that id as deleting and clears the error |
| `BookmarkList.DeleteControl.FinishDelete` | components/BookmarkList.tsx:23-35 | on success `onBookmarkDeleted` gets the id and `deletingId` and the error are kept. On failure "Failed to delete bookmark" is shown, `deletingId` is cleared, and the callback is not called |

## Left out

- The backend calls (`auth.getUser`, `select`, `insert`, `delete`,
  `channel().on().subscribe()`, `unsubscribe`) are network I/O. The model
  takes their answers as parameters. It does not model which rows the
  backend returns (owner filter, newest-first order), so it keeps no
  ownership or ordering invariant.
- Asynchrony and the realtime transport: each awaited answer and each
  delivered event is one atomic step. `handleDelete` is split into its
  synchronous start and its completion. The other handlers run to the end
  in one step, so interleavings between them are not modelled. Dropped
  events are not modelled.
- Push events other than INSERT, UPDATE and DELETE cannot arrive: event
  `*` on `postgres_changes` delivers only these three. The model's event
  type has exactly those three.
- DashboardPage.Dashboard.OnChange: it requires an active channel. Only a subscribed
  channel calls the handler.
- DashboardPage.Dashboard.SubmitForm: when the insert returns an empty array, the form
  calls `onBookmarkAdded(undefined)`. The page would then prepend
  `undefined` to the list. The form side models the call as
  `CalledWith(None)`, but the model's list cannot hold `undefined`. The
  list is therefore left unchanged in that case.
- React's own behaviour: re-mounting, the effect running twice, when the
  cleanup is registered, and render scheduling. `Teardown` is modelled on
  its own.
- `router.replace('/')` is recorded as a flag only. The JSX is mostly left
  out, including the dashboard's loading screen. Only the list's
  empty-state branch and the per-row button state are modelled
  (`ListView`).
- The 2-second `setTimeout` that resets `success` is a timer, and
  `console.error` logging is output. Both are left out.
- URL parsing (WHATWG URL Standard), `Date`, `getTime` and
  `toLocaleDateString` are foreign or locale-dependent. They are parameters.
- `trim` works on code points here, not UTF-16 code units. The white space
  it removes is all in the Basic Multilingual Plane, so this makes no
  difference to the result.
- `lib/supabaseClient.ts`, which defines the `Bookmark` type, is not
  part of this model. The record's fields are the columns the components
  use.
