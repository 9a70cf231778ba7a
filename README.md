# Al-Khairat employee portal — a verified model of its data and refresh core

The portal is a single-page app. An employee logs in with an id. The app
fetches six published spreadsheets as CSV: the admin sheet, the current and
archived salary sheets, and the bonus, dispatch and extra-hours ledgers. It
turns them into one employee snapshot, caches that snapshot in
`localStorage`, and on every refresh compares the new snapshot with the
cached one to post notifications ("new bonus", "new salary statement", …).
A welcome screen with a swipeable three-slide carousel comes first.

This project models, in Dafny:

- `services/dataService.ts`, as pure functions (modules `Text`, `Csv`,
  `Columns`, `Amounts`, `DataService`). It covers:
  - the naive CSV splitter;
  - the column search by header text and the priority-ordered amount column;
  - the admin lookup and the profile built from the admin row;
  - salary statements: line items, the year/month regular expression and
    the date-descending sort;
  - ledger records: name, amount through `parseFloat(…) || 0`, the date
    with its time cut off, and the positive-amount filter;
  - the error order of `fetchEmployeeData` once the six requests have
    settled.
- `App.tsx`, as a class `Portal.App` whose fields are the React state the
  handlers change: `showWelcome`, `employee`, `activeTab`, `notifications`,
  the `localStorage` snapshot cache and `lastUpdate`. Its methods are:
  - `handleRefresh`, which takes what the fetch settled to;
  - `handleMarkRead`, `handleClearAll` and `handleLogout`;
  - entering from the welcome screen, and login success.

  The change detection inside `handleRefresh` is pure and lives in `Sync`.
  It covers the record key, the added records, one notification per ledger
  category and the high-priority salary notification. The notification log
  and the unread count live in `Notifications`.
- `components/WelcomeScreen.tsx`'s carousel. The pure `Slider` functions
  are the specification. The class `Welcome.Carousel` holds the three state
  variables and the timer and touch handlers as methods proved against
  those functions.

Properties proved include:

- CSV parsing inverts table writing for plain cells.
- Amount parsing inverts amount printing.
- `parseFloat` reads the longest decimal literal that starts the stripped
  cell, or NaN exactly when none does.
- Every filter keeps each element it should as often as it occurs, in
  order, and no other (`Seqs.FilterUnique` shows this pins the result).
- A salary sheet yields exactly the statements of the rows carrying the id,
  in row order.
- The history is a permutation of both sheets, in descending date order
  when every statement has a date. When the dates are also distinct, the
  order is strictly descending, so every correct sort gives this one order.
- Ledger records are exactly the positive-amount records of the matching
  rows, in row order.
- A cycle raises at most four notifications, and one is high priority
  exactly when the salary check fires.
- The first sync is silent, and so is a second sync of the same snapshot.
- The unread count grows by exactly the posted entries.
- Marking read is idempotent, and marking all leaves nothing unread.
- The carousel's swipe goes by its own travel.

Behaviour of the code that the model exhibits:

- `parseCSV("")` is one row holding one empty cell, not an empty table
  (`Csv.EmptyText`).
- A quoted cell keeps the whitespace inside its quotes
  (`Csv.QuotedPaddingSurvives`).
- Two different ledger records can share a change-detection key, because
  the key joins name, amount and date with `-`. A record added beside an
  existing record with the same key is not announced (`Sync.KeyCollision`).
- A ledger row shorter than its name column gives a record without a name.
  The first sync has no cache, so it stores that record without looking at
  it. From then on, every refresh of that snapshot throws in
  `getRecordKey`. It fails, the cache is never rewritten, and only a
  manual refresh shows the alert (`Portal.UnnamedRecordBlocks`).
- A record whose date cell reads `no-date` has the key of the same record
  without a date, so one is not announced beside the other
  (`Sync.NoDateKeys`).

## Model

| member | source | states |
|---|---|---|
| Text.Trim | services/dataService.ts:16 | `trim()` yields the infix between whitespace-only ends, and it neither starts nor ends with whitespace |
| Text.BlankTrim | services/dataService.ts:106 | `h.trim() !== ''` holds exactly when the header has a non-whitespace character |
| Text.Remove | services/dataService.ts:16 | deleting every `"` leaves no quote, removes exactly the quotes, and keeps every other character as often as it occurs and in order |
| Text.Split | services/dataService.ts:15-16 | a one-character split has one more piece than separators, and no piece holds the separator |
| Text.JoinSplit | services/dataService.ts:15-16 | joining the pieces of a split with the separator gives the text back |
| Text.SplitJoin | services/dataService.ts:15-16 | splitting undoes joining when no part holds the separator |
| Text.ContainsAt | services/dataService.ts:23 | `includes` holds exactly when the needle occurs at some position |
| Csv.ParseCell | services/dataService.ts:16 | a parsed cell never holds a double quote |
| Csv.ParseLine | services/dataService.ts:16 | a line has one more cell than it has commas, and no cell holds a quote |
| Csv.ParseCsv | services/dataService.ts:14-18 | one row per line feed plus one; each row has one cell per comma plus one; no cell holds a quote |
| Csv.EmptyText | services/dataService.ts:14-18 | empty text parses to one row with one empty cell |
| Csv.ParseTableText | services/dataService.ts:14-18 | parsing the comma/line-feed text of a table of plain cells gives the table back |
| Csv.QuotedPaddingSurvives | services/dataService.ts:16 | quotes are deleted after trimming, so padding inside quotes survives |
| Columns.Cell | services/dataService.ts:102 | `row[i]` is present exactly when the index is within the row, and is then that cell |
| Columns.FindIndex | services/dataService.ts:152-158 | the result is the first header cell mentioning any needle, or -1 exactly when none does |
| Columns.FindColumn | services/dataService.ts:95-97 | the result is the leftmost cell including the name, or -1 exactly when no cell includes it |
| Columns.FirstCandidateSpec | services/dataService.ts:20-27 | the first candidate name occurring anywhere decides, and its leftmost cell wins; -1 exactly when no candidate occurs |
| Columns.FindAmountIndex | services/dataService.ts:20-27 | the loop over candidate names returns the column of the first name that occurs, or -1 exactly when none occurs |
| Amounts.Strip | services/dataService.ts:166 | every digit, dot and minus sign of the cell remains, as often as it occurs and in order, and nothing else does |
| Amounts.ParseNumber | services/dataService.ts:166 | a number `parseFloat` reads is a canonical amount |
| Amounts.ParseNumberLongest | services/dataService.ts:166 | `parseFloat` gives the value of the longest decimal literal that starts the text |
| Amounts.ParseNumberNaN | services/dataService.ts:166 | `parseFloat` gives NaN exactly when no decimal literal starts the text |
| Amounts.LiteralValueExact | services/dataService.ts:166 | the amount read from a literal has the literal's numeric value: whole digits plus fraction digits, negated after a minus sign |
| Amounts.ParseAmount | services/dataService.ts:166 | parsing a cell, with NaN falling back to 0, always gives a canonical amount, never negative zero |
| Amounts.PositiveValue | services/dataService.ts:180 | the decimal test for a positive amount agrees with `amount > 0` on its numeric value |
| Amounts.ParseAmountText | services/dataService.ts:166 | reading the `${amount}` text of a canonical amount gives the amount back |
| DataService.FindAdminRow | services/dataService.ts:56 | the result is the first row whose cell 0 is the id, or none exactly when no row has it |
| DataService.CellOr | services/dataService.ts:67-86 | a profile field is its cell when that is present and non-empty, otherwise the fallback |
| DataService.LookupProfileSpec | services/dataService.ts:55-87 | the lookup succeeds exactly when a row has the id in cell 0, and the profile then carries that id and non-empty leave balances; otherwise the error says whether the id was empty |
| DataService.MatchingRows | services/dataService.ts:101-102 | every data row whose id cell equals the id, as often as it occurs and in row order, and no other row |
| DataService.KeptColumns | services/dataService.ts:104-108 | the columns kept as line items, each once, in increasing order |
| DataService.DetailsSpec | services/dataService.ts:104-109 | one line item per kept column, in header order: the k-th item is the header and cell of the k-th kept column |
| DataService.CollectDetails | services/dataService.ts:104-109 | the `forEach` loop collects exactly the line items of the kept columns, in header order |
| DataService.MatchFrom | services/dataService.ts:116 | the leftmost match of `(\d{4})[/-](\d{1,2})`, with a four-digit year and a one- or two-digit month, or none exactly when no position matches |
| DataService.StatementFields | services/dataService.ts:111-130 | the year comes from the first match in a non-empty date cell; otherwise the month is "current" and the year is this year; with no net-salary column the net salary is "0" |
| DataService.StatementsOf | services/dataService.ts:103-131 | one statement per matching row, and each statement is built from one |
| DataService.SalarySheetSpec | services/dataService.ts:90-132 | no data row or no id column gives nothing; otherwise the statements are exactly those of the rows carrying the id |
| DataService.SalarySheetOrder | services/dataService.ts:101-131 | the statements follow the matching rows one for one, in row order |
| DataService.SortPermutation | services/dataService.ts:137-140 | the history holds every statement of both sheets, as often as they do |
| DataService.SortDescending | services/dataService.ts:137-140 | when every statement has a date, no earlier date precedes a later one |
| DataService.SortStrictlyDescending | services/dataService.ts:137-140 | with distinct dates the history is strictly descending, so the order is determined |
| DataService.EntryFields | services/dataService.ts:164-178 | name from the name column, else the amount column's header when it is non-empty, else "Record"; a date only with a date column, and always one when the date cell is present, cut at its first space; the amount read from its cell, or zero without an amount column |
| DataService.Entries | services/dataService.ts:162-179 | one record per matching row, with canonical amounts and dates free of spaces |
| DataService.PositiveRecords | services/dataService.ts:180 | every record with a positive amount, as often as it occurs and in order, and no other record |
| DataService.GenericSheetSpec | services/dataService.ts:143-181 | records have positive amounts and space-free dates, are no more than the rows, and the sheet fails only on a matching row lacking its amount cell |
| DataService.GenericSheetOrder | services/dataService.ts:160-180 | one candidate record per matching row, in row order, and the records are the positive-amount candidates, each as often as it occurs, in that order |
| DataService.FetchEmployeeData | services/dataService.ts:30-190 | a snapshot carries the requested id, and its history is a permutation of both salary sheets |
| DataService.FetchFailureOrder | services/dataService.ts:37-64 | a failed request is reported first, then a failed admin lookup with its error |
| DataService.FetchContents | services/dataService.ts:134-189 | on success each ledger list is its sheet's records, and the history is both salary sheets sorted by date |
| DataService.FetchMalformed | services/dataService.ts:165-166 | a malformed-row failure comes from one of the three ledger sheets |
| Notifications.Stamp | App.tsx:133-153 | a pushed notification is unread, timestamped now, has an id in [now, now + 1), and keeps the event's text, type and priority |
| Notifications.StampAll | App.tsx:115-196 | one notification per event, in push order |
| Notifications.MarkReadSpec | App.tsx:257-263 | marking keeps length and every field but `read`; an entry is read exactly when it was read already, or the id is falsy, or it has the id |
| Notifications.MarkReadIdempotent | App.tsx:257-263 | marking twice is marking once |
| Notifications.UnreadAppend | App.tsx:305 | the unread count of a concatenation is the sum of the counts |
| Notifications.UnreadStamped | App.tsx:133-153 | freshly pushed notifications are all unread |
| Notifications.UnreadAfterMarkRead | App.tsx:257-263 | marking all leaves nothing unread, and marking one never raises the count |
| Sync.Added | App.tsx:127-128 | every latest record whose key is not an old key, as often as it occurs and in latest order, and no other record |
| Sync.AddedSelf | App.tsx:127-128 | a list compared with its own keys adds nothing |
| Sync.KeysPermutation | App.tsx:127 | the old keys depend only on which records the baseline holds, not their order |
| Sync.KeyCollision | App.tsx:113 | two distinct records can have the same key |
| Sync.NoDateKeys | App.tsx:113 | a dated record has the key of the same undated record exactly when its date is blank or trims to `no-date` |
| Sync.CategoryEvent | App.tsx:130-155 | no notification without an added record; one addition names the record and its amount; more count them; the type and priority are the category's |
| Sync.SalaryEvent | App.tsx:174-196 | a salary notification only with a cache and a non-empty history whose first statement's month or year differs from the baseline's; high priority, naming month and year |
| Sync.DetailChangeSilent | App.tsx:179 | a changed statement with an unchanged month and year raises nothing |
| Sync.FirstSyncSilent | App.tsx:125 | without a cached snapshot a cycle raises nothing |
| Sync.EventsSpec | App.tsx:115-196 | at most four notifications; one is high exactly when the salary check fires; the cycle fails exactly when a cached or fetched ledger record has no name |
| Sync.SecondSyncSilent | App.tsx:158-196 | comparing a snapshot with itself raises nothing |
| Sync.BaselineOrderIrrelevant | App.tsx:127-128 | reordering the cached ledger lists does not change the notifications |
| Sync.LedgerEventPermutation | App.tsx:127-156 | reordering one freshly fetched ledger list does not change that category's notification |
| Sync.LatestOrderIrrelevant | App.tsx:127-171 | reordering the freshly fetched ledger lists does not change the notifications |
| Portal.Settle | App.tsx:101-229 | a failed fetch fails the cycle; a successful cycle carries the fetched snapshot |
| Portal.StampEvents | App.tsx:133-194 | the pushes of a cycle build exactly the stamped events in order |
| Portal.Announce | App.tsx:208-227 | a cycle posts its stamped events, or, for a manual refresh with none, the "up to date" entry; the sound is high exactly when some event is high, and there is none without events |
| Portal.StampedHigh | App.tsx:210 | some pushed notification is high exactly when some event is high |
| Portal.App.constructor | App.tsx:16-39 | the app mounts on the welcome screen, logged out, on the profile tab, with the welcome notification |
| Portal.App.Refresh | App.tsx:97-234 | without an employee nothing happens; on failure the state is kept and only a manual refresh alerts; on success the employee and cache become the snapshot, `lastUpdate` is now, the new notifications are prepended and the sound matches the highest priority |
| Portal.App.MarkNotificationsRead | App.tsx:257-263 | only the notification log changes, to its marked form |
| Portal.App.ClearAll | App.tsx:265-267 | the log is emptied, nothing is unread, and nothing else changes |
| Portal.App.Logout | App.tsx:251-255 | logged out, back on the welcome screen and the profile tab; the log and the cache stay |
| Portal.App.Enter | App.tsx:302 | leaves the welcome screen and changes nothing else |
| Portal.App.LoginSucceeded | App.tsx:303 | the employee becomes the logged-in one and nothing else changes |
| Portal.CycleSpec | App.tsx:97-234 | a successful cycle keeps the employee's id and raises at most four notifications, none without a cache entry |
| Portal.PostedUnread | App.tsx:208-227 | the unread count grows by the number of events, or by one for a manual refresh with none |
| Portal.SecondCycleSilent | App.tsx:206 | after a successful cycle has cached a snapshot, fetching the same snapshot again raises nothing |
| Portal.UnnamedRecordBlocks | App.tsx:113 | once a snapshot with an unnamed ledger record is cached, refreshing it fails every time |
| Welcome.NextPrev | components/WelcomeScreen.tsx:50-53 | going forward then back, or back then forward, returns to the same slide |
| Welcome.FullRound | components/WelcomeScreen.tsx:38-43 | three ticks show the same slide again, and fewer do not |
| Welcome.Swiped | components/WelcomeScreen.tsx:48-55 | travel past 75 leftwards goes forward, past 75 rightwards goes back, anything shorter stays |
| Welcome.StartTouch | components/WelcomeScreen.tsx:46 | touch start records only the start position |
| Welcome.MoveTouch | components/WelcomeScreen.tsx:47 | touch move records only the end position |
| Welcome.EndTouch | components/WelcomeScreen.tsx:48-55 | touch end moves the slide by the swipe and keeps the positions |
| Welcome.TapUsesLastEnd | components/WelcomeScreen.tsx:46-55 | a tap is judged against the end position the previous gesture left |
| Welcome.TapAdvances | components/WelcomeScreen.tsx:46-55 | a tap at x = 200 on the fresh screen advances the slide |
| Welcome.StartTouchReset | components/WelcomeScreen.tsx:46 | the corrected touch start records the start as the end position too |
| Welcome.TapKeepsSlide | components/WelcomeScreen.tsx:46-55 | with the corrected touch start, a tap never changes the slide |
| Welcome.SwipeFollowsTravel | components/WelcomeScreen.tsx:46-55 | a gesture that moves goes by its own travel alone |
| Welcome.SwipeBackRestores | components/WelcomeScreen.tsx:46-55 | a swipe forward followed by an equal swipe back restores the slide |
| Welcome.Carousel.constructor | components/WelcomeScreen.tsx:33-35 | the carousel mounts on slide 0 with both positions 0 |
| Welcome.Carousel.Tick | components/WelcomeScreen.tsx:40 | a timer tick advances the slide and keeps the positions |
| Welcome.Carousel.TouchStart | components/WelcomeScreen.tsx:46 | the handler's new state is the as-written touch start |
| Welcome.Carousel.TouchMove | components/WelcomeScreen.tsx:47 | the handler's new state is the touch move |
| Welcome.Carousel.TouchEnd | components/WelcomeScreen.tsx:48-55 | the two sequential tests give the new state of the touch end |

## Left out

- The network. `Portal.App.Refresh` takes what `fetchEmployeeData` settled
  to, and `DataService.FetchEmployeeData` takes the six settled responses.
  Not modelled:
  - the cache-busting `_t` parameter and the request options;
  - the timing of `Promise.all`;
  - a failing `res.text()`.
- The order of failed requests. A rejected request is reported before any
  bad status, because `Promise.all` rejects first. Among bad statuses the
  first in request order is reported.
- Concurrency. The model runs each refresh cycle atomically. In the app, an
  automatic refresh (the 15-second interval and window focus) can interleave
  with a manual one across the `await`, and both can compare against the
  same cache.
- Locale and clock services are parameters (`Locale`, `Clock`):
  - `Date.now()` is read once per cycle;
  - `Math.random()` is a sequence of draws in [0, 1);
  - the Arabic month name, the current year, `toLocaleTimeString`,
    `toLocaleString` for amounts, and `encodeURIComponent`.
- Floating point. An amount is kept as the exact decimal literal `parseFloat`
  reads. A double prints such a literal back exactly when the literal is
  the shortest decimal that rounds to that double; every literal of at
  most 15 significant digits is, and many longer ones are too
  (`1234567890123456`). Not modelled:
  - rounding of other literals
    (`parseFloat("9007199254740993")` is 9007199254740992);
  - JavaScript's exponent notation when printing amounts below 1e-6
    (`0.0000001` prints as `1e-7`) or of 1e21 or more.
- Amounts.AmountText: prints the plain decimal text. It agrees with
  JavaScript's `${amount}` when the amount is zero, or when its magnitude
  lies between 1e-6 and 1e21 and its literal is the shortest decimal that
  rounds to its double (which holds at least for amounts of at most 15
  significant digits).
- Notifications.Stamp: the id is the exact real `now + random`. In the app
  `Date.now() + Math.random()` is a double, spaced about 2^-12 apart at
  current epoch milliseconds. The sum can round up to `now + 1`, and two
  draws of one cycle can round to the same id; `handleMarkRead` then marks
  both. The bound [now, now + 1) holds only for the exact sum.
- String order. `DataService.Less` compares characters by code point, where
  JavaScript compares UTF-16 code units. The two agree on every text outside
  the supplementary planes.
- DataService.SortByDate: the comparator is inconsistent when a statement
  has no date or two dates are equal. The model is one valid order, a stable
  insertion sort; the engine's order may differ there.
  `DataService.SortStrictlyDescending` shows that with distinct dates every
  correct sort agrees.
- `JSON.stringify`/`JSON.parse` of the snapshot.
  - Storage is a map from key to snapshot, and the `!==` test before
    `setEmployee` is structural equality. A snapshot round-trips through
    JSON because its fields are strings, finite numbers, arrays and
    possibly missing values.
  - A cache entry this code did not write (corrupt JSON, missing lists) is
    not modelled.
- Notifications.MarkRead: an id is falsy when it is absent or 0. NaN ids
  are not modelled, since ids come from `Date.now()`.
- The sound and vibration are reduced to the `Feedback` value:
  - the Web Audio tones;
  - `navigator.vibrate`;
  - the sound-enabled setting.
- Presentation:
  - the `isRefreshing` spinner, the bell animation and the notification
    center's visibility;
  - the theme, the settings tab's other controls, the tab ripple and all
    rendering;
  - the login screen's own request;
  - the welcome screen's texts and images, and the 5000 ms period (one
    `Tick` is one period).
- Integer widths. Every integer the core uses is unbounded in the model.
  JavaScript numbers stay exact for every index, count and `Date.now()`
  value the core handles. The fractional notification id is the exception
  noted under `Notifications.Stamp`.

## Findings

| source | as written | input that shows it | evidently intended | confidence | as-written member | corrected member |
|---|---|---|---|---|---|---|
| components/WelcomeScreen.tsx:46-55 | `handleTouchStart` records only `touchStart`; `touchEnd` keeps the previous gesture's last position (0 after mounting) | a tap at x = 200 on the freshly mounted screen, with no touch move: 200 - 0 > 75, so the slide advances | a touch that does not move leaves the slide where it is (reset `touchEnd` on touch start) | medium, not executed | Welcome.TapAdvances | Welcome.TapKeepsSlide |
