# Appointment booking: a Dafny model

The system is a small appointment-booking application on AWS. An
`Appointments` DynamoDB table holds one item per slot. Each item has
`appointmentId`, `appointmentDate`, `appointmentTime` and `status` (AVAILABLE,
PENDING, ACCEPTED, DECLINED), and a booked slot also has the patient's email,
name and notes. The parts modelled here are:

- the seeding script `populate_db.py`, which creates nine AVAILABLE slots on
  each weekday of the next thirteen days and never overwrites an existing id;
- the two listing Lambdas: a paginated scan that sorts the available items by
  date and time, and a cache-aside variant that answers from the Redis key
  `appointments:available` and otherwise scans, renames the fields and caches
  the result for sixty seconds;
- the booking Lambda, which validates the request, builds a SET expression and
  moves a slot from AVAILABLE to PENDING with a conditional update (409 when
  the slot is not available);
- the admin status Lambda, which sets a status only on an existing item and
  starts a Step Functions workflow for ACCEPTED and DECLINED;
- the phase-1 booking page (`phase_1/frontend/app.js`): 12-hour time labels,
  the local-time "in the past" test, the memoised filter, the time options,
  the e-mail check, HTML escaping and the single-flight refresh;
- the patient page (`patient/app.js`): normalising the different slot shapes,
  the filter and search, the AVAILABLE-first ordering, loading and booking.

Layout, one module per file:

| file | module | models |
|---|---|---|
| `json.dfy` | `Outcomes`, `JsonValues` | Option/Result; JSON values, member lookup, JavaScript and Python truthiness |
| `text.dfy` | `Text` | `trim`, ASCII case, lexicographic order, decimal strings, `join`, `replaceAll` |
| `sorting.dfy` | `Sorting` | sorting by a total preorder (sorted and a permutation) |
| `appointments.dfy` | `Appointments` | table items, the `Table` class, Lambda responses, the AVAILABLE filter |
| `time_labels.dfy` | `TimeLabels` | `parseTimeString`, `timeToMinutes` |
| `local_calendar.dfy` | `LocalCalendar` | `split`, `parseInt`, and `new Date(y, m, d, h, mi)` on the local clock (ECMAScript MakeDay/MakeTime) |
| `client_rules.dfy` | `ClientRules` | the pure rules of the phase-1 page |
| `client_board.dfy` | `ClientBoard` | the phase-1 page's state: transitions and the `Board` class |
| `patient_client.dfy` | `PatientClient` | the patient page: pure rules and the `PatientPage` class |
| `book_lambda.dfy` | `BookLambda` | the booking Lambda |
| `status_lambda.dfy` | `StatusLambda` | the status-update Lambda |
| `slot_listing.dfy` | `SlotListing` | the paginated listing Lambda |
| `cached_listing.dfy` | `CachedListing` | the Redis cache-aside listing Lambda |
| `seeder.dfy` | `Seeder` | the seeding script |
| `integration.dfy` | `Integration` | how the two pages read what the two listing Lambdas return |

The code that updates state in place is modelled as classes with `modifies`
clauses:

- the DynamoDB table is `Appointments.Table`;
- the Redis store is `CachedListing.Cache`;
- the workflow log is `StatusLambda.Workflows`;
- the two pages are `ClientBoard.Board` and `PatientClient.PatientPage`.

Each method is proved equal to a function of the old state. The properties
are then proved about that function.

External results are parameters of the model:

- the network, AWS and Redis calls and their faults;
- `json.loads`;
- the clock;
- the texts of exceptions.

## Model

| member | source | states |
|---|---|---|
| Appointments.ItemJson | phase_1/lambda/GetBookingSlotLambda/lambda_function.py:43 | the JSON object of an item has the item's keys, each mapped to its string |
| Appointments.FilterAvailable | phase_1/lambda/GetBookingSlotLambda/lambda_function.py:27-29 | every kept item is AVAILABLE, and each AVAILABLE item is kept as often as it occurs (a multiset equation), others never |
| Text.TrimFrame | phase_1/frontend/app.js:58 | trimming whitespace + tight core + whitespace gives exactly the core |
| Text.TrimTight | patient/app.js:193-195 | trim leaves no whitespace at either end and is idempotent |
| Text.LowerOfUpper | patient/app.js:29-30 | lower-casing an upper-cased string equals lower-casing the string |
| Text.UpperIdempotent | patient/app.js:222 | upper-casing an upper-cased string changes nothing |
| Text.UpperOfLower | patient/app.js:36 | upper-casing a lower-cased string equals upper-casing the string |
| Text.ContainsInfix | patient/app.js:30 | `includes` finds a needle placed between any two strings |
| Text.LexLeTotal | phase_1/lambda/GetBookingSlotLambda/lambda_function.py:41 | string order is total |
| Text.LexLeTransitive | phase_1/lambda/GetBookingSlotLambda/lambda_function.py:41 | string order is transitive |
| Text.LexLeAntisymmetric | phase_1/lambda/GetBookingSlotLambda/lambda_function.py:41 | string order is antisymmetric |
| Text.DecimalRoundTrip | phase_1/frontend/app.js:289 | reading back the decimal text of a number gives the number |
| Text.IntToDecimalInjective | phase_1/frontend/app.js:289 | different integers print differently (signs included) |
| Text.ReplaceCharConcat | phase_1/frontend/app.js:162-166 | replacing one character distributes over concatenation |
| Text.ReplaceCharAbsent | phase_1/frontend/app.js:162-166 | replacing a character that does not occur changes nothing |
| Text.ReplaceChar | phase_1/frontend/app.js:162-166 | every character of the result comes from the replacement or is a character of the input other than the replaced one |
| Text.RemoveChars | phase_1/python3/populate_db.py:24 | neither removed character is left, every other character keeps its multiplicity, and a string without them comes back unchanged |
| Text.RemoveCharsConcat | phase_1/python3/populate_db.py:24 | removing the two characters distributes over concatenation |
| Sorting.SortBy | phase_1/frontend/app.js:430-434 | the result is sorted by the comparator and is a permutation of the input |
| Sorting.NoDuplicatesMultiplicity | phase_1/frontend/app.js:267-270 | no duplicates iff every multiplicity is at most one |
| Sorting.PermutationKeepsNoDuplicates | phase_1/frontend/app.js:270 | sorting a duplicate-free list keeps it duplicate-free |
| JsonValues.Member | phase_1/lambda/BookAppointmentLambda/lambda_function.py:31-32 | a member is found iff the value is an object holding the key |
| TimeLabels.SplitLabel | phase_1/frontend/app.js:58 | whatever the match returns is well formed and reassembles to the label |
| TimeLabels.SplitAssemble | phase_1/frontend/app.js:58 | a well-formed label matches back into its own groups (round trip) |
| TimeLabels.ParseTimeAccepts | phase_1/frontend/app.js:57-72 | a well-formed label with surrounding whitespace parses to the 24-hour value of its groups |
| TimeLabels.ParseTimeOfLabel | phase_1/frontend/app.js:57-72 | a bare well-formed label parses to its clock value |
| TimeLabels.ParseTimeIff | phase_1/frontend/app.js:57-59 | parsing succeeds exactly when the trimmed text is a well-formed label |
| TimeLabels.ParseTime | phase_1/frontend/app.js:57-72 | a successful parse comes from a well-formed label equal to the trimmed text, and gives that label's clock value |
| TimeLabels.TwelveHourRule | phase_1/frontend/app.js:65-69 | for hours 1..12 the rule is (12 if PM) + h mod 12, below 24 |
| TimeLabels.TimeToMinutes | phase_1/frontend/app.js:260-264 | the result is +Infinity exactly when the label does not parse |
| TimeLabels.UnparseableLast | phase_1/frontend/app.js:263 | every parseable label sorts strictly before every unparseable one |
| TimeLabels.MinuteOfDay | phase_1/frontend/app.js:260-264 | a label in clock range maps to its minute of the day, below 1440 |
| TimeLabels.HourNotRangeChecked | phase_1/frontend/app.js:61-71 | "25:00 AM" parses to hour 25: there is no range check |
| TimeLabels.MinuteNotRangeChecked | phase_1/frontend/app.js:58-71 | " 9:75pm " parses to 21:75: trimming, one-digit hour, lower-case meridiem, no minute range check |
| TimeLabels.MidnightOffset | phase_1/frontend/app.js:65-66 | "12:00 AM" is minute 0 |
| TimeLabels.NoonOffset | phase_1/frontend/app.js:67-68 | "12:00 PM" is minute 720 |
| TimeLabels.LastMinuteOffset | phase_1/frontend/app.js:67-68 | "11:59 PM" is minute 1439 |
| LocalCalendar.Split | phase_1/frontend/app.js:113 | split gives at least one piece and no piece contains the separator |
| LocalCalendar.SplitJoin | phase_1/frontend/app.js:113 | joining the pieces with the separator gives the string back |
| LocalCalendar.JoinSplit | phase_1/frontend/app.js:113-114 | splitting the join of separator-free parts gives the parts back |
| LocalCalendar.ParseIntDecimal | phase_1/frontend/app.js:116-118 | parseInt reads back the decimal text of any integer, after whitespace and before non-digits |
| LocalCalendar.ParseIntNaN | phase_1/frontend/app.js:116-118 | parseInt gives NaN exactly when no digit follows the optional sign after whitespace |
| LocalCalendar.LocalMoment | phase_1/frontend/app.js:121 | a constructed time value lies within the TimeClip range |
| LocalCalendar.YearLength | phase_1/frontend/app.js:121 | a year has 366 days in a leap year and 365 otherwise |
| LocalCalendar.Epoch | phase_1/frontend/app.js:121 | 1970-01-01 is day 0 |
| LocalCalendar.DayInYear | phase_1/frontend/app.js:121 | the day of a valid date lies inside its year |
| LocalCalendar.DayOrder | phase_1/frontend/app.js:121 | the day number orders valid dates chronologically |
| LocalCalendar.MomentInRange | phase_1/frontend/app.js:121 | for in-range years, valid dates and clock times the moment is defined and is day * ms-per-day + time |
| LocalCalendar.MomentOrder | phase_1/frontend/app.js:121-125 | on valid dates and clock times the moment order is exactly the calendar order of the tuples |
| ClientRules.TextOr | phase_1/frontend/app.js:431 | String of v, or of "" when v is falsy, is empty for a falsy value |
| ClientRules.ParseIntDigits | phase_1/frontend/app.js:116-118 | parseInt of a digit string is its decimal value |
| ClientRules.DateTextSplits | phase_1/frontend/app.js:113-114 | "Y-M-D" of digit strings splits into exactly its three parts |
| ClientRules.IsAppointmentInPast | phase_1/frontend/app.js:106-125 | throws (None) exactly on a truthy non-string date once the time has parsed; a falsy date or time or an unparseable time answers false; true needs a string date of three "-" parts |
| ClientRules.PastOfParts | phase_1/frontend/app.js:106-125 | for a digit date and a well-formed label, the past test is the comparison of the constructed moment with now |
| ClientRules.PastIsCalendarOrder | phase_1/frontend/app.js:106-125 | for a valid date and clock time, "past" holds iff the slot's (y, m, d, h, mi) is at or before now's |
| ClientRules.PastNeedsParts | phase_1/frontend/app.js:107-114 | "past" implies a truthy date and time, a parseable time and a date with three parts |
| ClientRules.PastIsMonotone | phase_1/frontend/app.js:125 | a slot that is past stays past at every later clock reading |
| ClientRules.FilterSlots | phase_1/frontend/app.js:296-302 | every kept slot passes the past, date and time tests |
| ClientRules.ApplyFilter | phase_1/frontend/app.js:296-302 | the filter throws (None) iff some slot is null or makes the past test throw; otherwise it returns the slots FilterSlots keeps |
| ClientRules.FilterIsSubsequence | phase_1/frontend/app.js:296-302 | the filtered list keeps the order of the slots (a subsequence) |
| ClientRules.FilterMultiplicity | phase_1/frontend/app.js:296-302 | each slot is kept as often as it occurs when it passes, never when it fails |
| ClientRules.FilterKey | phase_1/frontend/app.js:289 | the key's text after its last bar is the clock reading, and, for a date without a bar, its text before the first bar is the date |
| ClientRules.FilterKeyInjective | phase_1/frontend/app.js:289 | equal memo keys mean equal date, time, length and clock reading, when the date holds no bar character |
| ClientRules.FilterKeyCollision | phase_1/frontend/app.js:289 | without that condition two different filter states share a key |
| ClientRules.MinutesLeTotalPreorder | phase_1/frontend/app.js:270 | comparing timeToMinutes values is a total preorder (+Infinity ties with itself) |
| ClientRules.SlotLeTotalPreorder | phase_1/frontend/app.js:430-434 | the refresh's comparator is a total preorder |
| ClientRules.SortSlots | phase_1/frontend/app.js:430-434 | the stored list is sorted by date then minutes and is a permutation of the response |
| ClientRules.TimeLeTotalPreorder | phase_1/frontend/app.js:270 | the time-option comparator is a total preorder |
| ClientRules.StatusOfFilter | phase_1/frontend/app.js:308-324 | the status is "Loaded." iff some slot is shown, and the no-slots message iff nothing is stored |
| ClientRules.IsValidEmail | phase_1/frontend/app.js:180-183 | the check holds iff the trimmed text has the e-mail shape |
| ClientRules.EmailPatternShape | phase_1/frontend/app.js:180-183 | the e-mail regular expression holds iff: no whitespace, exactly one "@" not at either end, and a "." after it with text on both sides |
| ClientRules.CanBook | phase_1/frontend/app.js:185-212 | booking is possible iff the trimmed name is non-empty and the trimmed email has the e-mail shape |
| ClientRules.PatientHint | phase_1/frontend/app.js:192-207 | the hint is silent iff booking is possible or both fields are empty; it asks for the name iff only the name is missing; it asks for the email iff the name is present but booking is not possible |
| ClientRules.OnBookClick | phase_1/frontend/app.js:353-365 | a booking is sent iff the id is non-empty and the details are valid, with the id and the trimmed name and email |
| ClientRules.EscapeOne | phase_1/frontend/app.js:160-167 | escaping one character writes its entity |
| ClientRules.EscapeHtml | phase_1/frontend/app.js:160-167 | escaped text contains no <, >, " or ' |
| ClientRules.EscapeHtmlPerCharacter | phase_1/frontend/app.js:160-167 | because "&" is replaced first, escaping is character by character: nothing is escaped twice |
| ClientRules.EscapeHtmlConcat | phase_1/frontend/app.js:160-167 | escaping distributes over concatenation |
| ClientRules.EscapedHasNoMarkup | phase_1/frontend/app.js:160-167 | the per-character reference EscapeEach leaves no <, >, " or ' in its output |
| ClientBoard.Tick | phase_1/frontend/app.js:48-55 | the cached reading moves to now only when more than 1000 ms have passed |
| ClientBoard.TickFreshness | phase_1/frontend/app.js:48-55 | with a clock that does not run backwards the reading is at most 1000 ms old |
| ClientBoard.MemoFilter | phase_1/frontend/app.js:286-306 | a filter that throws leaves the memo as it was; a result is stored with its key; an empty memo filters afresh; a matching key returns the stored list |
| ClientBoard.MemoFilterCorrect | phase_1/frontend/app.js:286-306 | a coherent memo answers exactly what the fresh filter returns, None when it throws, and stays coherent |
| ClientBoard.DistinctTimes | phase_1/frontend/app.js:266-268 | the set holds each truthy time exactly once |
| ClientBoard.TimeOptions | phase_1/frontend/app.js:266-271 | the options are the distinct truthy times, sorted by minutes |
| ClientBoard.UniqueTimes | phase_1/frontend/app.js:266-271 | the loop throws (None) iff some slot is null, and otherwise returns exactly the time options |
| ClientBoard.KeptTimeFilter | phase_1/frontend/app.js:281-283 | the current time filter is kept iff it is non-empty and among the options, otherwise "" |
| ClientBoard.SlotsOnDate | phase_1/frontend/app.js:474-479 | every kept slot is one of the slots; no date gives all slots; a date keeps exactly the slots on it, with multiplicity |
| ClientBoard.Initial | phase_1/frontend/app.js:541-556 | the state init builds is valid |
| ClientBoard.ClearCache | phase_1/frontend/app.js:82-85 | the memo is empty afterwards |
| ClientBoard.Render | phase_1/frontend/app.js:308-324 | slots, filters, options and loading are unchanged, and the clock cache holds the tick of now |
| ClientBoard.RenderFresh | phase_1/frontend/app.js:308-324 | the state stays valid; when no slot throws, the page shows exactly the fresh filter at the updated clock reading, with the status and count lines of that list; when one throws, only the clock reading changes |
| ClientBoard.RenderTimes | phase_1/frontend/app.js:273-284 | for a base without null slots the options are its time options, and the time filter is "" or one of them |
| ClientBoard.StartFetch | phase_1/frontend/app.js:391-402 | nothing happens while loading; without an API URL only the status line changes; otherwise loading starts |
| ClientBoard.CacheLabel | phase_1/frontend/app.js:412-414 | the label is the header when it is non-empty, and never empty |
| ClientBoard.Respond | phase_1/frontend/app.js:404-423 | a rejected request ends the refresh and changes nothing else; a response keeps loading set, clears the memo and records the cache label, then awaits the body when OK and the error text otherwise |
| ClientBoard.ReadText | phase_1/frontend/app.js:422-446 | reading the error text ends the refresh (the throw reaches the finally); nothing else changes |
| ClientBoard.BodySlots | phase_1/frontend/app.js:427-434 | the refresh throws (None) iff the body is an array holding a null; otherwise the list is sorted, a permutation of the array's items and free of nulls; a non-array body gives [] |
| ClientBoard.ReadBody | phase_1/frontend/app.js:427-446 | corrected: the refresh ends; no body changes nothing else; a storable body replaces the slots; a body holding a null is stored unsorted with the memo cleared, and nothing is rendered |
| ClientBoard.ReadBodyOfData | phase_1/frontend/app.js:427-443 | for a storable body the corrected step is: store, clear, rebuild the time options from that date's slots, render |
| ClientBoard.ReadBodyAsWritten | phase_1/frontend/app.js:410-446 | as written: the refresh ends and the slots are replaced, without clearing the memo |
| ClientBoard.DateChange | phase_1/frontend/app.js:474-481 | the date is set; without a null slot the options come from that date's slots; with one the handler throws with the shown list, options, time filter and status unchanged, the memo cleared only when the date is empty |
| ClientBoard.TimeChange | phase_1/frontend/app.js:483-486 | the time is set; slots and options unchanged |
| ClientBoard.DebugChange | phase_1/frontend/app.js:511-519 | slots and filters unchanged |
| ClientBoard.ResetFilters | phase_1/frontend/app.js:488-497 | both filters are emptied; a refresh starts unless one is running |
| ClientBoard.Step | phase_1/frontend/app.js:391-519 | an event is ignored exactly when it is a settlement that is not awaited, or a date containing a bar |
| ClientBoard.StepKeepsValid | phase_1/frontend/app.js:286-519 | every event keeps the state valid; every rendering shows exactly the fresh filter of the stored slots, or the list shown before when the filter throws |
| ClientBoard.StaleAfterRefresh | phase_1/frontend/app.js:410-443 | as written, for slots and a body without nulls, a render during the body read makes a same-length refresh within the second show the old filtered list |
| ClientBoard.StaleWitness | phase_1/frontend/app.js:410-428 | concrete: as written the page shows [a] while storing [b] |
| ClientBoard.FixedWitness | phase_1/frontend/app.js:410-446 | concrete: the corrected step stores [b] and shows [b] |
| ClientBoard.OneSlotBody | phase_1/frontend/app.js:427-434 | a one-element array without null is stored as it is |
| ClientBoard.Board.constructor | phase_1/frontend/app.js:541-576 | init's state, and the first refresh started |
| ClientBoard.Board.GetCurrentTime | phase_1/frontend/app.js:48-55 | the reading is the tick of the last update |
| ClientBoard.Board.ClearFilterCache | phase_1/frontend/app.js:82-85 | the state is ClearCache of the old state |
| ClientBoard.Board.ApplyFilters | phase_1/frontend/app.js:286-306 | returns what the fresh filter of the stored slots returns at the updated reading, None when it throws; only a result is stored in the memo, which stays coherent |
| ClientBoard.Board.RenderSlots | phase_1/frontend/app.js:308-324 | the state is Render of the old state; the shown list is the fresh filter, or the old list when the filter throws |
| ClientBoard.Board.RenderTimeOptions | phase_1/frontend/app.js:273-284 | throws iff the base holds a null, leaving the state as it was; otherwise the state is RenderTimes of the old state |
| ClientBoard.Board.SetTimeOptions | phase_1/frontend/app.js:273-284 | the options are set, and the time filter is kept only when KeptTimeFilter keeps it |
| ClientBoard.Board.FetchSlots | phase_1/frontend/app.js:391-408 | the state is StartFetch of the old state |
| ClientBoard.Board.ReceiveResponse | phase_1/frontend/app.js:404-425 | the state is Respond of the old state |
| ClientBoard.Board.ReceiveErrorText | phase_1/frontend/app.js:422-446 | the state is ReadText of the old state |
| ClientBoard.Board.ReceiveBody | phase_1/frontend/app.js:427-446 | the state is ReadBody of the old state; the shown list is the fresh filter, or the old list when the filter throws |
| ClientBoard.Board.EndRefresh | phase_1/frontend/app.js:444-446 | loading ends and nothing else changes |
| ClientBoard.Board.RenderStored | phase_1/frontend/app.js:439-443 | the state is Render of RenderTimes of the old state on that date's slots |
| ClientBoard.Board.StoreSlots | phase_1/frontend/app.js:428-434 | corrected: throws iff the body is an array holding a null, and then stores its items unsorted; otherwise stores BodySlots of the body; the memo is cleared with the slots either way |
| ClientBoard.Board.OnDateChange | phase_1/frontend/app.js:474-481 | the state is DateChange of the old state; the shown list is the fresh filter, or the old list when the filter throws |
| ClientBoard.Board.OnTimeChange | phase_1/frontend/app.js:483-486 | the state is TimeChange of the old state; the shown list is the fresh filter, or the old list when the filter throws |
| ClientBoard.Board.PersistDebug | phase_1/frontend/app.js:511-519 | the state is DebugChange of the old state; the shown list is the fresh filter, or the old list when the filter throws |
| ClientBoard.Board.OnResetFilters | phase_1/frontend/app.js:488-494 | the state is ResetFilters of the old state |
| PatientClient.FirstPresent | patient/app.js:17-20 | `a ?? b ?? d` is the first value that is neither null nor missing, else d |
| PatientClient.NormalizeSlot | patient/app.js:13-22 | a non-object gives "", "", "" and UNKNOWN; each canonical member that is present and not null is taken; UNKNOWN when neither status member is |
| PatientClient.NormalizeRoundTrip | patient/app.js:13-22 | normalising a slot written with its canonical names gives the slot back |
| PatientClient.NormalizeDefaults | patient/app.js:17-20 | a value with none of the known members gives "", "", "" and UNKNOWN |
| PatientClient.NullMemberSkipped | patient/app.js:17 | a present but null member falls through to the next one |
| PatientClient.NormalizeCachedShape | patient/app.js:17-20 | {slotId, date, time} gives those three values and status UNKNOWN |
| PatientClient.NormalizeAll | patient/app.js:60 | the map succeeds iff no element is null, and then maps each element |
| PatientClient.AdaptSlots | patient/app.js:57-60 | an array is normalised; null throws; other non-objects give [] |
| PatientClient.AdaptWrapped | patient/app.js:59 | {slots: [...], ...} reads the same as the bare array |
| PatientClient.ListSlots | patient/app.js:59 | an array is normalised; anything else throws |
| PatientClient.MatchesFilters | patient/app.js:24-33 | no filters match everything; a match with a date has exactly that date; a match with a search text is no longer than the haystack |
| PatientClient.SearchIgnoresCase | patient/app.js:28-32 | the search ignores the case of the search text, and empty filters match everything |
| PatientClient.SearchFindsDate | patient/app.js:25-31 | a slot is found by its own date, both as date filter and as search text |
| PatientClient.BadgeClass | patient/app.js:35-40 | falsy status gives "na"; "available"/"pending" exactly for statuses that upper-case to AVAILABLE/PENDING |
| PatientClient.BadgeAgreesWithSelect | patient/app.js:35-40 | for a string status the badge is "available" iff the Select button is enabled |
| PatientClient.PatientLeTotalPreorder | patient/app.js:92-99 | the rendering comparator is a total preorder |
| PatientClient.FilterMatching | patient/app.js:89-90 | exactly the matching slots, with multiplicity |
| PatientClient.AvailableSlots | patient/app.js:172 | exactly the AVAILABLE slots, with multiplicity |
| PatientClient.Rendered | patient/app.js:89-99 | the matching slots, with multiplicity, available first, each group ordered by "date time" |
| PatientClient.AppendRows | patient/app.js:109-150 | the rows are the listed slots up to the first badge that throws, and the loop throws iff some badge throws |
| PatientClient.AppendedRowsOf | patient/app.js:109-150 | the rendered rows are determined by the list, and are all of it iff no badge throws |
| PatientClient.CountAvailable | patient/app.js:172 | the number of AVAILABLE slots is at most the total, and equals it iff every slot is available |
| PatientClient.CountIsFilterLength | patient/app.js:172 | the count equals the number of AVAILABLE slots kept by the filter |
| PatientClient.ErrorText | patient/app.js:236-238 | err.message, or else the fallback, is never empty with a non-empty fallback |
| PatientClient.LoadOutcome | patient/app.js:160-182 | without a URL the message is the config error; success iff the reply parsed and adapted, with those slots |
| PatientClient.BookingStatus | patient/app.js:222 | a truthy status is chosen, else a truthy bookingStatus, else PENDING; the result is the chosen value upper-cased, and there is none when the chosen value is not a string or the reply is null; the result is already upper-case |
| PatientClient.BookOutcome | patient/app.js:218-240 | success iff a reply was read and its status could be computed; then a truthy message is shown as its string, else "Booking submitted. Current status: " with the upper-cased status; errors carry a message; {} shows the default text |
| PatientClient.StatusShownUpperCased | patient/app.js:222-227 | a reply holding only a non-empty string status shows that status upper-cased in the default text |
| PatientClient.BookLambdaReplyShown | patient/app.js:222-227 | the booking Lambda's own reply shows "Booking submitted." |
| PatientClient.PatientPage.constructor | patient/app.js:79-80 | no slots, no selection, Book disabled |
| PatientClient.PatientPage.RenderSlots | patient/app.js:82-150 | the shown list is Rendered of the slots, the date and the trimmed search; nothing else changes |
| PatientClient.PatientPage.OnFilterInput | patient/app.js:246-247 | the filters are set and the list re-rendered |
| PatientClient.PatientPage.SelectSlot | patient/app.js:152-157 | the slot is selected, Book enabled, the ready message shown |
| PatientClient.PatientPage.LoadSlots | patient/app.js:160-182 | the slots and the status bar follow LoadOutcome, and the list is re-rendered |
| PatientClient.PatientPage.SubmitBooking | patient/app.js:184-241 | no selection, or a blank name or email: nothing sent; otherwise the trimmed payload is sent, and success clears the selection and reloads, while failure keeps it and re-enables Book |
| BookLambda.RequestBody | phase_1/lambda/BookAppointmentLambda/lambda_function.py:25-29 | a falsy body reads as `loads("{}")`; a truthy non-string body is used as it is; a non-empty string is parsed |
| BookLambda.Validate | phase_1/lambda/BookAppointmentLambda/lambda_function.py:31-39 | accepted requests read back the string id, email, name and notes of the body; a falsy id or email is refused; a non-object or a non-string field crashes |
| BookLambda.ValidateRequest | phase_1/lambda/BookAppointmentLambda/lambda_function.py:31-39 | a well-formed request is read back field for field |
| BookLambda.SetExpressionSnoc | phase_1/lambda/BookAppointmentLambda/lambda_function.py:51-57 | appending a clause appends ", " and its text |
| BookLambda.BaseExpressionText | phase_1/lambda/BookAppointmentLambda/lambda_function.py:43 | the initial text is the SET expression of the status and email clauses |
| BookLambda.BuildUpdate | phase_1/lambda/BookAppointmentLambda/lambda_function.py:43-57 | the expression is that of the clauses chosen by the name and notes, and the values hold exactly their placeholders |
| BookLambda.ExpressionText | phase_1/lambda/BookAppointmentLambda/lambda_function.py:43-57 | the text is the base text followed by the name and notes suffixes when present |
| BookLambda.ExpressionFromParts | phase_1/lambda/BookAppointmentLambda/lambda_function.py:51-57 | the same, for any texts of the base and the two optional clauses |
| BookLambda.ValuesMatchExpression | phase_1/lambda/BookAppointmentLambda/lambda_function.py:45-65 | the placeholders used by the update and condition are exactly the supplied values |
| BookLambda.Booked | phase_1/lambda/BookAppointmentLambda/lambda_function.py:43-57 | PENDING with the email, and the name and notes when given; every other attribute kept |
| BookLambda.UpdateEffect | phase_1/lambda/BookAppointmentLambda/lambda_function.py:59-66 | applying the built expression to an item gives exactly the booked item |
| BookLambda.Handle | phase_1/lambda/BookAppointmentLambda/lambda_function.py:23-77 | the status is 200, 400, 409 or 500, and anything but 200 leaves the table unchanged |
| BookLambda.BookingIsConditional | phase_1/lambda/BookAppointmentLambda/lambda_function.py:59-74 | success iff the request is valid, there is no fault and the slot is AVAILABLE, and then exactly that item is booked |
| BookLambda.ResponseMapping | phase_1/lambda/BookAppointmentLambda/lambda_function.py:23-77 | every request outcome maps to its reply: crash 500, missing field 400, DynamoDB fault 500, unavailable slot 409, booked 200 |
| BookLambda.NoDoubleBooking | phase_1/lambda/BookAppointmentLambda/lambda_function.py:59-71 | a second booking of the same slot is refused with 409 |
| BookLambda.EmptyBodyRefused | phase_1/lambda/BookAppointmentLambda/lambda_function.py:25-35 | a request without a body is refused with 400 |
| BookLambda.Handler | phase_1/lambda/BookAppointmentLambda/lambda_function.py:23-77 | the new table and the response are those of Handle |
| StatusLambda.RequestBody | phase_2/lambda/UpdateAppointmentStatus.py:9-12 | without a body the event itself; a non-string body is used directly |
| StatusLambda.RequiredFields | phase_2/lambda/UpdateAppointmentStatus.py:14-15 | both fields are read iff the body is an object holding both keys |
| StatusLambda.Triggers | phase_2/lambda/UpdateAppointmentStatus.py:29-31 | a workflow starts iff the ARN is set and non-empty and the status is ACCEPTED or DECLINED |
| StatusLambda.ErrorReply | phase_2/lambda/UpdateAppointmentStatus.py:53-71 | 404 iff the error text names ConditionalCheckFailedException, otherwise 500 |
| StatusLambda.Handle | phase_2/lambda/UpdateAppointmentStatus.py:8-71 | a returned reply has the two headers; a raised handler changes nothing |
| StatusLambda.StatusSetOnlyIfExists | phase_2/lambda/UpdateAppointmentStatus.py:17-62 | an existing id gets the new status, and 200 unless a workflow start fails; a missing id is left absent and answered 404 |
| StatusLambda.ReplyMapping | phase_2/lambda/UpdateAppointmentStatus.py:14-71 | for a request with both fields: a non-string field gives the validation error reply, an update fault its error reply, an existing id the new status, and 200 iff no step failed |
| StatusLambda.WorkflowRule | phase_2/lambda/UpdateAppointmentStatus.py:28-38 | the log grows by one execution, with id and status, iff the update succeeded, the status is ACCEPTED or DECLINED and an ARN is set |
| StatusLambda.StartFailureAfterUpdate | phase_2/lambda/UpdateAppointmentStatus.py:28-71 | a failing workflow start answers 500 although the status was already written |
| StatusLambda.MissingKeyRaises | phase_2/lambda/UpdateAppointmentStatus.py:14-15 | a request without appointmentId or status raises out of the handler |
| StatusLambda.Handler | phase_2/lambda/UpdateAppointmentStatus.py:8-71 | the table, the log and the result are those of Handle |
| SlotListing.Collected | phase_1/lambda/GetBookingSlotLambda/lambda_function.py:27-38 | every collected item is AVAILABLE |
| SlotListing.CollectedMultiplicity | phase_1/lambda/GetBookingSlotLambda/lambda_function.py:27-38 | an item is collected as often as it occurs on the pages, when AVAILABLE |
| SlotListing.KeyLe | phase_1/lambda/GetBookingSlotLambda/lambda_function.py:41 | different dates compare as text; on the same date the times compare as text |
| SlotListing.KeyLeTotalPreorder | phase_1/lambda/GetBookingSlotLambda/lambda_function.py:41 | the tuple key order is a total preorder |
| SlotListing.Listing | phase_1/lambda/GetBookingSlotLambda/lambda_function.py:41 | sorted by (date, time) and a permutation of the collected items |
| SlotListing.Handle | phase_1/lambda/GetBookingSlotLambda/lambda_function.py:24-46 | every reply carries the CORS headers; 200 with the sorted listing iff no scan call raises, and otherwise 500 with the error text |
| SlotListing.ListingIsTheAvailableItems | phase_1/lambda/GetBookingSlotLambda/lambda_function.py:27-43 | every listed item is AVAILABLE, and each AVAILABLE item on the pages is listed as often as it occurs |
| SlotListing.TextOrderOfTimes | phase_1/lambda/GetBookingSlotLambda/lambda_function.py:41 | the key compares times as text: "01:00 PM" sorts before "09:00 AM" |
| SlotListing.ScanAll | phase_1/lambda/GetBookingSlotLambda/lambda_function.py:27-38 | the loop collects the items of all pages, or fails when a scan raises |
| SlotListing.Handler | phase_1/lambda/GetBookingSlotLambda/lambda_function.py:24-46 | the reply is that of Handle |
| CachedListing.Renamed | phase_1/lambda/GetBookingSlotLambda/lambda_function1.py:53-57 | renaming succeeds iff the item has id, date and time |
| CachedListing.RenamedAll | phase_1/lambda/GetBookingSlotLambda/lambda_function1.py:51-57 | succeeds iff every item renames, and then renames each in order |
| CachedListing.RenamedFields | phase_1/lambda/GetBookingSlotLambda/lambda_function1.py:53-57 | a renamed item has exactly slotId, date and time, and no status |
| CachedListing.RenameItems | phase_1/lambda/GetBookingSlotLambda/lambda_function1.py:51-57 | the loop returns RenamedAll of the items |
| CachedListing.Handle | phase_1/lambda/GetBookingSlotLambda/lambda_function1.py:22-74 | a returned reply is 200 |
| CachedListing.HitServesCache | phase_1/lambda/GetBookingSlotLambda/lambda_function1.py:26-39 | the answer is a HIT iff there is a client, no read error and a cached value; a hit changes nothing and returns that value |
| CachedListing.MissCachesResult | phase_1/lambda/GetBookingSlotLambda/lambda_function1.py:43-74 | a miss returns the renamed available items and caches exactly them for 60 s, if a client is there and the write works |
| CachedListing.HitAfterMiss | phase_1/lambda/GetBookingSlotLambda/lambda_function1.py:26-64 | after a miss that wrote the cache, the next call is a HIT with the same slots |
| CachedListing.Handler | phase_1/lambda/GetBookingSlotLambda/lambda_function1.py:22-74 | the new store and the result are those of Handle |
| Seeder.Compact | phase_1/python3/populate_db.py:24 | the compact time has no ":" and no " " |
| Seeder.SlotId | phase_1/python3/populate_db.py:24 | the id is "slot-", the date, "-" and the compact time |
| Seeder.SlotItem | phase_1/python3/populate_db.py:29-34 | the item is AVAILABLE with the id, date and time |
| Seeder.DayPuts | phase_1/python3/populate_db.py:23 | one put per time, in order |
| Seeder.AttemptKeeps | phase_1/python3/populate_db.py:26-40 | one attempt keeps every item and adds at most the put's own item |
| Seeder.SeedKeeps | phase_1/python3/populate_db.py:15-40 | a run never overwrites an item, and every added item is the item of one of the puts |
| Seeder.SeedCount | phase_1/python3/populate_db.py:13-37 | slots_created grows by the number of ids added |
| Seeder.Seed | phase_1/python3/populate_db.py:15-40 | a run keeps every stored item, and slots_created is the number of ids added, at most one per put |
| Seeder.SeedCovers | phase_1/python3/populate_db.py:26-40 | after a run every put's id is present unless it was rejected |
| Seeder.SeedNoOp | phase_1/python3/populate_db.py:35-40 | on a table holding every id, the run changes nothing |
| Seeder.SeedIdempotent | phase_1/python3/populate_db.py:35 | a second run after a run without failures changes nothing |
| Seeder.SeedFresh | phase_1/python3/populate_db.py:35-37 | with fresh, distinct ids every put counts |
| Seeder.SeedAppend | phase_1/python3/populate_db.py:15-40 | a run over a + b is the run over a followed by the run over b |
| Seeder.PutsLength | phase_1/python3/populate_db.py:15-23 | nine puts per weekday |
| Seeder.PutsDates | phase_1/python3/populate_db.py:15-23 | every put is dated by one of the days and timed by one of the nine times |
| Seeder.SlotIdInjective | phase_1/python3/populate_db.py:24 | an id gives back its (fixed-length) date and its compact time |
| Seeder.CompactShape | phase_1/python3/populate_db.py:24 | an hh:mm XM time compacts to its six other characters |
| Seeder.CompactTimesDistinct | phase_1/python3/populate_db.py:7-24 | the nine times compact to nine different texts |
| Seeder.CalendarIdsDistinct | phase_1/python3/populate_db.py:15-24 | with distinct ten-character dates, all ids are different |
| Seeder.CalendarKeptDays | phase_1/python3/populate_db.py:15-19 | thirteen consecutive days hold nine or ten weekdays |
| Seeder.ThirteenDays | phase_1/python3/populate_db.py:15-19 | ten weekdays when starting on Monday or Sunday, nine otherwise |
| Seeder.FreshDatabase | phase_1/python3/populate_db.py:6-42 | on an empty table without failures, 9 slots per weekday: 81 or 90 |
| Seeder.SlotIdExample | phase_1/python3/populate_db.py:24 | "2025-01-06" at "09:00 AM" is "slot-2025-01-06-0900AM" |
| Seeder.PutDay | phase_1/python3/populate_db.py:23-40 | the inner loop's table and count are those of the puts of the day |
| Seeder.Populate | phase_1/python3/populate_db.py:6-42 | the outer loop's table and count are those of Seed |
| Integration.PageHeader | phase_1/frontend/app.js:412-414 | the page reads a header only when it was sent; a cross-origin reply without Access-Control-Expose-Headers reads null; a same-origin reply reads the header as sent |
| Integration.BoardIgnoresCachedListing | phase_1/frontend/app.js:412-428 | the admin page shows no slots from the cached listing; the reply sends X-Cache without Access-Control-Expose-Headers, so a cross-origin page shows NOT_EXPOSED_BY_CORS and a same-origin page shows HIT or MISS |
| Integration.BoardLabelOnListing | phase_1/frontend/app.js:412-414 | the paginated listing sends no X-Cache, so the board shows NOT_EXPOSED_BY_CORS for it from any origin |
| Integration.PatientPageOnRenamed | patient/app.js:13-60 | the patient page reads a renamed list as one UNKNOWN slot per item, none selectable |
| Integration.RenamedSlot | patient/app.js:17-20 | one renamed item normalises to its id, date and time with status UNKNOWN |
| Integration.PatientPageOnCacheMiss | patient/app.js:57-60 | a cache miss shows one non-selectable slot per available item |
| Integration.ItemSlotAvailable | patient/app.js:20 | an AVAILABLE item stays AVAILABLE and selectable on the patient page |
| Integration.PatientPageOnListing | patient/app.js:57-60 | the plain listing shows one selectable slot per listed item, in order |

## Left out

- The DOM work is not modelled: innerHTML, button labels, toasts and aria attributes. The page models keep only the values that decide what is shown: the shown list, the status and count lines, the notices, and the Book/Select enabled flags.
- `localStorage`, `fmtLocal`, the environment pill, `debounce`/`persistPatient` and the debug panel's click-away listeners are not modelled. They are display only.
- `saveLocal` and `loadLocal` are not modelled. Stored details only pre-fill inputs, which the models take as parameters.
- Network, AWS, Redis and Step Functions calls are parameters: replies, faults, the error texts, and the first scan page. Their internal behaviour is not modelled.
- `json.loads` and `res.json()` are parameters. A body is a parsed `Json` value or `None`. JSON text is not modelled.
- The clock (`Date.now()`, `datetime.now()`) is a parameter. The seeding script's days are given as a sequence of dates with their weekdays; `strftime` and `timedelta` are not modelled.
- Time zones and daylight-saving time are not modelled. The appointment's moment and the clock reading `now` are both counted on the local wall clock, so the offset between local time and UTC drops out.
- Redis expiry is not modelled: an entry records its 60-second TTL but never disappears.
- The cache holds the parsed value rather than the JSON text that `json.dumps` writes.
- The cached listing reads only the first scan page, as the code does. DynamoDB's paging is not modelled beyond that.
- Sorting.SortBy: sortedness and permutation are proved; the stability of Array.prototype.sort and list.sort is not.
- ClientBoard.BodySlots: when the array holds a null, the comparator throws part-way through `Array.prototype.sort`. The order the engine leaves then is not specified, so the model stores the array in the order received.
- ClientBoard.Step: a date containing "|" is refused. The date input yields `yyyy-mm-dd`, and with a bar in the date two filter states can share a memo key (ClientRules.FilterKeyCollision).
- ClientBoard.Initial: `init` reads the clock twice, with `new Date()` and then `Date.now()`. The model takes both as one reading, so the two cached values start equal.
- ClientBoard.DistinctTimes: the model compares JSON values by structure, while the `Set` of `uniqueTimes` compares objects and arrays by identity. Two object or array times that look alike are one option in the model and two on the page. String, number and boolean times are compared as the `Set` compares them.
- ClientBoard.TimeOptions: built on DistinctTimes, so object or array times that look alike give one option, where the page lists one per slot.
- ClientBoard.UniqueTimes: returns TimeOptions, with the same gap for object and array times.
- ClientRules.IsAppointmentInPast: `state.debugOpen` and the debug console log are not modelled. That includes the RangeError `toISOString()` raises on an Invalid Date (a date such as "x-y-z") while the debug panel is open, which makes the filter throw on the page.
- ClientRules.ApplyFilter: `isAppointmentInPast` calls `getCurrentTime()` again for each slot. The model takes one clock reading for the whole filter, as if `Date.now()` did not move during one synchronous render.
- Integration.PageHeader: the header rule reads header names as written, without case folding, and it checks only that Access-Control-Expose-Headers mentions the name. The safelisted headers and the rest of the CORS rules are not modelled.
- Appointments.Item: an item maps attribute names to strings. DynamoDB attribute types other than String are not modelled. Every writer in the system writes strings.
- JsonValues.JNum, JsonValues.JsString: JSON numbers are integers. `res.json()` and `json.loads` also read fractions and exponents, and JavaScript's `String()` writes 1.5 as "1.5" and magnitudes of 1e21 or more in exponent form, while the model prints every number in plain decimal digits. Only a date, time or status that arrives as a number is affected, and the seeding script writes strings only.
- `localeCompare` is modelled as code-point order, as if in a plain locale.
- Unicode case mapping is modelled on ASCII letters only.
- Interleaving is modelled only at the three awaits of the phase-1 refresh: the response, `res.json()` and `res.text()`. A double submission in the patient page is not modelled.
- The failure message `init` shows when the first refresh rejects is not modelled. The booking toasts are not modelled either.
- `safeFetch`'s rewording of a network error is outside the model; a rejected fetch is one `NetworkError`.
- `bookAppointment` (phase 1) is modelled only through `ClientRules.OnBookClick`: the payload it sends. Its reply handling is not modelled.
- The patient page's `apiBookAppointment` reads a non-JSON body as `{}`. This is modelled at the level of `BookReply`.

## Findings

| source | as written | input that shows it | evidently intended | confidence | as-written member | corrected member |
|---|---|---|---|---|---|---|
| phase_1/frontend/app.js:410-428 | the filter memo is cleared when the response arrives, before `await res.json()`, and not when `state.allSlots` is replaced. A render in between (a debug toggle) stores a memo for the old slots. If the new list has the same length and the render falls in the same second, the old filtered list is shown. | stored slots [a]; the body arrives as [b] (no date or time on either) while the debug checkbox is toggled | the memo is cleared together with the replacement of the slots | not executed | ClientBoard.ReadBodyAsWritten, ClientBoard.StaleWitness | ClientBoard.ReadBody, ClientBoard.FixedWitness, ClientBoard.Board.ReceiveBody, ClientBoard.Board.StoreSlots |
