# OttoHello visitor lifecycle, modelled in Dafny

OttoHello is a front-desk kiosk written in React. A visitor checks in by filling in a form:
name, reason for the visit, the person they are meeting, and an optional photo. The form
inserts a row into a remote `visitors` table. The app also keeps a lightweight local list of
visits in browser storage. At check-out the visitor is found by name or phone number, the
remote row is stamped with a check-out time, and the local record is closed. A confirmation
screen then counts down and returns to the welcome screen.

This project takes the logic inside those components out of the JSX and models it as pure
functions over immutable data:

- `visitor_storage.dfy` (`VisitorStorage`): the `useVisitorStorage` hook. It holds the
  `LocalVisitor` record, the initial load, `addVisitor` and `checkOutVisitor`, and the
  persistent slot that is rewritten after each mutation.
- `check_out_form.dfy` (`CheckOutForm`): the active-visitor filter and the first-match search
  with its found / not-found outcome. It also holds the search-box and list-click updates,
  `formatPurpose`, `getVisitDuration`, and the two halves of the "Complete Check-Out" click.
- `check_in_form.dfy` (`CheckInForm`): `handleInputChange`, the required-field checks of
  `handleSubmit`, the insert row, and how the insert's reply is handled.
- `app.dfy` (`App`): the screen router with its confirmation payload.
- `confirmation.dfy` (`Confirmation`): the countdown updater and the check-in flag.
- `lifecycle.dfy` (`Lifecycle`): properties that span several components.
- `text.dfy` (`Text`), `seqs.dfy` (`Seqs`), `wrappers.dfy` (`Wrappers`): the JavaScript
  string and array built-ins the components use, and `Option`.

Time is an integer number of milliseconds, passed in by the caller. The remote insert and
update are not called. Instead, their reply (`InsertReply`, `UpdateOutcome`) is a parameter.
Each asynchronous handler is split into the part before the `await` and the part after it,
so the in-flight flags (`submitting`, `checkingOut`) can be seen.

Some behaviours of the code are easy to overlook. The model keeps them as written:

- `addVisitor` performs no id-uniqueness check. See `AddVisitorAcceptsDuplicateId`.
- `checkOutVisitor` has no "already closed" guard. A second check-out succeeds again and
  overwrites the time. See `CheckOutTwiceRestamps`.
- Loading the store has no recovery from a corrupt value. `JSON.parse` would throw, so the
  model only distinguishes an absent slot from a present list.
- A failed remote insert stops check-in: `onSubmit` is not called and no local record is
  made.
- The app's handlers are the ones captured when the submit or click started, so `addVisitor`
  and `checkOutVisitor` work on the visitor list of that render and write their result back in
  full. A check-in reply built on a list from before a check-out reopens the visit that
  check-out closed. The reply events carry that list (`basis`); see `StaleCheckInReplyReopens`.

## Model

| member | source | states |
|---|---|---|
| VisitorStorage.Load | OttoHello/src/hooks/useVisitorStorage.ts:22-25 | an absent slot loads as the empty list; a present slot loads as its list and counts as persisted |
| VisitorStorage.AddVisitor | OttoHello/src/hooks/useVisitorStorage.ts:28-44 | the old list with exactly one record appended; the new record has the given id, name and check-in time, is active, and has no host, reason, phone or photo; earlier records are unchanged; the slot holds the new list |
| VisitorStorage.StampCheckOut | OttoHello/src/hooks/useVisitorStorage.ts:48-50 | length is kept; records with another id are untouched; every record with the id, closed or not, gets the new check-out time |
| VisitorStorage.FirstWithId | OttoHello/src/hooks/useVisitorStorage.ts:53 | the index of the first record with the id; nothing exactly when no record has it |
| VisitorStorage.CheckOutVisitor | OttoHello/src/hooks/useVisitorStorage.ts:47-54 | length and order are kept; only records with the id change, and those get the check-out time; the slot holds the new list; the result is the first record with the id, already closed; there is no result exactly when the id is unknown, and then the list is unchanged |
| VisitorStorage.ReloadAfterMutation | OttoHello/src/hooks/useVisitorStorage.ts:41-53 | reloading from the slot after either mutation gives back exactly the in-memory list |
| VisitorStorage.AddVisitorAcceptsDuplicateId | OttoHello/src/hooks/useVisitorStorage.ts:28-44 | adding a record whose id is already present still appends, leaving two positions with that id |
| VisitorStorage.CheckOutTwiceRestamps | OttoHello/src/hooks/useVisitorStorage.ts:47-53 | checking out the same id twice succeeds both times, and the second result carries the second time |
| Seqs.FindFirst | OttoHello/src/components/CheckOutForm.tsx:47-51 | `find`: the index of the first element satisfying the predicate, with no earlier one satisfying it; nothing exactly when none does |
| Seqs.Filter | OttoHello/src/components/CheckOutForm.tsx:42 | `filter`: every kept element satisfies the predicate and comes from the input; every input element satisfying it is kept |
| Seqs.FilterAppend | OttoHello/src/components/CheckOutForm.tsx:42 | filtering a concatenation is the concatenation of the filtered parts, so relative order is kept |
| CheckOutForm.ActiveVisitors | OttoHello/src/components/CheckOutForm.tsx:42 | the kept records are exactly the input records without a check-out time |
| CheckOutForm.ActiveVisitorsOrder | OttoHello/src/components/CheckOutForm.tsx:42 | the active list distributes over concatenation and keeps a single record exactly when it is active; together these fix it as the order-preserving subsequence |
| CheckOutForm.Matches | OttoHello/src/components/CheckOutForm.tsx:48-50 | a record matches exactly when the lower-cased term occurs in its lower-cased name, or it has a non-empty phone number in which the term as typed occurs |
| CheckOutForm.FirstMatch | OttoHello/src/components/CheckOutForm.tsx:47-51 | the first active record that matches the term; nothing exactly when none matches |
| CheckOutForm.TypeSearchTerm | OttoHello/src/components/CheckOutForm.tsx:169-173 | typing sets the term and clears both the found visitor and the not-found notice |
| CheckOutForm.PickVisitor | OttoHello/src/components/CheckOutForm.tsx:265-269 | clicking a listed visitor selects it and puts its name in the search box, with no not-found notice |
| CheckOutForm.HandleSearch | OttoHello/src/components/CheckOutForm.tsx:44-60 | a blank term changes nothing; otherwise exactly one of found / not-found is set; not-found holds exactly when no active record matches; a found record is active, in the list, and matches; it is the active record at the first-match index, so no earlier active record matches |
| CheckOutForm.FirstMatchIsActiveRecord | OttoHello/src/components/CheckOutForm.tsx:42-51 | the record at the first-match index is an active record of the list that matches, and no earlier active record matches |
| CheckOutForm.NoMatchAmongActive | OttoHello/src/components/CheckOutForm.tsx:42-58 | when the search finds nothing, no active record of the list matches the term |
| CheckOutForm.BeginCheckOut | OttoHello/src/components/CheckOutForm.tsx:66-78 | the click is ignored exactly when there is no found visitor or a check-out is in flight; otherwise the in-flight flag is raised and the remote update for the found visitor's id is issued |
| CheckOutForm.FinishCheckOut | OttoHello/src/components/CheckOutForm.tsx:80-89 | whatever the remote outcome, the flag is lowered and the local check-out is asked for with the id captured at the click |
| CheckOutForm.HandleCheckOutClick | OttoHello/src/components/CheckOutForm.tsx:66-90 | an ignored click makes no call; otherwise the remote update comes first and the local check-out is called once, after it, and the state is back where it started |
| CheckOutForm.CheckOutIgnoresRemoteOutcome | OttoHello/src/components/CheckOutForm.tsx:71-89 | success, an error reply and a thrown error all lead to the same calls and state |
| CheckOutForm.SecondClickWhileInFlightIgnored | OttoHello/src/components/CheckOutForm.tsx:67-69 | a click while the remote update is pending is ignored |
| CheckOutForm.FormatPurpose | OttoHello/src/components/CheckOutForm.tsx:33-40 | `other` gives the free-text reason, or "Other" when it is absent; no reason gives an em dash; any other reason keeps its length and, ignoring case, its letters, has its first '-' turned into a space, and has no word starting with a lower-case letter; position by position it is that text with exactly the word-starting characters upper-cased and every other character unchanged |
| CheckOutForm.VisitDuration | OttoHello/src/components/CheckOutForm.tsx:92-95 | for a non-negative elapsed time, hours are non-negative, minutes lie in [0, 60), and hours*60 + minutes is the number of whole elapsed minutes; for a negative one, hours are negative and minutes lie in [-60, 0] |
| CheckOutForm.JsRem | OttoHello/src/components/CheckOutForm.tsx:95 | `%`: the dividend is the quotient rounded toward zero times the divisor plus the remainder; the remainder is smaller than the divisor in magnitude and has the sign of the dividend |
| CheckOutForm.FormatDuration | OttoHello/src/components/CheckOutForm.tsx:96 | the `${h}h ${m}m` text reads back, numeral by numeral, as the duration it was made from |
| CheckOutForm.ParseDuration | OttoHello/src/components/CheckOutForm.tsx:96 | a text the duration reader accepts is the hours as printed, "h ", the minutes as printed, then "m" |
| CheckOutForm.DurationTextIsCanonical | OttoHello/src/components/CheckOutForm.tsx:96 | any text that reads back as a duration is exactly the text printed for it, so no leading zeros, no "-0" and no other spelling |
| CheckOutForm.NinetyMinutesReadsOneHourThirty | OttoHello/src/components/CheckOutForm.tsx:92-97 | ninety minutes after check-in the duration is 1 hour 30 minutes and reads "1h 30m" |
| Text.ToLower | OttoHello/src/components/CheckOutForm.tsx:49 | `toLowerCase` maps each character to its lower-case form and keeps the length |
| Text.TrimStart | OttoHello/src/components/CheckOutForm.tsx:45 | the result is a suffix of the input; what was dropped is all whitespace; the result does not start with whitespace |
| Text.TrimEnd | OttoHello/src/components/CheckOutForm.tsx:45 | the result is a prefix of the input; what was dropped is all whitespace; the result does not end with whitespace |
| Text.Trim | OttoHello/src/components/CheckOutForm.tsx:45 | `trim` gives a contiguous piece of the input with only whitespace before and after it, and the piece neither starts nor ends with whitespace |
| Text.TrimIdempotent | OttoHello/src/components/CheckOutForm.tsx:45 | trimming a trimmed string changes nothing |
| Text.TrimEmptyIffBlank | OttoHello/src/components/CheckOutForm.tsx:45 | the trimmed term is empty exactly when the term consists of whitespace only |
| Text.Includes | OttoHello/src/components/CheckOutForm.tsx:49-50 | `includes` holds exactly when the needle occurs at some offset of the text |
| Text.IncludesSelf | OttoHello/src/components/CheckOutForm.tsx:49 | every string includes itself |
| Text.ReplaceFirst | OttoHello/src/components/CheckOutForm.tsx:37 | `replace` with a one-character pattern keeps the length and changes only the first occurrence |
| Text.CapitaliseFrom | OttoHello/src/components/CheckOutForm.tsx:38 | keeps the length and upper-cases exactly the word characters not preceded by a word character |
| Text.CapitaliseWords | OttoHello/src/components/CheckOutForm.tsx:38 | `replace(/\b\w/g, toUpperCase)` keeps the length and upper-cases exactly the characters that start a word |
| Text.CapitaliseWordsKeepsLetters | OttoHello/src/components/CheckOutForm.tsx:38 | capitalising changes letter case only |
| Text.CapitaliseWordsIdempotent | OttoHello/src/components/CheckOutForm.tsx:38 | capitalising twice equals capitalising once |
| Text.CapitaliseWordsNoLowerWordStart | OttoHello/src/components/CheckOutForm.tsx:38 | after capitalising, no word starts with a lower-case letter |
| Text.NatToString | OttoHello/src/components/CheckOutForm.tsx:96 | a non-empty string of decimal digits without a leading zero |
| Text.NatToStringRoundTrip | OttoHello/src/components/CheckOutForm.tsx:96 | reading the printed digits back gives the number |
| Text.IntToString | OttoHello/src/components/CheckOutForm.tsx:96 | the text starts with '-' exactly for a negative number; what follows the optional '-' is the decimal digits of the magnitude, with no leading zero, and reads back as the magnitude |
| Text.IntToStringRoundTrip | OttoHello/src/components/CheckOutForm.tsx:96 | reading the printed number back, sign included, gives the number; the reader refuses leading zeros and "-0" |
| Text.CanonicalIsNatToString | OttoHello/src/components/CheckOutForm.tsx:96 | a non-empty digit string without a leading zero is exactly the printed form of its value |
| Text.SignedValue | OttoHello/src/components/CheckOutForm.tsx:96 | the numeral reader accepts only the printed form of the number it returns, so leading zeros and "-0" are refused |
| CheckInForm.Valid | OttoHello/src/components/CheckInForm.tsx:142-143 | the form passes exactly when every required field is non-empty: name, reason and host, plus the free-text reason once `other` is chosen |
| CheckInForm.InsertSucceeded | OttoHello/src/components/CheckInForm.tsx:164 | an error, a missing id or an empty id each make the insert a failure; no error with a non-empty id is a success |
| CheckInForm.ErrorText | OttoHello/src/components/CheckInForm.tsx:165-167 | the error's own message when it has one, otherwise the default text |
| CheckInForm.HandleInputChange | OttoHello/src/components/CheckInForm.tsx:133-134 | the named field takes the new value and every other field keeps its value |
| CheckInForm.BuildRow | OttoHello/src/components/CheckInForm.tsx:149-157 | `other` is stored as the free-text reason and any other reason as is; an empty photo is stored as null and any other photo as is; a valid form gives a row with a non-empty name, host and reason |
| CheckInForm.BeginSubmit | OttoHello/src/components/CheckInForm.tsx:137-145 | the error text is cleared; the submission stops exactly when a required field is empty or `other` has no reason; otherwise `submitting` is raised and the row is built |
| CheckInForm.CompleteSubmit | OttoHello/src/components/CheckInForm.tsx:162-173 | `submitting` is lowered; the parent is notified exactly when there was no error and a non-empty id came back, and then with that id and the name read before the insert, which the inserted row carries; otherwise the error text is the error's message or the default text |
| CheckInForm.HandleSubmit | OttoHello/src/components/CheckInForm.tsx:137-174 | an invalid form inserts nothing, notifies nobody and only clears the error; a valid one inserts the built row; the parent is notified exactly when the form is valid and the insert succeeded, with the returned id and the name; a failed insert leaves its error text; the form and photo are never changed |
| CheckInForm.EditDuringInsertKeepsSubmittedName | OttoHello/src/components/CheckInForm.tsx:141-173 | editing the name while the insert is pending leaves the form edited, but the parent is still told the name that was submitted |
| CheckInForm.InsertedRowsAreComplete | OttoHello/src/components/CheckInForm.tsx:141-157 | every row that reaches the insert has a non-empty name, host and reason |
| CheckInForm.OtherWithoutReasonRejected | OttoHello/src/components/CheckInForm.tsx:143 | `other` with an empty free-text reason never reaches the insert and notifies nobody |
| App.Init | OttoHello/src/App.tsx:19-23 | start-up shows the welcome screen with no confirmation payload and the stored list |
| App.HandleCheckInSuccess | OttoHello/src/App.tsx:26-35 | the new list is the captured list with one record appended and it is persisted; that record has the given id and name, checks in now, is active and has no other field set; the check-in confirmation for that name is shown |
| App.HandleCheckOut | OttoHello/src/App.tsx:38-44 | the store is the captured list closed out and persisted; for an id in that list the check-out confirmation carries the name of its first record with that id; otherwise the screen and the payload stay as they were and the captured list is written back |
| App.StaleCheckInReplyReopens | OttoHello/src/hooks/useVisitorStorage.ts:41-43 | from a store holding an open visit x, a check-in started, Back, a check-out of x and the return home leave x closed at the check-out time; the pending check-in reply, built on the list it captured, then leaves x open again in memory and in the slot |
| App.ReturnHome | OttoHello/src/App.tsx:75-78 | returning shows the welcome screen and clears the payload |
| App.Enabled | OttoHello/src/App.tsx:49-80 | the welcome buttons exist only on the welcome screen, Back only on the two form screens, and `onReturn` exactly when the confirmation view is rendered; the two replies can always arrive |
| App.Step | OttoHello/src/App.tsx:26-80 | a navigation event the current screen cannot fire changes nothing; back goes to welcome; the welcome buttons open check-in or check-out; `onReturn` goes home and clears the payload; a check-in or check-out reply is handled on whatever screen is showing, even after Back was pressed while it was pending |
| App.Run | OttoHello/src/App.tsx:26-80 | no events leave the state as it is; a single event is one transition |
| App.RunAppend | OttoHello/src/App.tsx:26-80 | handling two event sequences one after the other is handling their concatenation |
| App.StepKeepsCoherent | OttoHello/src/App.tsx:26-78 | every transition keeps "a payload is present exactly on the confirmation screen" |
| App.RunKeepsCoherent | OttoHello/src/App.tsx:26-78 | any sequence of transitions keeps that agreement |
| App.ReachableStatesCoherent | OttoHello/src/App.tsx:19-80 | in every reachable state the confirmation view is shown exactly when the confirmation screen is selected |
| Confirmation.IsCheckIn | OttoHello/src/components/ConfirmationScreen.tsx:33 | the check-in flag holds exactly for check-in confirmations |
| Confirmation.Tick | OttoHello/src/components/ConfirmationScreen.tsx:22-28 | `onReturn` is called exactly when the previous value is at most 1, and the value becomes 0; otherwise the value drops by one and stays at least 1 |
| Confirmation.Ticks | OttoHello/src/components/ConfirmationScreen.tsx:20-31 | n ticks record n updater calls |
| Confirmation.TicksReturnFrom | OttoHello/src/components/ConfirmationScreen.tsx:21-29 | from any start value c, tick i (counting from 1) calls `onReturn` exactly when i is at least c |
| Confirmation.TicksValue | OttoHello/src/components/ConfirmationScreen.tsx:18-29 | from a non-negative start, the value after n ticks is the start minus n, floored at 0 |
| Confirmation.CountdownInRange | OttoHello/src/components/ConfirmationScreen.tsx:18-29 | from 5 the countdown stays within [0, 5] after any number of ticks |
| Confirmation.FirstReturnOnFifthTick | OttoHello/src/components/ConfirmationScreen.tsx:18-31 | from 5, `onReturn` is first called on the fifth tick and again on every later tick |
| Lifecycle.CheckedInVisitorIsFound | OttoHello/src/components/CheckOutForm.tsx:42-59 | right after a check-in, searching for the visitor's full name finds a visitor, unless the name is blank |
| Lifecycle.CheckedOutVisitorNotFound | OttoHello/src/components/CheckOutForm.tsx:42-59 | right after a check-out, no search returns a record with that id |
| Lifecycle.AshaRaoCheckedIn | OttoHello/src/App.tsx:26-35 | from an empty kiosk, checking in "Asha Rao" and moving on to check-out leaves one record, for her |
| Lifecycle.AshaMatchesSearch | OttoHello/src/components/CheckOutForm.tsx:45-51 | "asha" is a non-blank term that matches "Asha Rao" |
| Lifecycle.AshaRaoWalkThrough | OttoHello/src/App.tsx:26-44 | "Asha Rao" checks in and is the one active visitor; "asha" finds her; the check-out shows her confirmation; the same search then reports not-found |

## Left out

- Rendering is not modelled: JSX, Tailwind classes, icons, and the particle positions drawn with `Math.random`. None of it affects the visit data.
- The guided tour in the check-in form is not modelled. It is presentation only, and so is its browser-storage flag.
- Camera capture is not modelled: `getUserMedia`, video and canvas drawing, and JPEG encoding. The photo is an opaque string.
- The remote database client is not modelled. The insert's reply and the update's outcome are parameters, and the logging of their errors is not modelled.
- Serialisation is not modelled. The persistent slot holds the list itself, not its JSON text. A corrupt stored value would make `JSON.parse` throw; that path is not modelled.
- Dates are integer milliseconds. Parsing and printing ISO-8601 and locale-formatted times is not modelled.
- Text.ToLower: lower-cases ASCII letters only. JavaScript's `toLowerCase` maps all of Unicode. `\w` and `toUpperCase` on `\w` characters are ASCII in JavaScript too, so `CapitaliseWords` is exact.
- The chat-notification helper (`slackUtils.ts`) is not part of this model. It only logs and waits on timers.
- Timer scheduling is not modelled: `setInterval`, clearing it on unmount, and React's re-rendering. The countdown is modelled as its updater applied once per tick.
- The Enter key handler is not modelled separately. It only calls `handleSearch`, which `HandleSearch` models.
- The welcome screen component is not part of this model. Its two buttons appear as the `StartCheckIn` and `StartCheckOut` events.
- App.HandleCheckInSuccess: takes the local id as a parameter. The app as written calls `addVisitor` with only a name, so the stored id is undefined. The check-in form also passes `{id, fullName}` where the app expects a string. Each component is modelled on its own terms.
- The confirmation screen expects a `visitor` prop, but the app passes `visitorName`. The model keeps the payload's name and does not reconcile the two.
- Browser form validation is not modelled. The HTML `required` attribute on the four inputs blocks the submit while one of them is empty, so in a browser `handleSubmit` does not see an empty field. `BeginSubmit` keeps the handler's own guard, which rejects an empty field. A value made only of spaces gets past both checks.
- VisitorStorage.StampCheckOut: stamps every record with the id using one instant. The source calls `new Date()` once per matching record inside the `map`, so two records sharing an id could get check-out times a few milliseconds apart.
- CheckInForm.HandleInputChange: only the four form fields are modelled. In JavaScript, any field name would add a key; the form only ever passes these four.
- Confirmation.Ticks: its own contract only counts the updater calls. What each call does is stated by `TicksReturnFrom` and `TicksValue`.
