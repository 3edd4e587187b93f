# Live soccer match tracker: a Dafny model

The system keeps a list of soccer matches on a server and shows them in a browser. An admin page is meant
to create matches, start them and send match events. The server appends each event to the match's log and counts
goals into the stored score. The match list and the match detail view work out from the event log what
they display: the score, the match clock, one message and one colour per event. In the shipped client the
admin page's calls mostly do not reach the server as intended; "## Left out" says how.

This project models:

- the server's match registry, `MatchService`, as a Dafny class;
- the client's derivations in the match list, the match detail view and the admin page.

Each operation has a contract. Most are also related by lemmas to an independent definition, an inverse or an invariant they keep.

Modules:

- `Wrappers`: `Option`.
- `Seqs`: `Array.prototype.filter`, `find` as a position, and `Math.max`.
- `Decimal`: `String(n)` for numbers, and `Number(s)` restricted to plain decimal numerals.
- `Domain`: the `Match` and `MatchEvent` records as values, and goal counting.
- `Display`: the score text "a-b" and the match clock shared by both views.
- `Server`: `match.service.ts`.
  - The registry is the class `MatchService`, with fields `matches` and `nextId`.
  - Each match is an object of class `MatchRecord`. `startMatch` and `addEvent` mutate that object through the reference `getMatch` returns.
  - The methods are proved against value functions on `seq<MatchValue>` (`StartIn`, `AddIn`, `Record`). Lemmas then prove properties of those functions.
- `MatchDetail`: `MatchDetail.tsx`.
  - The event list the view holds is the class `EventFeed`.
  - The score, clock, message and colour derivations are functions.
- `MatchesList`: `MatchesList.tsx`, the per-match derived row and the live/upcoming split.
- `Admin`: `Admin.tsx`.
  - The page state is the class `AdminPage`: the two forms, the server calls the page intends to make, and the alerts shown.
  - The event record is built step by step by `BuildEventData`.

An event is whatever JSON body reached the server, so every field of `Event` is an `Option`. `None`
stands for a missing key. It also stands for a `type` that is not a string, a `minute` that is not a
number, or a `team` that is neither "A" nor "B".

The two views do not always show the same score. The server and the match list count every stored goal. The
detail view first drops events without a numeric minute (`MatchDetail.tsx:42-48`), so a goal stored without
one is missing from its score. The server's own event type has no `minute`, so such goals can be stored.
`DetailScoreIsServerScore` states when the views agree, and `UntimedGoalScoresDiverge` gives a match on which
they differ.

Whether a call the page makes returned normally is a parameter of the page methods. The file contents the registry loads are
a parameter of its constructor.

## Model

| member | source | states |
|---|---|---|
| Seqs.Filter | client/src/components/MatchesList.tsx:58-59 | The filtered list is no longer than the input. Each kept element is in the input and passes the test. Each input element that passes the test is kept. |
| Seqs.FilterAppend | client/src/components/MatchesList.tsx:58-59 | Filtering a concatenation equals concatenating the filtered parts, so relative order is kept. |
| Seqs.FilterSplits | client/src/components/MatchesList.tsx:58-59 | Filtering by a test and by its negation splits the list: the two multisets add up to the original and the lengths add up to its length. |
| Seqs.IndexOf | server/src/services/match.service.ts:53-55 | `find` as a position: none exactly when the value is absent; otherwise an index holding the value with no earlier occurrence. |
| Seqs.MaxOf | client/src/components/MatchesList.tsx:38-40 | `Math.max` of a non-empty list is one of its elements and no element exceeds it. |
| Decimal.DecimalText | server/src/services/match.service.ts:34 | `String(n)` is a non-empty string of digits that starts with '0' only for 0. |
| Decimal.ParseDecimal | server/src/services/match.service.ts:24 | `Number(m.id)` on plain decimal numerals, and not a number otherwise. `ParseDecimalText` proves it reads every printed counter back. |
| Decimal.ParseDecimalText | server/src/services/match.service.ts:24 | `Number(String(n))` gives back `n`. |
| Decimal.DecimalTextInjective | server/src/services/match.service.ts:34 | Different counter values print different ids. |
| Domain.GoalCountAppend | server/src/services/match.service.ts:73-76 | The goal count of a concatenated log is the sum of the counts of its parts. |
| Domain.FilteredGoalCount | client/src/components/MatchesList.tsx:24-31 | The length of `events.filter(goal for team t)` is the count of t's goal events. |
| Display.ScoreTextRoundTrip | client/src/components/MatchesList.tsx:32 | The text `${goalsA}-${goalsB}` splits at its '-' back into both numbers, so different scores never show the same text. |
| Display.CappedMinute | client/src/components/MatchesList.tsx:41 | `Math.min(latest + 1, 90)` is at most 90. It is latest + 1 below that cap and 90 once latest reaches 89. |
| Server.Lookup | server/src/services/match.service.ts:53-55 | `getMatch`'s find as a position: none exactly when no match carries the id; otherwise the first match that does. |
| Server.Record | server/src/services/match.service.ts:71-76 | What `addEvent` does to the match it finds. `RecordKeepsScoresAgree` proves it keeps the score invariant, and `RecordNonGoal` that only goals change a score. |
| Server.StartIn | server/src/services/match.service.ts:57-65 | `startMatch` on the list of matches keeps its length and every id. |
| Server.AddIn | server/src/services/match.service.ts:67-80 | `addEvent` on the list of matches keeps its length and every id. |
| Server.StartInEffect | server/src/services/match.service.ts:57-65 | An unknown id changes nothing. A known id sets `started` on the first match with that id, changes nothing else in it and leaves every other match equal. |
| Server.StartInIdempotent | server/src/services/match.service.ts:57-65 | Starting a match twice is the same as starting it once. |
| Server.AddInEffect | server/src/services/match.service.ts:67-80 | An unknown id changes nothing. A known id gets the event at the end of its log, only the scores may change besides, and every other match is untouched. |
| Server.RecordNonGoal | server/src/services/match.service.ts:73-76 | A non-goal event and a goal without a team leave both scores unchanged. |
| Server.RecordKeepsScoresAgree | server/src/services/match.service.ts:71-76 | If each stored score equals that team's goal count in the log, recording one event keeps this true. |
| Server.RecordAllKeepsScoresAgree | server/src/services/match.service.ts:67-80 | After any sequence of `addEvent` calls the log has grown by exactly those events and the score invariant still holds. |
| Server.ScoresOfNewMatch | server/src/services/match.service.ts:32-47 | A match created 0-0 with no events, after any events are added, has as each score the number of goals that team scored. |
| Server.StartInKeepsScoresAgree | server/src/services/match.service.ts:57-65 | `startMatch` keeps the score invariant of every match in the registry. |
| Server.NewMatchKeepsScoresAgree | server/src/services/match.service.ts:32-47 | Appending a new 0-0 match without events keeps the score invariant of every match in the registry. |
| Server.AddInKeepsScoresAgree | server/src/services/match.service.ts:67-80 | `addEvent` keeps the score invariant of every match in the registry. |
| Server.NextIdAsWritten | server/src/services/match.service.ts:23-25 | The counter recovery as written: NaN once one loaded id is not a numeral. `AsWrittenAgreesOnNumericIds` and `AsWrittenTextIdBreaksUniqueness` state its properties. |
| Server.CreateIdAsWritten | server/src/services/match.service.ts:34 | `String(this.nextId++)` on a JavaScript number, NaN included. `AsWrittenTextIdBreaksUniqueness` shows it handing out "NaN" twice. |
| Server.MaxNumericId | server/src/services/match.service.ts:24 | Every numeric id is at most the result. The result is 0 or the value of some id. |
| Server.NextIdAfterLoad | server/src/services/match.service.ts:23-25 | The recovered counter is at least 1 and above every numeric loaded id. It is 1 for an empty file, and otherwise 1 or one more than some loaded id. |
| Server.BelowIsNotNext | server/src/services/match.service.ts:34 | An id below the counter is never the id `createMatch` prints next. |
| Server.CreateKeepsIdsFresh | server/src/services/match.service.ts:32-47 | Appending `String(nextId)` and moving the counter on keeps every id below the counter and keeps the ids unique. |
| Server.AsWrittenTextIdBreaksUniqueness | server/src/services/match.service.ts:23-25 | With the recovery as written, loaded ids "1" and "x" give a NaN counter, and the next two matches both get the id "NaN". |
| Server.AsWrittenAgreesOnNumericIds | server/src/services/match.service.ts:23-25 | When every loaded id is a numeral, the recovery as written and the corrected one give the same counter. |
| Server.MatchRecord.constructor | server/src/services/match.service.ts:33-41 | The new record holds exactly the given match. |
| Server.MatchRecord.Start | server/src/services/match.service.ts:61 | The record's new contents are the old ones with `started` set. |
| Server.MatchRecord.RecordEvent | server/src/services/match.service.ts:71-76 | The record's new contents are `Record` of the old ones: the event is appended, and a goal adds one to its team's score. |
| Server.MatchService.constructor | server/src/services/match.service.ts:11-26 | The registry holds the loaded matches as separate fresh objects, in order. The counter is the recovered one, so every loaded id is below it. |
| Server.MatchService.CreateMatch | server/src/services/match.service.ts:32-47 | A fresh unstarted 0-0 match with no events and id `String(nextId)` is appended. The counter moves on by one. The id invariant holds afterwards, unique ids stay unique, and the score invariant of every match is kept. |
| Server.MatchService.GetMatches | server/src/services/match.service.ts:49-51 | Returns the registry's own list of records, not a copy. |
| Server.MatchService.GetMatch | server/src/services/match.service.ts:53-55 | None exactly when no match has the id; otherwise the record of the first match with it. |
| Server.MatchService.StartMatch | server/src/services/match.service.ts:57-65 | The registry's new contents are `StartIn` of the old. The result is none exactly for an unknown id; otherwise it is the record that was started. The score invariant of every match is kept. |
| Server.MatchService.AddEvent | server/src/services/match.service.ts:67-80 | The registry's new contents are `AddIn` of the old. The result is none exactly for an unknown id; otherwise it is the record that was extended. The score invariant of every match is kept. |
| MatchDetail.Accepts | client/src/components/MatchDetail.tsx:42-48 | The validity test applied to stored and to incoming events: a string type and a numeric minute. `InitialEventsSpec` and `EventFeed.Receive` state what it keeps. |
| MatchDetail.InitialEvents | client/src/components/MatchDetail.tsx:42-48 | The list the view starts from. `InitialEventsSpec` states its contents, and `InitialEventsKeepGoals` which goals it keeps. |
| MatchDetail.InitialEventsSpec | client/src/components/MatchDetail.tsx:41-51 | The initial list holds exactly the events with a string type and a numeric minute, in their order. It keeps a list that is all valid unchanged and distributes over concatenation. |
| MatchDetail.EventFeed.constructor | client/src/components/MatchDetail.tsx:28 | The view starts with no events. |
| MatchDetail.EventFeed.Load | client/src/components/MatchDetail.tsx:41-51 | When the match changes, the list becomes the match's valid events. |
| MatchDetail.EventFeed.Receive | client/src/components/MatchDetail.tsx:71-87 | An invalid incoming event is dropped and the list is unchanged. A valid one is put in front of the previous list. Every held event stays valid. |
| MatchDetail.DetailScore | client/src/components/MatchDetail.tsx:123-140 | `calculateScore`. `DetailScoreCountsGoals` proves it equals the text of the independent goal counts. |
| MatchDetail.TypeAndTeamFilterKeepsGoals | client/src/components/MatchDetail.tsx:125-127 | Dropping events without a type or a team never drops a goal. |
| MatchDetail.DetailScoreCountsGoals | client/src/components/MatchDetail.tsx:123-140 | The shown score is "a-b", where a and b are the goal counts of team A and team B. |
| MatchDetail.DetailScoreIgnoresNonGoals | client/src/components/MatchDetail.tsx:129-134 | Inserting a non-goal event anywhere in the list leaves the shown score unchanged. |
| MatchDetail.GoalCountSkips | client/src/components/MatchDetail.tsx:129-134 | An event that is not a goal for a team does not change that team's goal count, wherever it is inserted. |
| MatchDetail.InitialEventsKeepGoals | client/src/components/MatchDetail.tsx:42-48 | When every stored goal has a numeric minute, the initial list holds as many goals of each team as the stored events. |
| MatchDetail.DetailScoreIsServerScore | client/src/components/MatchDetail.tsx:41-51 | For a match whose scores agree with its events and whose stored goals all have a numeric minute, the view starts from the server's `scoreA-scoreB`. Other events may be invalid. |
| MatchDetail.DetailScoreIgnoresOrder | client/src/components/MatchDetail.tsx:80-87 | Live events go in front of the stored ones, and the order of the two parts does not change the score. |
| MatchDetail.DetailClock | client/src/components/MatchDetail.tsx:143-158 | The clock is a minute of at most 90. It is "0'" when no event has a numeric minute. Otherwise it is `Math.min(latest + 1, 90)` for the largest numeric minute of the events. |
| MatchDetail.LatestTimedMinute | client/src/components/MatchDetail.tsx:145-152 | The largest of the numeric minutes is at least every event's numeric minute and is the minute of some event. |
| MatchDetail.EventMessage | client/src/components/MatchDetail.tsx:161-199 | `generateEventMessage`. `MessageNamesTeamInParentheses`, `MessageNamesTeamAfterFor` and `CardMessageLabel` state how its messages end and open. |
| MatchDetail.TeamName | client/src/components/MatchDetail.tsx:168 | The team a message names, with the placeholders of lines 34-35. `TeamNameChoice` states the rule. |
| MatchDetail.TeamNameChoice | client/src/components/MatchDetail.tsx:168 | Team A's name for team "A" and team B's name for anything else; "Team A" or "Team B" where that name is empty. |
| MatchDetail.MessageNamesTeamInParentheses | client/src/components/MatchDetail.tsx:168-190 | A foul, card or substitution message ends with " (name)": team A's name for team "A" and team B's name otherwise, or "Team A" / "Team B" where that name is empty. |
| MatchDetail.MessageNamesTeamAfterFor | client/src/components/MatchDetail.tsx:168-193 | A goal message, and the message for any other non-empty unknown type, ends with " for " and the team: team A's name for team "A" and team B's name otherwise, or "Team A" / "Team B" where that name is empty. |
| MatchDetail.CardLabel | client/src/components/MatchDetail.tsx:179-180 | The card label. `CardMessageLabel` proves it is "RED CARD" exactly for a red card. |
| MatchDetail.CardMessageLabel | client/src/components/MatchDetail.tsx:179-185 | A card message opens with "RED CARD!" exactly when the card is red, and with "YELLOW CARD!" otherwise. |
| MatchDetail.EventColour | client/src/components/MatchDetail.tsx:201-218 | `getEventColor`, as one colour per class list. `CardColourFollowsLabel` ties a card's colour to its message. |
| MatchDetail.CardColourFollowsLabel | client/src/components/MatchDetail.tsx:210-213 | A card is coloured red exactly when its message says RED CARD, and yellow exactly when it does not. |
| MatchesList.ListClock | client/src/components/MatchesList.tsx:35-45 | "Not Started" exactly for an unstarted match, and "1'" for a started match with no events. It is NaN when some minute is not a number. Otherwise it is `Math.min(latest + 1, 90)` for the largest minute of the events. |
| MatchesList.ListScore | client/src/components/MatchesList.tsx:24-32 | The list's score. `ListScoreCountsGoals` proves it equals the text of the independent goal counts. |
| MatchesList.ListScoreCountsGoals | client/src/components/MatchesList.tsx:24-32 | The list's score is "a-b" of the two goal counts, which is "0-0" for a match without events. |
| MatchesList.ListScoreIsDetailScore | client/src/components/MatchesList.tsx:24-32 | The list's and the detail view's score computations agree on every event list. The lists they are given can differ: see `UntimedGoalScoresDiverge`. |
| MatchesList.UntimedGoalScoresDiverge | client/src/components/MatchDetail.tsx:42-48 | A started match holding one goal for team A without a minute, with agreeing scores, shows "1-0" in the list and starts at "0-0" in the detail view. |
| MatchesList.ListScoreIsServerScore | client/src/components/MatchesList.tsx:24-32 | When the scores agree with the events, the list shows the server's `scoreA-scoreB`. |
| MatchesList.ProcessAllShape | client/src/components/MatchesList.tsx:47-54 | Each row keeps its match and shows `home` = teamA, `away` = teamB and `isLive` = started. |
| MatchesList.LiveMatches | client/src/components/MatchesList.tsx:58 | `liveMatches`. `LiveUpcomingPartition` states its contents and order. |
| MatchesList.UpcomingMatches | client/src/components/MatchesList.tsx:59 | `upcomingMatches`. `LiveUpcomingPartition` states its contents and order. |
| MatchesList.LiveUpcomingPartition | client/src/components/MatchesList.tsx:58-59 | Every row is either live or upcoming, exactly one of the two according to `isLive`. The two lists together hold every row once and keep the list's order. |
| Admin.TypeNameInjective | client/src/components/Admin.tsx:28 | Different form types give different type strings. |
| Admin.BuildEventData | client/src/components/Admin.tsx:88-112 | The event carries the form's type, minute and team. A non-substitution has a player exactly when one was typed. There is a card colour exactly for cards. A substitution carries both players, with the outgoing player as the event's player. |
| Admin.SubstitutionIncomplete | client/src/components/Admin.tsx:77-85 | The substitution check. `AdminPage.SendEvent` proves an event is sent exactly when it fails, and `AfterSendEvent` that it refuses every substitution after a reset. |
| Admin.EventDataForUnique | client/src/components/Admin.tsx:88-112 | These properties determine the event completely. |
| Admin.EventDataIsAccepted | client/src/components/Admin.tsx:88-92 | A built event passes the detail view's validity test. It is a goal for a team exactly when the form says goal for that team. This holds of the event in the modelled request; how `api.ts` encodes it is not modelled. |
| Admin.TrimStart | client/src/components/Admin.tsx:63 | Drops exactly the leading white space: the rest is a suffix that does not start with white space. |
| Admin.TrimEnd | client/src/components/Admin.tsx:63 | Drops exactly the trailing white space: the rest is a prefix that does not end with white space. |
| Admin.IsBlank | client/src/components/Admin.tsx:63 | `!s.trim()`. `BlankIffAllWhitespace` proves it holds exactly for names made only of white space. |
| Admin.AllWhitespaceTrimsAway | client/src/components/Admin.tsx:63 | A name made only of white space trims to the empty string. |
| Admin.BlankIffAllWhitespace | client/src/components/Admin.tsx:63 | A name is blank after trimming exactly when every character is white space. |
| Admin.TrimIdempotent | client/src/components/Admin.tsx:63 | Trimming twice is the same as trimming once. |
| Admin.AfterSend | client/src/components/Admin.tsx:116-122 | After a send the form keeps the match id, type, team and card colour. The minute is 0 and the three player fields are empty. |
| Admin.AfterSendEvent | client/src/components/Admin.tsx:116-122 | The next event built from a reset form goes to the same type and team at minute 0 with no player. A substitution is refused until both players are typed again. |
| Admin.AdminPage.constructor | client/src/components/Admin.tsx:24-34 | Both forms start at their initial values (match id 1, minute 0, a goal for team A, yellow card, empty names). No call has been made and no alert shown. |
| Admin.AdminPage.Create | client/src/components/Admin.tsx:62-73 | With a blank name nothing happens. Otherwise the names are sent as typed. Success clears the form; failure keeps it and shows the failure alert. |
| Admin.AdminPage.SendEvent | client/src/components/Admin.tsx:75-131 | An incomplete substitution is refused with its alert and nothing is sent. Otherwise one event built from the form goes to the form's match. Success resets the form as `AfterSend` does; failure keeps it and shows the failure alert. |
| Admin.AdminPage.StartMatch | client/src/components/Admin.tsx:133-142 | One start request for the match is made, and a failure shows its alert. |

## Left out

- Reading and writing the JSON data file (`loadData`, `saveData`) is I/O. The constructor receives the parsed matches, and nothing is saved.
- The HTTP layer is not part of this model: `app.ts`, the controllers and the routes.
- The server-sent-event stream and its one-second polling (`streamMatch` in `matches.controller.ts`) are not part of this model. Arrivals at the detail view are modelled as calls of `EventFeed.Receive`. The mock event feeder in `event-stream.service.ts`, which adds events on timers by calling `addEvent` in the same process, is not part of this model either. Its events have no `minute`.
- `streamMatch` writes whole matches to the stream, not events (`matches.controller.ts:41`, `:46`). A match has no `type` or `minute`, so the detail view's check rejects every message, and `EventFeed.Receive`'s accepting branch is never reached from this server. The model keeps that branch as the page's code has it.
- The client's wrappers in `api.ts` and `App.tsx` are not part of this model. `Request` records the call the page intends to make, and `succeeded` whether that call returned normally. The shipped wrappers do not make those calls as recorded; the next three lines say how.
- `createMatch` in `api.ts:14-32` sends no request. It waits 500 ms and returns a made-up match with a random id. It cannot fail, so with it `AdminPage.Create`'s failure branch is not reachable.
- `startMatch` in `api.ts:63-66` only waits and logs. It cannot fail, so with it `AdminPage.StartMatch`'s failure branch is not reachable. `loadMatches` catches its own errors.
- `pushEvent` in `api.ts:50-58` takes `(matchId, message, type)` and posts `{ message, type }`. `Admin.tsx:115` passes the built event as `message` and no type. So the server stores `{ message: event }`, which has no `type` and is never counted as a goal. The model's `PushEventRequest` carries the built event itself.
- `loadMatches`, `reload` and `setTimeout` are left out. They are not only view refreshes. After each live event the detail view calls `reload`, and `App.tsx` then replaces the selected match, which re-runs the `[match]` effect. That is `EventFeed.Load`, which discards the live events put in front and restarts from the server's stored events. The model has `Load` and `Receive`, but it does not sequence them as the page does.
- React rendering is left out: JSX, icons, emoji, badges, the render-time filter on a string type, `toUpperCase` of the type label, and the `console` logging.
- The `_key` given to live events is left out. It is built from `Date.now()` and used only as a React key.
- The `catch` fallbacks of `calculateScore`, `getCurrentTime` and `generateEventMessage` are left out: the modelled computations cannot throw.
- Decimal.ParseDecimal: models `Number(id)` on plain decimal numerals only. Anything else reads as not a number. So " 7", "0x7" and "7.0" are not recognised as 7.
- Minutes are integers or missing. Fractional minutes and NaN are left out. `typeof NaN` is "number", so NaN would pass the detail view's validity tests, and `minute || 0` would turn it into 0. It cannot arrive over JSON, because `JSON.stringify` writes NaN as `null`.
- MatchesList.ListClock: a `null` minute is treated as not a number, although `Math.max` reads it as 0. A numeric-string minute is also treated as not a number, although `Math.max` coerces it.
- A `null` event has no model of its own. The detail view's filters drop it like an event with every field missing. The match list has no such guard: its filters and `map` read `event.type` and `event.minute` of a `null` event and throw. That failure is not modelled.
- A `type`, `player`, `playerIn` or `playerOut` that is present but not a string is folded into `None`.
- The number inputs of the admin form are integers. `Number("")` giving 0 and NaN inputs are left out.
- JavaScript's 53-bit number precision is left out: ids and counters are unbounded naturals.
- Server.MatchService.constructor: recovers the counter with the corrected `NextIdAfterLoad`, not the recovery as written. For loaded ids "1" and "x" the model's counter is 2, while the source's is NaN. The recovery as written is modelled only by `NextIdAsWritten` and `CreateIdAsWritten`, with the consequences shown under Findings.

## Findings

| source | as written | input that shows it | evidently intended | confidence | as-written member | corrected member |
|---|---|---|---|---|---|---|
| server/src/services/match.service.ts:23-25 | The counter is recovered as `Math.max(...ids.map(Number)) + 1`. That is NaN as soon as one loaded id is not a number, and NaN then survives `nextId++`. | A data file with ids "1" and "x", followed by two `createMatch` calls. Both new matches get the id "NaN". | Recover one more than the largest numeric id, ignoring ids that are not numbers, so ids handed out later stay unique. | not executed | Server.AsWrittenTextIdBreaksUniqueness | Server.NextIdAfterLoad |
