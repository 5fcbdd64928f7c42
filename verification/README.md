# Attendance engine of the work-hours chat bot, in Dafny

A model of the attendance engine of a chat bot that records a worker's day.
Each button tap (Start Work, Eat, Toilet, Smoke, Back to Seat, Off Work,
Session Summary) is an event against a per-user, per-day, append-only log of
activity entries. The model covers:

- closing the open activity when a new tap arrives (`stopPrevious`);
- the transition table of the message handler;
- cutting the log into sessions at `SessionEnd` markers;
- the per-category totals, counts, session total and net working time;
- the lateness rule for Start Work;
- the hours/minutes/seconds rendering of a duration.

Both versions of the handler are modelled over the same datatypes: the
current one (`index.js`) and the earlier one (`older/index.js`).

Times are whole seconds of the civil day (`Clock.TimeOfDaySeconds`, 0..86399). Durations are
`int` seconds and may be negative, because the source infers no day
roll-over. The clock is an input to each step: a `Moment` (weekday, hour,
minute, second) supplies both the entry timestamps and the lateness check.
Replies are structured data (`Replies.Reply`): the button, the ended
activity's category and length, the late flag, and the summary totals.

Modules, one per component:

| file | module | models |
|---|---|---|
| wrappers.dfy | `Wrappers` | `Option` |
| divmod.dfy | `DivMod` | uniqueness of Euclidean quotient and remainder |
| clock.dfy | `Clock` | time of day, `getDurationMinutes`, `getLatenessWarning` |
| duration_format.dfy | `DurationFormat` | `formatDuration` |
| activity_log.dfy | `ActivityLog` | entries, the log invariant, `stopPrevious`, the two pushes |
| session.dfy | `Session` | last-marker and first-marker segmentation |
| summary.dfy | `Summary` | `buildSessionSummary` aggregation |
| commands.dfy | `Commands` | the `/` guard, `trim`, the button labels |
| replies.dfy | `Replies` | reply and outcome shapes, replaying a day's messages |
| engine.dfy | `Engine` | the current message handler |
| older_engine.dfy | `OlderEngine` | the earlier message handler |
| store.dfy | `Store` | records keyed by user and date, the `/start` reset |
| findings.dfy | `Findings` | the two departures of the earlier version |
| scenarios.dfy | `Scenarios` | a worked Monday shift, boundaries, renderings |

Two behaviours of the code worth knowing, both modelled as written:

- A Session Summary tap reaches `record.save()` (`index.js:279-281`, `306`).
  When the user had no record that day, this stores an empty one.
  `Engine.Step` returns `Saved` for it, with the log unchanged.
- `/start` overwrites the day's activities with an empty list
  (`index.js:174-178`), whatever the day's log held. `Store.Restart`
  states this.

## Model

| member | source | states |
|---|---|---|
| Clock.Elapsed | index.js:38-44 | Elapsed time is 0 when either time is missing; otherwise start plus result equals end. It is 0 from a time to itself, non-negative when end ≥ start, and less than a day in size. |
| Clock.IsLate | index.js:65-84 | Late iff the time of day is strictly after the top of the deadline hour (the hour/minute/second rule, stated as seconds-of-day > deadline·3600). |
| Clock.DeadlineHour | index.js:72 | The deadline hour is 14 on Sunday (day 0) and 11 on every other day. |
| Clock.TimeOfDay | index.js:32-36 | The `HH:MM:SS` stamp, as seconds of the day, lies within the moment's hour. |
| Clock.TimeOfDayReadsBack | index.js:32-36 | The seconds-of-day stamp reads back as the moment's hour, minute and second. |
| DurationFormat.Decompose | index.js:46-49 | For a non-negative duration, the three numbers are its unique split: hours ≥ 0, minutes and seconds in 0..59, recombining to the total. For a negative duration, hours < 0, minutes ≤ 0 and seconds in (-60, 0]. |
| DurationFormat.TruncRem | index.js:48-49 | JavaScript `%`: the remainder has the dividend's sign and is smaller than the divisor in size, and the dividend minus it is a multiple of the divisor, so it is the unique such value. |
| DurationFormat.Units | index.js:50-53 | The hours piece is emitted iff hours > 0. The minutes piece is emitted iff hours > 0 or minutes > 0. The seconds piece is always emitted. No other piece appears, and the pieces come in the order hours, minutes, seconds. |
| DurationFormat.UnitsReadBack | index.js:50-53 | For a non-negative duration, the emitted pieces add back up to the duration, so omitting zero leading units loses nothing. |
| DurationFormat.NegativeShowsOnlySeconds | index.js:46-54 | A negative duration renders as its truncated seconds alone. |
| DurationFormat.FormatDuration | index.js:46-55 | The rendering is exactly the join of the pieces Units fixes, so the `|| "0秒"` fallback is never reached. It is never empty and always ends in the seconds label. |
| DurationFormat.Join | index.js:51-54 | `parts.join("")` over the templates `${hours}小时`, `${minutes}分` and `${seconds}秒` (RenderUnit): a non-empty list of pieces joins to a non-empty text, and a single piece joins to its own rendering. |
| DurationFormat.JoinAppend | index.js:54 | Joining two runs of pieces is joining each and concatenating, since the separator is empty. |
| DurationFormat.JoinEndsInSeconds | index.js:50-54 | Joined pieces ending in a seconds piece end with its number and the seconds label, so the join is never empty and the `|| "0秒"` fallback never applies. |
| DurationFormat.FormatDurationEndsInSeconds | index.js:53-54 | The rendering ends with the decimal seconds followed by the seconds label. |
| DurationFormat.NatToStringReadsBack | index.js:51-53 | The decimal digits printed for a number read back as that number. |
| DurationFormat.IntToString | index.js:51-53 | A printed integer starts with '-' iff it is negative. |
| ActivityLog.StopPrevious | index.js:204-213 | It closes an entry iff the last entry exists, is open and is not a marker. Then that entry's end becomes `now` and it reports the entry's category and `now − start`. Otherwise nothing is reported and the log is unchanged. Nothing else changes. On a well-formed log, no entry is open afterwards. |
| ActivityLog.OpenNew | index.js:221 | The log grows by one open entry of the given category starting at `now`, with the old log as prefix; this keeps the invariant when nothing was open. |
| ActivityLog.MarkSessionEnd | index.js:287-291 | The log grows by one marker whose start and end are both `now`. With nothing open, the invariant holds and nothing is open afterwards. |
| ActivityLog.WellFormedAtMostOneOpen | index.js:204-213 | The invariant means at most one entry has no end, and if one does it is the last entry. |
| ActivityLog.OpenCountZero | index.js:206 | No open entry is the same as an open count of zero. |
| ActivityLog.StopPreviousKeepsCategories | index.js:204-213 | Closing an entry changes no entry's category. |
| Session.StartAfterLast | index.js:108-117 | The session starts one past a marker, or at 0. No entry from there on is a marker. |
| Session.StartAfterFirst | older/index.js:69-71 | The session starts one past the first marker, with no marker before it, or at 0 when the log has no marker. |
| Session.FindSessionStart | index.js:108-116 | The backward scan stops at the last marker. It returns the start StartAfterLast characterises. |
| Session.FindFirstSessionStart | older/index.js:69-70 | The forward `findIndex` scan stops at the first marker. It returns the start StartAfterFirst characterises. |
| Session.CurrentSession | index.js:117 | Under the current rule, the session is the suffix from the session start and contains no marker. |
| Session.LastMarkerUnique | index.js:108-116 | Only one index satisfies the last-marker characterisation. |
| Session.FirstMarkerUnique | older/index.js:69-70 | Only one index satisfies the first-marker characterisation. |
| Session.RulesAgreeIffAtMostOneMarker | older/index.js:69-71 | The first-marker and last-marker rules choose the same session iff the log holds at most one marker. |
| Session.FirstBeforeLast | older/index.js:69-71 | The first-marker session always contains the last-marker session. |
| Session.SessionStartByCategories | index.js:108-116 | Logs with the same categories are cut at the same place under either rule. |
| Session.EndingMarkerEmptiesSession | index.js:108-117 | A log ending in a marker has an empty current session. |
| Summary.ClosedOf | index.js:125 | The filter never lengthens the session; which entries it keeps is stated by ClosedOfMembers. |
| Summary.SumLengths | index.js:126 | The reduce over entries of non-negative length gives a non-negative total. |
| Summary.TallyOf | index.js:124-133 | A category's count is at most the session's length, and a zero count means a zero total. |
| Summary.TallyAppend | index.js:124-133 | One more entry changes a category's total and count only if it is a closed entry of that category: total + length and count + 1. Open entries contribute nothing. |
| Summary.EndingLastTally | index.js:124-133 | Ending a log's last, open entry adds its length and one to its own category's line and leaves every other line alone. |
| Summary.TallyCategory | index.js:124-133 | The filter-then-reduce loop yields the category's closed-entry total and count. A zero count forces a zero total. |
| Summary.ClosedOfMembers | index.js:125 | The filter keeps exactly the closed entries of the category. |
| Summary.EmptyTally | index.js:131-135 | The count is 0 iff the session has no closed entry of the category, and then the total is 0. |
| Summary.Aggregate | index.js:119-143 | The session total is the sum of the four category totals. Net working time equals the Work total. |
| Summary.BuildSummary | index.js:103-117 | The summary is the "no activity" answer iff the log is empty. Otherwise it holds the totals of the session the rule selects. |
| Summary.ListedCategories | index.js:135-140 | A category gets a line iff its total or count is positive; markers never get one; order is Work, Eat, Toilet, Smoke. |
| Summary.ListedIffClosedEntry | index.js:131-135 | A category is listed iff the session has a closed entry of it. |
| Summary.NothingClosedAllZero | index.js:135-148 | A session with no closed activity has zero totals and no category lines. |
| Summary.TotalIsAllClosedTime | index.js:119-143 | When markers have zero length, the session total equals the summed length of all closed entries. |
| Summary.BuildSummaryTally | index.js:123-133 | For a non-empty log, a category's line is its tally over the selected session. |
| Commands.Opens | index.js:219-271 | Start Work and Back to Seat open Work; Eat, Toilet and Smoke open their own category. Summary and Off Work open nothing, and no button opens a marker. |
| Commands.Token | index.js:219-283 | Every button label is longer than one character and does not start with '/', so the slash guard never drops a button. |
| Commands.ParseToken | index.js:218-303 | A text selects a button only if it equals that button's label. |
| Commands.ParseTokenRoundTrip | index.js:218-283 | Every label selects its own button, so labels are pairwise distinct. |
| Commands.Trim | index.js:194 | `trim` leaves no white space at either end and never lengthens the text. |
| Commands.TrimCutsOnlySpace | index.js:194 | What `trim` keeps is a contiguous slice of the text, and everything cut off on either side is white space. |
| Commands.TrimPadded | index.js:194 | Any white-space padding around a text without edge spaces is removed exactly. |
| Commands.Recognize | index.js:189-194 | A missing text, an empty text, or one starting with '/' selects nothing. A selected button's label equals the trimmed text. |
| Commands.RecognizePaddedToken | index.js:189-194 | A button label with white space around it selects that button. |
| Engine.Step | index.js:218-300 | Summary leaves the log unchanged and reports the current session. Every other button closes the previous activity, pushes exactly one entry and reports the ended activity. Activity buttons push an open entry of their category. Off Work pushes a zero-length marker and reports the session summary from before that push. Only Start Work can be late. |
| Engine.Handle | index.js:188-306 | A message is dropped unsaved iff it selects no button. Otherwise it is the step on the stored log, or on an empty log when none is stored. |
| Engine.HandlePreservesInvariant | index.js:198-306 | Every saved message keeps the invariant. The stored log only grows append-only, by one entry, or by none for Summary. |
| Engine.TapClosesOpenActivity | index.js:204-213 | Any non-Summary tap ends the open activity: its `end` becomes `now`, and the notice gives its category and length. |
| Engine.OffWorkClosesAll | index.js:283-291 | After Off Work no entry is open, and the log ends with a marker whose start and end are `now`. |
| Engine.OffWorkCountsEndedActivity | index.js:283-291 | The Off Work summary counts the activity that tap ends: its category gains its length and one entry. Other categories match the summary from before the tap. |
| Engine.ClosingCountsInSession | index.js:284-285 | Closing the open activity adds it to its category in the current session and changes no other category. |
| Engine.SummaryAfterOffWorkIsEmpty | index.js:279-291 | The new marker is not counted. A Summary right after Off Work shows an empty session with zero totals. |
| Engine.RunPreservesInvariant | index.js:188-306 | For every sequence of messages, the invariant holds. Earlier entries are never removed or reordered, and only a missing `end` is ever set. |
| Replies.Replay | index.js:188-306 | A day's messages through either handler: with no messages the record is as it was, a stored record stays stored, and a record is still missing only if every message was ignored. |
| Engine.Run | index.js:188-306 | Through the current handler, a record is still missing only if no message selected a button, and the stored log never shrinks. |
| Engine.RunAtMostOneOpen | index.js:188-306 | After any day's messages, at most one entry is open, and if one is, it is the last entry. |
| OlderEngine.Step | older/index.js:171-217 | Nothing is ever flagged late. Summary and Off Work both report the summary of the stored log from before the event, cut after the first marker. Activity buttons report no summary. Summary leaves the log as stored; every other button adds exactly one entry. |
| OlderEngine.Handle | older/index.js:138-223 | A message is dropped unsaved iff it selects no button. Otherwise it is the step for the selected button. |
| OlderEngine.SameLogAsCurrent | older/index.js:157-213 | The earlier handler drops the same messages as the current one. It stores the same log and gives the same ended-activity notice. |
| OlderEngine.NeverLate | older/index.js:172-177 | No Start Work is ever flagged late. |
| OlderEngine.OffWorkSummaryIsPreEvent | older/index.js:211-216 | The Off Work summary equals what a Summary tap would have shown just before it. |
| OlderEngine.SummaryAgreesWithCurrent | older/index.js:61-102 | With at most one marker in the log, both versions show the same Summary. |
| OlderEngine.RunSameAsCurrent | older/index.js:138-223 | Replaying any sequence of messages through the earlier handler stores the same log as the current version. |
| OlderEngine.RunPreservesInvariant | older/index.js:138-223 | The earlier version keeps the same log invariant. |
| Findings.FirstMarkerCountsEarlierShift | older/index.js:68-71 | With two finished shifts and a third open, the earlier Summary still counts the second shift's 2 hours of work. |
| Findings.LastMarkerCountsOnlyCurrentShift | index.js:108-117 | On the same log, the current Summary counts no closed work in the open third shift. |
| Findings.OlderOffWorkDropsEndedShift | older/index.js:211-216 | The earlier Off Work ends a 09:00-17:00 shift, yet its summary reports zero work. |
| Findings.CurrentOffWorkCountsEndedShift | index.js:283-291 | The current Off Work reports that shift as 8 hours of work, and the net time equals it. |
| Scenarios.MondayMorning | index.js:219-277 | Start Work 09:00, Eat 09:30, Back to Seat 09:40 on a Monday: no lateness, notices of 30 min Work and 10 min Eat, Work open at 09:40. |
| Scenarios.MondayOffWork | index.js:283-299 | Off Work at 17:40 ends 8h of Work. The summary shows Work 8h30m over 2 entries, Eat 10m over 1, total 8h40m and net 8h30m. |
| Scenarios.LatenessBoundaries | index.js:72-84 | On a weekday, 11:00:00 is on time and 11:00:01 is late. On a Sunday, 14:00:00 is on time and 14:00:01 is late. |
| Scenarios.SecondsOnlyRenderings | index.js:46-55 | 0 renders as "0秒" and half a minute as "30秒". |
| Scenarios.HourMinuteSecondRendering | index.js:46-55 | 61.5 minutes renders as "1小时1分30秒". |
| Scenarios.ShiftRendering | index.js:46-55 | 8h30m renders as "8小时30分0秒". |
| Scenarios.NegativeRendering | index.js:46-55 | Minus a minute and a half renders as "-30秒". |
| Store.Deliver | index.js:198-306 | A message changes at most the record of its own user and date. A dropped message changes nothing. A saved message stores the handler's log. |
| Store.Restart | index.js:169-178 | A text containing `/start` overwrites the day's record with an empty log and touches no other record. Any other text changes nothing. |
| Store.DeliverKeepsInvariant | index.js:198-306 | Every stored log keeps the invariant after any message. |
| Store.MentionsStart | index.js:169 | A text that triggers the `/start` handler is at least six characters long. |
| Store.MentionsStartAt | index.js:169 | `/start` anywhere in the text triggers the handler. |
| Store.MentionsStartFound | index.js:169 | A text triggers the handler only if it holds `/start` at some offset. |
| Store.NewDateStartsFresh | index.js:195-202 | The first message under a new date loads no record and reports no ended activity. The previous date's record, including an open entry, is left exactly as it was. |
| Store.StartTextIgnoredByMessageHandler | index.js:189 | The `/start` text itself is dropped by the message handler. |

## Left out

- Chat transport: polling, `sendMessage`, the keyboard markup and the HTML reply templates (icons, bilingual names, emphasis). Replies are structured data.
- Database persistence: `findOne`, `save`, `findOneAndUpdate` and the connection. The store is a map from (user, date) to a log. Failures of the database are not modelled, and the source does not handle them either.
- Time-zone conversion and date parsing: `toLocaleDateString`, `toLocaleTimeString`, `toLocaleString` in `Asia/Phnom_Penh`, and `new Date(...)`. The weekday and time of day are inputs.
- The two clock reads in the current Start Work handler (`getTime` and the `new Date()` inside `getLatenessWarning`) are one `Moment`. A tap straddling a second boundary is not modelled.
- Clock.Elapsed: durations are whole seconds, not fractional minutes. Floating-point rounding in `formatDuration` (`% 1` then `* 60` then `floor`) is not modelled.
- Midnight: records are keyed by user and `getToday()` (`index.js:195-202`), so the first tap after midnight loads a new, empty record and the previous day's open entry is never closed (`Store.NewDateStartsFresh`). A negative length can only arise when `getToday()` and `getTime()` (`index.js:195-196`) read the clock on either side of midnight within one message; the model reads the clock once per message, so this case is not modelled.
- Concurrency: lost updates when two messages of one user interleave their load and save.
- Category strings outside the five known ones cannot occur in the model. The source never writes them.
- User names, chat ids and the welcome text of `/start`.

## Findings

| source | as written | input that shows it | evidently intended | confidence | as-written member | corrected member |
|---|---|---|---|---|---|---|
| older/index.js:68-71 | `findIndex` cuts the session after the FIRST `SessionEnd`, although the comment above it asks for the most recent one | A log with shifts 09:00-12:00 and 13:00-15:00, each ended by Off Work, and Work open since 16:00. Summary reports Work 2h (1 entry) from the second shift. | Cut after the last marker, so only the open shift is summarised. The current version does this. | high; not executed | Findings.FirstMarkerCountsEarlierShift | Session.CurrentSession |
| older/index.js:211-216 | The Off Work summary re-reads the stored record, which still has the activity this tap ends as open | The stored log holds Work, open since 09:00. Off Work at 17:00 reports zero work and total 0. | Summarise after closing the activity, before pushing the marker. The current version does this. | high; not executed | Findings.OlderOffWorkDropsEndedShift | Engine.OffWorkCountsEndedActivity |
