# OpenRSVP: a verified model

OpenRSVP is an event invitation server. Most of it stores and shows records; this project models the
parts that carry invariants and proves them with Dafny. `dafny verify dfyconfig.toml` checks
everything.

| modules | subject |
|---|---|
| `AttendeeTable`, `AttendeeStore` | the attendees table, its statements and queries |
| `RsvpRules`, `RsvpEffects`, `RsvpService` | what each RSVP operation decides, what it makes of the table, and the service methods that carry it out |
| `RsvpOutcomes` | what a guest or organizer gets from each request, in columns, headcounts and request fields alone |
| `Waitlist` | the promotion loop and waitlist positions |
| `RsvpSettling` | when an operation leaves a guest waiting who would fit |
| `RsvpRuns`, `RsvpCounterexamples` | sequential runs of all operations, and runs that end above capacity |
| `RsvpInterleaving` | concurrent requests, manual promotions and imports, statement by statement, with the hashed pool of 256 mutexes |
| `RsvpCapacity`, `RsvpProgress`, `RsvpStaleUpdate` | the capacity bound, progress, and a run above capacity in those interleavings |
| `RsvpSeating`, `RsvpStaleSeat` | which steps of an interleaving seat a waiting guest, and a run in which an update by token passes the queue |
| `Placeholders`, `SqlTokens` | the SQL placeholder rewriter and IN clauses, and the same rewriting stated on tokens |
| `Gregorian`, `Recurrence`, `Series`, `SeriesDates` | the calendar, recurrence rules and the rolling generator of event series |
| `Ics` | iCalendar text escaping and line folding (RFC 5545, sections 3.1 and 3.3.11) |
| `RateLimit` | the sliding-window limiter against a limiter that forgets nothing |
| `LocalTime` | local time to UTC and back, over any time zone |
| `Reminders` | claiming, sending, cancelling and editing reminders |
| `CsvImport` | previewing and importing guest lists |
| `CommentPaging` | the public comment feed, page by page |
| `OrganizerCascade` | deleting an organizer's account, and the export beside it |

## How to read it

A table is a sequence or set of records and a query is the function its SQL text states. Where a query
leaves its answer open (which of several matching rows, the order of ties), the model allows every
answer. Ids, tokens and share tokens are opaque integers; generated ids and tokens, clocks, lookups and
send results are parameters. Strings that the program treats as bytes are sequences of characters, one
per byte; nothing depends on the range of a character. Instants are whole seconds (whole minutes in
`LocalTime`).

The methods of `RsvpService.Service`, `Series.SeriesService`, `RateLimit.RateLimiter` and the others follow
the program statement by statement and are proved to compute the functions the lemmas are about. What
those functions mean is stated once more without them, in columns, comparisons and literals: in
`RsvpOutcomes` for the RSVP operations, in `SqlTokens` for the lexer, and beside the definitions elsewhere.

Findings in the code that the proofs had to respect:

- `UpdateAttendeeAsOrganizer` checks the capacity only when a guest becomes attending
  (internal/rsvp/service.go:938). `RsvpEffects.OrganizerWithinCapacity` gives the exact condition,
  `RsvpCounterexamples.OrganizerOversellsAt` an input.
- `UpdateByToken` reads its row before it takes the lock and later writes the whole row back.
  `RsvpStaleUpdate.StaleUpdateOversells` is a run in which a corrected name puts an event for one at two
  heads, and `RsvpEffects.StaleTokenWithinCapacity` says exactly when such a write oversells.
- For the same reason the check that waiting guests cannot attend directly (internal/rsvp/service.go:676-679)
  can be passed: a guest who is put on the waitlist after the row was read is seated past the queue.
  `RsvpSeating.UpdateSeatsWaitingExactly` gives the exact condition, `RsvpStaleSeat.StaleUpdatePassesTheQueue`
  a run. `SubmitRSVP` has no such check: a waiting guest who submits again is seated when the party fits,
  whoever waits in front (`RsvpRuns.WaitingGuestSeatedOnlyBy` lists every way to a seat).
- `UpdateByToken` checks the capacity also when an attending guest raises the plus-ones while declining
  (internal/rsvp/service.go:715-724), so that a full event refuses such a request:
  `RsvpOutcomes.TokenMeetsOutcome`.
- `ExecuteCSVImport` stores plus-ones as they come in the request (internal/rsvp/import.go:289-298); only the
  preview rejects negative ones (internal/rsvp/import.go:206). A negative party makes room that its guest
  takes away again on leaving: `RsvpCounterexamples.NegativePartyOversells` is such a run from an empty
  table. `CsvImport.ImportKeepsPartiesExactly` and `RsvpEffects.RemoveWithinCapacity` give the conditions.
- `promoteFromWaitlist` says a party that is too large is skipped (internal/rsvp/service.go:1045), but the
  loop stops there. `Waitlist.LoopServesGreedyPrefix` states what the code does.
- `UpdateByToken` checks the answers to the event's questions after it has written the row, and a rejected
  answer ends the call before the promotion loop (internal/rsvp/service.go:759-773): a guest who declines
  with such an answer gets an error, has declined, and leaves the waitlist waiting for a free seat
  (`RsvpCounterexamples.RejectedAnswerStrandsBob`). `SubmitRSVP` returns the same error over a written row.
- Seats are also freed without a promotion by a guest who leaves through `SubmitRSVP`, by lowering the
  plus-ones of a guest who stays attending, and for the next in line by removing a party that was too
  large. `RsvpSettling` says for each operation exactly when somebody is left waiting who would fit.
- The account deletion does not mention e-mail suppressions and unsubscribe tokens, which are kept per event
  too (internal/suppression/store.go:76-79, 127-130): it relies on the database's ON DELETE CASCADE for
  them. `OrganizerCascade.ScopedRowsDangleExactly` says when they would dangle without it.
- The generator takes the day of the month from the last stored date (internal/event/series_service.go:212),
  so a monthly series that met a short month at the end of a batch stays on the shorter day:
  `Recurrence.RestartKeepsDayExactly`.
- In the rewriter, slash-star-slash is a whole comment (internal/database/rewrite.go:75):
  `Placeholders.SlashStarSlashIsClosed`.
- The reminder update handler checks the status when it reads, not when it writes
  (internal/scheduler/handler.go:201-234): `Reminders.WriteBackExactly`, `Reminders.UnguardedEditClaimsTwice`.
- The comment cursor is a time without a tie-breaker: `CommentPaging.OmittedExactly` says which comments a
  reader never sees.
- `datetimeLocalToUTC` lands on a different wall-clock time exactly for skipped times, `LocalTime.SkippedTimes`
  says which, and for the years 0 to 99, which JavaScript's Date.UTC reads as 1900 to 1999.

## Model

| member | source | states |
|---|---|---|
| Waitlist.LoopServesGreedyPrefix | internal/rsvp/service.go:1023-1072 | with non-negative plus-ones the loop promotes exactly those waitlisted guests for whom everybody with an earlier created_at, or the same and no larger id, fits into capacity minus headcount; every other row is unchanged |
| Waitlist.ServedIsPrefix | internal/rsvp/service.go:1038-1046 | nobody is served past a guest who waits with an earlier created_at, or the same one and a smaller id |
| Waitlist.LoopSettlesWithinCapacity | internal/rsvp/service.go:1029-1072 | on any table, the loop stops only when the first waiting party does not fit, never passes the larger of the capacity and the headcount before, and leaves other events' headcounts alone |
| Waitlist.PromotionShrinksWaitlist | internal/rsvp/service.go:1048-1064 | each promotion shortens the waitlist by one: the measure by which the loop ends |
| Waitlist.LoopTouchesOnlyWaiting | internal/rsvp/service.go:1048-1054 | on any table, a row changes only from waiting at the event to attending and keeps everything else |
| Waitlist.PositionIsBijection | internal/rsvp/store.go:229-240 | GetWaitlistPosition is one-to-one between the waitlisted guests of an event and 1 to n |
| Waitlist.FirstHasPositionOne | internal/rsvp/store.go:214-240 | the guest FindFirstWaitlisted returns has position 1 |
| Waitlist.PositionsDropTogether | internal/rsvp/store.go:229-240 | after a loop that promotes k guests, every guest still waiting has moved up by exactly k |
| AttendeeTable.FirstWaitlistedIsFirst | internal/rsvp/store.go:214-225 | the query finds nobody exactly when nobody waits, and otherwise a waiting guest such that no waiting row has a smaller created_at, nor the same one and a smaller id |
| AttendeeTable.UpdateIsPointwise | internal/rsvp/store.go:106-120 | an update writes the row with its id, keeping event, token and creation time, and no other row |
| AttendeeTable.DeleteIsPointwise | internal/rsvp/store.go:123-129 | a delete removes the row with its id and no other |
| AttendeeStore.GetStats | internal/rsvp/store.go:132-172 | whatever order the groups come in, every field is the count or the seats of the rows with its statuses, also for statuses without a group |
| AttendeeStore.GroupHeadsAreHeadcount | internal/rsvp/store.go:134-211 | COUNT(*) plus SUM(plus_ones) of GetStats and SUM(1 + plus_ones) of GetPublicAttendance are the same headcount |
| AttendeeStore.HeadcountCounts | internal/rsvp/store.go:134-154 | the headcount is the number of attending rows of the event plus the sum of their plus-ones |
| AttendeeStore.Store.GetWaitlistPosition | internal/rsvp/store.go:229-240 | one more than the number of waitlisted rows of the event with a smaller created_at, or the same one and a smaller id; without such a row of the event the answer is 1 |
| RsvpService.Service.SubmitRSVP | internal/rsvp/service.go:312-550 | `SubmitOutcome`: an unacceptable, late or unreachable request leaves the table alone; an attending one is stored as attending if and only if there is no capacity or the others' heads plus the party are within it, and otherwise as waitlisted, or refused without a waitlist; a declined or maybe one with that status; name, plus-ones and contact fields as requested; rejected answers give an error although the row is written |
| RsvpService.Service.UpdateByToken | internal/rsvp/service.go:648-776 | `TokenOutcome`: nothing changes after the deadline, for another status, a negative party or a waiting guest who asks to attend, nor when seats are needed and the party does not fit beside the others; otherwise the row has the requested name, status and plus-ones and its old contact fields, and the promotion loop follows exactly when the guest stopped attending and the answers are accepted |
| RsvpService.Service.RemoveAttendee | internal/rsvp/service.go:832-868 | `RemoveOutcome`: the row is cut out, followed by the promotion loop exactly when the guest was attending; wrong event and missing row leave the table alone |
| RsvpService.Service.UpdateAttendeeAsOrganizer | internal/rsvp/service.go:875-987 | `OrganizerOutcome`: the three refusals, with the capacity looked at only for a guest who becomes attending; otherwise every column, e-mail and phone included, is the requested one or the old one, and the promotion loop follows exactly when the guest stopped attending |
| RsvpService.Service.PromoteAttendee | internal/rsvp/service.go:991-1020 | only a waitlisted guest of the event becomes attending, whatever the capacity |
| RsvpService.Service.PromoteFromWaitlist | internal/rsvp/service.go:1023-1055 | `PromotionOutcome`: seats the first in line, by created_at and id, exactly when there is a capacity, a waitlist, a free seat and room for the whole party; otherwise changes nothing |
| RsvpService.Service.PromoteWaitlistLoop | internal/rsvp/service.go:1059-1072 | ends, and leaves the drained table of the Waitlist lemmas |
| RsvpService.Service.FindExisting | internal/rsvp/service.go:422-435 | a guest of the event matching by email, by phone only when no email matches, or nobody when neither does |
| RsvpOutcomes.SubmitMeetsOutcome | internal/rsvp/service.go:312-550 | the decision function of a submission and its effect on the table meet `SubmitOutcome`, which does not mention them |
| RsvpOutcomes.TokenMeetsOutcome | internal/rsvp/service.go:648-776 | the same for an update by token and `TokenOutcome` |
| RsvpOutcomes.TokenRoom | internal/rsvp/service.go:690-725 | the three capacity checks of an update by token are one: the new party fits beside the others, looked at when a guest asks to attend or an attending guest raises the party |
| RsvpOutcomes.OrganizerMeetsOutcome | internal/rsvp/service.go:875-987 | the same for an organizer update and `OrganizerOutcome` |
| RsvpOutcomes.NextPromotedExactly | internal/rsvp/service.go:1029-1047 | the loop seats a guest next if and only if nobody waits before by created_at and id, there is a free seat and the party fits |
| RsvpEffects.SubmitWithinCapacity | internal/rsvp/service.go:437-529 | after a submission the headcount is at most the larger of the capacity and the headcount before, and other events keep theirs, if and only if it is not a guest with a negative party who leaves and the rest does not fit |
| RsvpEffects.TokenWithinCapacity | internal/rsvp/service.go:690-775 | the same for an update by token whose row is the stored one, promotions included |
| RsvpEffects.RemoveWithinCapacity | internal/rsvp/service.go:848-867 | a removal with its promotions obeys the bound if and only if the freed seats are not negative or the rest fits |
| RsvpEffects.OrganizerWithinCapacity | internal/rsvp/service.go:938-984 | an organizer update with its promotions obeys the bound if and only if it neither raises the party of a guest who stays attending past the capacity nor lets a costly negative party leave |
| RsvpEffects.ManualPromotionWithinCapacity | internal/rsvp/service.go:989-1010 | a manual promotion obeys the bound if and only if the party is negative or happens to fit |
| RsvpEffects.TokenStoreWithinCapacity | internal/rsvp/service.go:649-759 | the write of an update by token, whatever row it read, obeys the bound if and only if it does not claim, unnoticed by the checks, more seats than the stored row holds and the event has |
| RsvpEffects.StaleTokenWithinCapacity | internal/rsvp/service.go:649-759 | without negative parties only a row read as attending can oversell, exactly when the seats it keeps claiming exceed the stored row's and do not fit |
| RsvpEffects.CurrentTokenOversells | internal/rsvp/service.go:690-725 | a row that is still the stored one oversells only by a costly negative party leaving |
| RsvpSettling.HeadAfterStore | internal/rsvp/store.go:214-225 | the head of the waitlist after an update is the first other waiting guest or the updated row, whichever comes first |
| RsvpSettling.NewGuestKeepsSettled | internal/rsvp/service.go:495-531 | if the head of the waitlist does not fit, it does not fit after a new guest's submission either |
| RsvpSettling.SubmitSettlesExactly | internal/rsvp/service.go:437-492 | after a known guest's submission the head of the waitlist does not fit if and only if the head computed from the other waiting guests and the new row does not fit into the seats then left |
| RsvpSettling.TokenSettlesExactly | internal/rsvp/service.go:743-773 | after an update by token: always when the guest left attending and the answers were accepted, otherwise by the same condition |
| RsvpSettling.OrganizerSettlesExactly | internal/rsvp/service.go:952-984 | after an organizer update: always when the guest stopped attending, otherwise by the same condition |
| RsvpSettling.RemoveSettlesExactly | internal/rsvp/service.go:858-866 | a removal leaves a guest who fits if and only if it removed the head of the waitlist and the next one fits |
| RsvpSettling.ManualPromotionSettlesExactly | internal/rsvp/service.go:1002-1010 | after a manual promotion: by the same condition on the row as after an update |
| RsvpSettling.ManualPromotionKeepsSettled | internal/rsvp/service.go:1002-1010 | if the head of the waitlist does not fit, it does not fit after a manual promotion of a party that takes no seats away either |
| RsvpSettling.SubmitPromotesNobody | internal/rsvp/service.go:459-492 | a guest leaving through SubmitRSVP leaves a guest who fits if and only if the head of the waitlist fits into the seats given up; every other row stays |
| RsvpSettling.RejectedAnswersPromoteNobody | internal/rsvp/service.go:759-773 | the same for a guest leaving by token with answers that are rejected |
| RsvpSettling.LoweredByToken | internal/rsvp/service.go:715-773 | the same for plus-ones lowered by token while attending |
| RsvpSettling.LoweredByOrganizer | internal/rsvp/service.go:970-984 | the same for plus-ones lowered by the organizer |
| RsvpRuns.OperationWithinCapacity | internal/rsvp/service.go:312-1020 | on any table with unique ids, each operation obeys the bound at its event if and only if it does not overrun, the condition given above for each |
| RsvpRuns.OperationLeavesOthers | internal/rsvp/service.go:312-1020 | no operation, overrunning or not, moves another event's headcount |
| RsvpRuns.WaitingGuestSeatedOnlyBy | internal/rsvp/service.go:312-1072 | a waiting guest becomes attending only through the own submission if it fits, an organizer's edit of the own row if it fits, a manual promotion, or the loop after an attending guest left by token with accepted answers, by the organizer's edit or by removal; never through the own update by token |
| RsvpRuns.SubmitKeepsEmailsApart | internal/rsvp/service.go:422-531 | if no two guests of an event share an e-mail address, none do after a submission: who submits again is found |
| RsvpRuns.RunWithinCapacity | internal/rsvp/service.go:312-1072 | over every run, also from above capacity, an event at which no operation overruns does not end above the larger of its first headcount and its capacity, whatever happens at other events |
| RsvpRuns.ImportKeepsSound | internal/rsvp/import.go:289-312 | an import keeps its event free of negative parties if and only if the imported rows are |
| RsvpRuns.CheckedEventWithinCapacity | internal/rsvp/service.go:312-1072 | an event without negative parties keeps its bound over every run in which, at that event, nobody promotes by hand, raises an attending party as organizer or imports a negative party |
| RsvpCounterexamples.OrganizerOversellsAt | internal/rsvp/service.go:937-977 | an organizer's plus-one puts an event for one at two heads |
| RsvpCounterexamples.ManualPromotionOversellsAt | internal/rsvp/service.go:991-1010 | so does a manual promotion |
| RsvpCounterexamples.RejectedAnswerStrandsBob | internal/rsvp/service.go:759-773 | a guest declines with a rejected answer, and the next in line keeps waiting at an empty event for one |
| RsvpCounterexamples.NegativePromotionStrandsBob | internal/rsvp/service.go:1002-1010 | promoting a party of minus two plus-ones by hand leaves a guest waiting who fits |
| RsvpCounterexamples.ImportTakesNegativeParty | internal/rsvp/import.go:262-318 | a row with minus two plus-ones is imported as it is |
| RsvpCounterexamples.NegativePartyOversells | internal/rsvp/import.go:289-298 | from an empty table, importing that guest, accepting, a submission for two and a removal put an event for one at two heads |
| RsvpInterleaving.StepKeepsInvariant | internal/rsvp/service.go:415-508 | every step of every thread, unlocked promotions and imports included, keeps: ids unique, mutexes held by exactly the threads inside, and, at events nobody promotes by hand at, rows and headcounts read inside a critical section still true |
| RsvpInterleaving.InterleavingsKeepInvariant | internal/rsvp/service.go:415-1072 | over every interleaving over many events; in particular a headcount read inside a critical section is still the stored one at the write, except at events where guests are promoted by hand |
| RsvpInterleaving.QuietTableSatisfiesInvariant | internal/rsvp/service.go:56-63 | a run may start from any table with unique ids while no request is under way and no mutex is held |
| RsvpInterleaving.MutualExclusion | internal/rsvp/service.go:58-63 | two threads are never inside critical sections of the same limited event |
| RsvpInterleaving.OneLockPerThread | internal/rsvp/service.go:58-63 | no operation holds two mutexes of the pool |
| RsvpInterleaving.StepWrites | internal/rsvp/service.go:437-1064 | a step changes rows of its own event only, and only at a request's write, a promotion or an import |
| RsvpInterleaving.MemorySurvives | internal/rsvp/service.go:415-508 | a write at one event leaves true what every thread outside that event's critical section relies on, even when events share a mutex |
| RsvpInterleaving.MemorySurvivesImport | internal/rsvp/import.go:289-312 | an unlocked import leaves true what every thread relies on, even inside that event's critical section |
| RsvpInterleaving.BlockedExactly | internal/rsvp/service.go:47-63 | a request waits for its mutex exactly while a thread is inside for an event with a capacity whose hash is the same modulo 256; without a capacity it never waits |
| RsvpInterleaving.NoRunDeadlocks | internal/rsvp/service.go:58-63 | after every run, while a request is unfinished some unfinished request can take a step |
| RsvpCapacity.StepWithinCapacity | internal/rsvp/service.go:415-1064 | whatever the other threads do, a step takes a limited event at which nobody is promoted by hand past the larger of its headcount and its capacity if and only if it is an overrunning write at that event, the guard given for each request on the rows stored when it writes |
| RsvpCapacity.InterleavingsRespectCapacity | internal/rsvp/service.go:415-1072 | in every interleaving over many events, an event at which no write overruns and nobody is promoted by hand does not end above the larger of its first headcount and its capacity, whatever happens at other events |
| RsvpCapacity.StepKeepsRow | internal/rsvp/service.go:649-759 | a row that is still the stored one when its update takes the lock stays so until the update writes it |
| RsvpCapacity.DisciplinedEventWithinCapacity | internal/rsvp/service.go:415-1072 | an event without negative parties keeps its bound over every interleaving in which, at that event, updates by token hold the stored row when they take the lock, no organizer raises an attending party or promotes by hand, and nobody imports a negative party |
| RsvpProgress.OwnStepSpends | internal/rsvp/service.go:415-1072 | each step of a thread inside a critical section spends from a budget of three steps per waiting guest and ten |
| RsvpProgress.OtherStepAddsNothing | internal/rsvp/service.go:415-1072 | no other thread's step adds to it, manual promotions at the same event included |
| RsvpProgress.InsideIsBounded | internal/rsvp/service.go:415-1072 | in every interleaving a thread inside a critical section has left it by the time it has taken as many steps of its own as its budget |
| RsvpStaleUpdate.StaleUpdateOversells | internal/rsvp/service.go:649-685 | a reachable end of a run from a table at capacity in which a name correction read before the lock restores a declined guest and the event holds two heads for one seat |
| RsvpSeating.WaitingGuestSeatedOnlyBy | internal/rsvp/service.go:415-1072 | in every interleaving a step seats a waiting guest only as the write of a submission that fits or of an organizer's edit, as a promotion by the loop, which serves the first in line at events nobody promotes by hand at, as a manual promotion, or as an update by token that did not read the guest as waiting |
| RsvpSeating.UpdateSeatsWaitingExactly | internal/rsvp/service.go:649-757 | the write of an update by token seats a guest who waits if and only if it read the row as not waiting, stores it as attending and fits the heads it read |
| RsvpStaleSeat.StaleUpdatePassesTheQueue | internal/rsvp/service.go:649-685 | a run in which the organizer puts a guest on the waitlist, behind another one, while the guest waits for the lock to attend, and the update seats her |
| Placeholders.RewritePlaceholders | internal/database/rewrite.go:17-92 | the loop with its lazily created buffer writes $k for the k-th question mark read in normal context and keeps every other byte |
| Placeholders.RewrittenIsRender | internal/database/rewrite.go:38-86 | numbering each byte by its context and the placeholders before it is the same as numbering from left to right |
| Placeholders.DecimalDenotes | internal/database/rewrite.go:51-51 | the numeral written for n denotes n and has no leading zero |
| Placeholders.SlashStarSlashIsClosed | internal/database/rewrite.go:59-82 | slash-star-slash leaves the lexer in normal context |
| Placeholders.Relex | internal/database/rewrite.go:41-83 | lexing the output visits the contexts of the input, with the placeholder's repeated over its numeral, ends in the same context and meets no placeholder |
| Placeholders.RewriteIsIdempotent | internal/database/rewrite.go:17-92 | rewriting twice is rewriting once |
| Placeholders.RewriteRoundTrip | internal/database/rewrite.go:42-52 | turning each $digits of normal context back into a question mark recovers the query if and only if no dollar sign or placeholder in normal context is directly followed by a digit |
| Placeholders.RenderConcat | internal/database/rewrite.go:38-86 | the rewriting of a concatenation is that of its parts, the second numbered on from the first, when the seam does not form a two-byte token |
| Placeholders.InClause | internal/auth/store.go:434-445 | one question mark per id separated by commas in parentheses, and the ids as arguments in order |
| Placeholders.RenderClause | internal/auth/store.go:434-445 | the clause for k ids holds k placeholders, becomes ($n+1,...,$n+k) after n others, and ends in normal context |
| Placeholders.InClausePlacement | internal/event/store.go:112-121 | put after a prefix in normal context with p placeholders, the clause is numbered p+1 to p+k and the suffix from p+k+1 |
| SqlTokens.RewritingNumbersTokens | internal/database/rewrite.go:17-92 | however a query is split into quoted literals, comments and other bytes, the rewriting numbers the question marks among the latter and copies everything else |
| SqlTokens.EveryQueryHasTokens | internal/database/rewrite.go:38-86 | every query can be split that way, unclosed literals and comments at the end included |
| SqlTokens.LiteralIsCopied | internal/database/rewrite.go:62-69 | a quote, text without that quote and the quote again are copied, and what follows is read in normal context; both kinds of quotes |
| SqlTokens.LineNoteIsCopied | internal/database/rewrite.go:70-73 | the same for two hyphens up to the next newline |
| SqlTokens.BlockNoteIsCopied | internal/database/rewrite.go:74-82 | the same for slash-star up to the first star-slash |
| SqlTokens.PlainTextIsNormal | internal/database/rewrite.go:55-61 | text without quotes, double hyphens and slash-stars is in normal context throughout |
| Recurrence.LastDayIsMonthLength | internal/event/series_service.go:546-546 | day 0 of the following month is the last day of the month, in every month of every year |
| Recurrence.MonthlyClosedForm | internal/event/series_service.go:537-552 | k monthly steps lead to the month k later, on the original day or the last day of a shorter month, at the same time of day |
| Recurrence.StepLength | internal/event/series_service.go:531-555 | weekly and biweekly steps are 7 and 14 days, monthly ones 28 to 31, at the same time of day |
| Recurrence.StepAdvances | internal/event/series_service.go:531-555 | from any instant, clamped or not, a step of any rule leads strictly forward |
| Recurrence.StepsFollowCalendar | internal/event/series_service.go:531-555 | stepping stored instants is stepping calendar dates |
| Recurrence.RestartKeepsDayExactly | internal/event/series_service.go:211-215 | a call that restarts from a clamped date continues on the original day if and only if that day exists in the month of the last stored date |
| Recurrence.DriftExample | internal/event/series_service.go:212-215 | a series of 31 January continues on 30 May after a first batch that ended on 30 April |
| Series.SeriesService.GenerateInitialOccurrences | internal/event/series_service.go:132-167 | appends the first batch, whose content `FirstBatchExactly` states, and nothing else |
| Series.SeriesService.GenerateOccurrences | internal/event/series_service.go:171-238 | appends the next batch, nothing for an inactive series or a full window |
| Series.BuildOccurrence | internal/event/series_service.go:481-525 | a published event of the series with its index; end, RSVP deadline and waitlist flag set exactly when duration, offset and capacity are, at their distance from the start |
| Series.FillIsWellFormed | internal/event/series_service.go:146-164 | a batch is numbered on from the total, strictly increasing, with every date at or before the recurrence end, within the maximum and no longer than asked for |
| Series.FillStopsOnlyAtLimits | internal/event/series_service.go:214-235 | a batch is shorter than asked for only when the total has reached the maximum or the next date is later than the recurrence end |
| Series.FirstBatchExactly | internal/event/series_service.go:142-164 | a new series has an occurrence on its start date if and only if the start is not after the end and the maximum is positive; it has four unless the maximum is reached or the next date is after the end |
| Series.OfSeriesKeepsMatching | internal/event/store.go:340-345 | the query by series keeps every row of the series as often as it is stored and no other |
| Series.UpcomingKeepsMatching | internal/event/store.go:313-317 | the query for upcoming events keeps exactly the rows later than the clock that are neither cancelled nor archived |
| Series.LastDateIsLast | internal/event/series_service.go:190-204 | whichever of the three branches runs, a call continues from the last occurrence, or the clock when there is none |
| Series.UpcomingIsTail | internal/event/store.go:313-337 | the upcoming events of an increasing series are its last ones |
| Series.RunFromCreation | internal/event/series_service.go:132-238 | over every run of creation and generator calls at any times, beside other events, indexes are 1 to n in strictly increasing date order, n never passes the maximum and every date is at or before the recurrence end |
| Series.WindowIsRefilled | internal/event/series_service.go:185-235 | a call that starts with one to four upcoming events ends with exactly four unless the total has reached the maximum or the next date is later than the recurrence end |
| SeriesDates.FirstBatchDates | internal/event/series_service.go:142-164 | occurrence i of the first monthly batch is i months after the start on the start day or the last of a shorter month |
| SeriesDates.NextBatchFollowsRule | internal/event/series_service.go:206-235 | occurrence i of a later batch is i+1 steps after the last stored one, for every rule |
| SeriesDates.NextBatchDates | internal/event/series_service.go:211-235 | a later monthly batch counts months from the last stored occurrence and keeps that one's day |
| SeriesDates.MonthlyRun | internal/event/series_service.go:132-238 | over every run with a non-empty first batch, occurrence i lies i months after the start, at its time of day, on its day or an earlier one but not before the 28th unless the start is |
| Gregorian.DayNumberOfDate | internal/event/series_service.go:534-552 | the calendar behind date arithmetic: every day number has a date with that number |
| Gregorian.DateOfDayNumber | internal/event/series_service.go:534-552 | and every date is recovered from its number, leap years included |
| Gregorian.YearsInClosedForm | internal/event/series_service.go:534-552 | the days before a year, negative years included: 365 each and one per multiple of 4, less those of 100, plus those of 400 |
| Gregorian.DaysOfMonths | internal/event/series_service.go:534-552 | the days before each month |
| Ics.EscapeIsOnePass | internal/calendar/ics.go:113-120 | the five replacement passes are one pass over the bytes: none touches what an earlier one wrote |
| Ics.TextRoundTrip | internal/calendar/ics.go:113-120 | decoding TEXT recovers the text without its carriage returns, for every text |
| Ics.EscapeIsInjective | internal/calendar/ics.go:113-120 | two texts are escaped alike if and only if they differ in carriage returns only |
| Ics.EscapedHasNoLineBreak | internal/calendar/ics.go:113-120 | no raw carriage return or line feed in the output |
| Ics.EscapedIsText | internal/calendar/ics.go:113-120 | in the output every backslash, comma and semicolon is part of an escape sequence, and only these and newlines are escaped |
| Ics.WriteFoldedLine | internal/calendar/ics.go:124-149 | appends the pieces of the line, each on its own physical line, all but the first after a space |
| Ics.FoldedLinesAreShort | internal/calendar/ics.go:124-149 | every physical line has at most 75 octets, whatever the line holds, and all but the last are full |
| Ics.FoldRoundTrip | internal/calendar/ics.go:124-149 | unfolding recovers the line if and only if no piece of it holds a CRLF followed by a space or tab |
| Ics.PropertyRoundTrip | internal/calendar/ics.go:113-149 | escaping, folding, unfolding and decoding a property value recovers the text without carriage returns, for every text |
| RateLimit.PruneEntries | internal/security/ratelimit.go:112-121 | compaction in place keeps exactly the entries not before the cutoff, in order |
| RateLimit.RateLimiter.Allow | internal/security/ratelimit.go:65-87 | true exactly when fewer than limit entries of the key are at most the window's length old; the key's entries become those, plus now if allowed; other keys are untouched although buffers are shared memory |
| RateLimit.RateLimiter.Reset | internal/security/ratelimit.go:90-94 | forgets the key and nothing else |
| RateLimit.RateLimiter.Cleanup | internal/security/ratelimit.go:98-109 | prunes every key and drops those left empty, whatever order the map is walked in |
| RateLimit.CleanupDropsExactly | internal/security/ratelimit.go:98-109 | a key is dropped if and only if all its entries are before the cutoff |
| RateLimit.StepAgrees | internal/security/ratelimit.go:65-109 | the limiter and one that keeps every accepted request since the last reset, and counts the recent ones itself, stay in agreement from the window's start on |
| RateLimit.RunAgrees | internal/security/ratelimit.go:65-109 | over every run with a non-decreasing clock, with resets and cleanups anywhere, both give the same answers |
| RateLimit.LimiterIsSliding | internal/security/ratelimit.go:65-109 | from a new limiter: the same answers, and no closed interval of the window's length holds more than limit accepted requests of a key since its last reset |
| LocalTime.DatetimeLocalToUTC | web/src/lib/utils/dates.ts:50-66 | the two-step loop applies the computed offset of the first guess and then that of the second |
| LocalTime.ConvertedConverges | web/src/lib/utils/dates.ts:57-63 | away from the first days of year 100, that is w + offset(w + offset(w)) for the first guess w and the zone's own offset |
| LocalTime.OffsetIsZone | web/src/lib/utils/dates.ts:104-134 | reading the formatted fields back as UTC gives the zone's offset, from year 100 on |
| LocalTime.FieldsOfMinutes | web/src/lib/utils/dates.ts:72-98 | formatting the minutes of a wall-clock time gives it back |
| LocalTime.LocalTimeRoundTrip | web/src/lib/utils/dates.ts:50-98 | for offsets within a bound and at most one change within it of the time, utcToDatetimeLocal undoes the conversion if and only if the wall-clock time exists, repeated hours included, and its year is not one of 0 to 99 |
| LocalTime.EarlyYearsNeverRoundTrip | web/src/lib/utils/dates.ts:50-98 | for those years it never does, whatever the zone's changes |
| LocalTime.OccursExactly | web/src/lib/utils/dates.ts:50-66 | near a change, a wall-clock time exists if and only if it lies outside the gap the change opens |
| LocalTime.SkippedTimes | web/src/lib/utils/dates.ts:57-63 | a skipped time comes back moved by exactly the length of the change, in the direction stated |
| LocalTime.SkippedTimeExample | web/src/lib/utils/dates.ts:57-63 | in one zone, on any day of years after 100, 11:50 is skipped and comes back as 10:50 |
| LocalTime.RepeatedTimes | web/src/lib/utils/dates.ts:57-63 | which of its two occurrences a repeated time is read as |
| Reminders.ReminderStore.ClaimForProcessing | internal/scheduler/reminder_store.go:164-182 | succeeds exactly on a scheduled reminder, which becomes processing |
| Reminders.ReminderStore.Cancel | internal/scheduler/reminder_store.go:139-159 | succeeds exactly on a scheduled reminder, which becomes cancelled |
| Reminders.ProcessReminder | internal/scheduler/reminder.go:76-132 | only a claimed reminder changes: sent if the attendees are found and there are none, or the event is found and some send gets through; failed otherwise |
| Reminders.ActionKeepsInvariant | internal/scheduler/reminder_store.go:139-198 | each stored status tells how often the reminder was claimed and cancelled, and a reminder being processed has one worker at most; every action keeps that |
| Reminders.RunKeepsInvariant | internal/scheduler/reminder_store.go:139-198 | over every interleaving of workers, crashes, failed writes, cancels and guarded edits; and sent, failed and cancelled are final |
| Reminders.ClaimedAtMostOnce | internal/scheduler/reminder_store.go:164-182 | without unguarded edits a reminder is claimed or cancelled at most once in all |
| Reminders.LateEditCountsTwice | internal/scheduler/handler.go:184-234 | from every state of a run, an edit written after its reminder was claimed or cancelled lets it be cancelled on top |
| Reminders.WriteBackExactly | internal/scheduler/handler.go:184-234 | a pending edit, read while the reminder was scheduled, leaves it claimed or cancelled at most once whatever guarded actions follow, if and only if it is still scheduled, or gone, when the edit is written |
| Reminders.UnguardedEditClaimsTwice | internal/scheduler/handler.go:184-234 | a run in which the handler reads a scheduled reminder and writes it after it was sent, so that it is claimed again |
| CsvImport.ParsePreview | internal/rsvp/import.go:147-226 | each row is marked in error, duplicate or valid by the checks, and the counters count the marks |
| CsvImport.PreviewMarksExactly | internal/rsvp/import.go:160-219 | a row is marked in error for a parse error, no name, a malformed field or negative plus-ones, and otherwise a duplicate if some guest of the event has its address up to case; nothing else of the row changes |
| CsvImport.ExecuteCSVImport | internal/rsvp/import.go:248-338 | inserts exactly the rows whose fate is to be imported, counts each fate, and imported, skipped, failed and duplicates add up to the rows; invited counts the imported rows with an address, or is 0 without invitations |
| CsvImport.FateExactly | internal/rsvp/import.go:262-318 | skipped for an error or no name; otherwise a duplicate if the address is known or was taken by a row imported before it; otherwise imported unless the insert fails |
| CsvImport.TallyCounts | internal/rsvp/import.go:262-318 | each counter is the number of rows with its fate |
| CsvImport.InsertedArePending | internal/rsvp/import.go:289-310 | each inserted row is pending and has name, address, phone and plus-ones of its row, an empty address or phone as none |
| CsvImport.KnownIsTracked | internal/rsvp/import.go:253-323 | the set of known addresses kept during the import is that of the growing table |
| CsvImport.ImportKeepsEmailsUnique | internal/rsvp/import.go:275-323 | if no two guests of the event share an address up to case, none do afterwards |
| CsvImport.ImportIsImportable | internal/rsvp/import.go:289-298 | the inserted rows are pending rows of the event with new ids and whatever plus-ones the request gave, as the capacity proofs expect of an import |
| CsvImport.ImportKeepsPartiesExactly | internal/rsvp/import.go:262-318 | an import keeps its event free of negative parties if and only if no row it imports has one |
| CsvImport.PreviewHasNoNegativeParty | internal/rsvp/import.go:205-211 | importing a preview's rows imports none |
| CsvImport.PreviewForetellsFate | internal/rsvp/import.go:147-279 | a previewed row is skipped exactly when it is marked in error, and a duplicate exactly when it is marked so or repeats the address of a row imported before it |
| CsvImport.ImportOfPreview | internal/rsvp/import.go:147-335 | importing a preview over an unchanged table gives skipped = error rows and duplicates = preview duplicates plus repetitions within the batch |
| CommentPaging.FindByEventID | internal/comment/store.go:54-95 | the newest limit+1 comments strictly before the cursor, newest first, ties in any order |
| CommentPaging.ListPublic | internal/comment/service.go:148-191 | no page for a missing or unpublished event; otherwise a page of at most the limit asked for if it is 1 to 50, and of 50 if not, with hasMore exactly when comments are left and then the last row's time as cursor |
| CommentPaging.NextMatches | internal/comment/service.go:185-188 | what a page leaves out and its successors cannot see is exactly tied with its last row |
| CommentPaging.WalkIsShort | internal/comment/service.go:161-188 | following the cursor ends: n pages but the last show at least n times the limit of comments |
| CommentPaging.ShownOnceInOrder | internal/comment/service.go:161-188 | over all pages no comment appears twice and times never increase |
| CommentPaging.OmittedExactly | internal/comment/store.go:67-75 | a finished walk omits a comment if and only if it is tied with the last row of a non-final page and did not fit on it |
| CommentPaging.DistinctTimesShowAll | internal/comment/store.go:67-75 | with distinct times every comment of the event is shown |
| CommentPaging.TieIsLost | internal/comment/store.go:67-75 | of two comments of one second, pages of one show only one |
| OrganizerCascade.Database.DeleteOrganizerCascade | internal/auth/store.go:350-411 | all statements take effect, or none when one of them or the commit fails |
| OrganizerCascade.StatementMeetsItsRows | internal/auth/store.go:360-399 | each statement's subselects still see the events and attendees they depend on when its turn comes |
| OrganizerCascade.CascadeDeletesOwned | internal/auth/store.go:360-405 | together the statements delete exactly the rows the organizer owned at the start, plus cohost links with the organizer |
| OrganizerCascade.CascadeLeavesExactly | internal/auth/store.go:360-405 | what is left of each table: rows of no event of the organizer, answers of no guest of such an event, cohost links that do not name the organizer, and the others' series, links and sessions |
| OrganizerCascade.DeletesExactlyTheExported | internal/auth/store.go:286-344 | on every exported table the deleted rows are exactly the exported ones |
| OrganizerCascade.OthersAreUntouched | internal/auth/store.go:346-399 | nothing of another organizer is deleted except cohost links with the deleted one |
| OrganizerCascade.EveryStatementKeepsReferences | internal/auth/store.go:346-399 | children first: in the tables the cascade names, after every single statement no row refers to a deleted one, attendees of comments and notifications, questions of answers and series of events included |
| OrganizerCascade.ScopedRowsDangleExactly | internal/auth/store.go:360-399 | without the database's own cascade, suppressions and unsubscribe tokens keep their references after n statements if and only if the events are not yet deleted or none of these rows is for an event of the organizer |
| OrganizerCascade.SuppressionDangles | internal/suppression/store.go:66-79 | one suppression for one event, left without it by the cascade's statements |

## Left out

- RsvpInterleaving.InterleavingsKeepInvariant: capacities are fixed, and what a request reads before it takes the lock, apart from the row of an update by token, is taken as read at once; an import's check for known addresses is not part of it.
- RsvpInterleaving.NoRunDeadlocks: says that some request can move, not that the scheduler treats every waiting request fairly.
- OrganizerCascade.EveryStatementKeepsReferences: assumes what the code that writes the rows sees to, that a comment's or notification's attendee is a guest of its event (internal/comment/service.go:92), an answer's question belongs to its attendee's event, and an event's series to its organizer. The foreign keys of the database are not modelled.
- RsvpService.Service.SubmitRSVP: name, address, phone, contact-method and notes checks are one flag of the request; phone normalisation, dietary notes and notifications are not modelled; of the answers, here and in UpdateByToken, only whether they are accepted is.
- LocalTime.LocalTimeRoundTrip: says nothing about the years before 0 and the first days of year 100; offsets are whole minutes; historic offsets with seconds, and the parsing and printing of the date strings, are not modelled.
- Series.RunFromCreation: cancelled, edited and deleted occurrences, and changes of the template during the run, are not modelled.
- Ics.FoldRoundTrip: works on octets; that a fold may split a UTF-8 sequence is not stated.
- Reminders.ProcessReminder: which attendees a target group selects, and rendering and sending, are parameters.
- Database errors: each operation's error paths after a failed statement are left out, except for the cascade's transaction and the import's failed rows.
- The promotion loop's early end after a database error.
- Several server instances on one database: the mutex pool protects a single process.
- Integer overflow: Go's 64-bit integers are unbounded here.
- The rate limiter's own lock and ticker: its operations are atomic steps in any order.
- Updating, stopping and deleting series, and recurrence rules other than the three supported ones.
- The calendar document, VTIMEZONE text and formatUTCOffset.
- CSV reading, column mapping and defanging; the import's checks that the event is published and the organizer may manage it.
- The public guest list of GetPublicAttendance, capped at 500 names.
- Creating and deleting comments, and the organizer's full list.
- Columns of the exported tables other than the keys and owners.
- HTTP, authentication, mail and SMS, configuration, migrations and the web interface.
