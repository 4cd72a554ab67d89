# Prebook slot availability, modelled in Dafny

The prebook application books appointments for an eyebrow studio. Customers pick a day and a start time from a fixed grid of nine times: 10:00 and 11:00, then 13:00 to 19:00, with no 12:00 slot. Each service takes one or two hours. The operator blocks times by hand and confirms or cancels bookings. Confirmations go out through a KakaoTalk message queue that retries failed sends.

This project models the rules that decide what a customer may book and what the operator sees. It also models the small list and queue operations around those rules. The modules are:

- `Common`: shared options, backend results and list operations.
- `TimeGrid`: clock times, days, the grid and the 12-hour display.
- `TextOrder`: the default string sort.
- `Services`: the service catalog.
- `SupabaseApi`: the per-day availability rule.
- `Calendar`: the booking form's overlap check.
- `SlotManagement`: the operator's slot screen.
- `AvailableSlotsCalendar` and `SlotsPage`: the customer's screens.
- `Kakao`: the message queue, as a class with its fields.
- `Dashboard`: the pre-booking request list.

Conventions:

- Days are day numbers. The application keys days by their 'yyyy-MM-dd' text, which is one-to-one with the day number.
- Times are well-formed "HH:MM" labels. `HourOf` reads a label's hour the way `parseInt(time.split(':')[0])` does.
- Every backend read or write is a parameter that either delivered its data or failed.

The two calendars read the clock differently:

- In `Calendar.tsx`, `isPastDate` compares a day's midnight with the current instant, clock time included. Today therefore counts as past from midnight on. `Calendar.IsPastDate` keeps this.
- In `AvailableSlotsCalendar.tsx`, the same check first sets today to midnight, so today never counts as past. `AvailableSlotsCalendar.IsPastDate` keeps this.

Three code paths handle service durations, and they differ:

- `SupabaseApi.GetAvailableSlots` marks a slot unavailable when a booking starts there or runs into it from an earlier hour.
- `Calendar` refuses a start time whose requested interval shares any hour with a booking.
- `SlotManagement.GetSlotStatus` looks only at bookings that start exactly at the time.

`Calendar.OneHourRequestAgreesWithDayRule` proves that the first two agree for one-hour services, under three conditions. The day has no manual blocks, since the calendar never sees them. The calendar's booking list mirrors the backend's entry by entry. Active bookings start on whole hours. `Calendar.TwoHourRequestsDiffer` shows where the two rules part for two-hour services.

The dashboard's status handler reads the open request when the button is clicked, awaits the update, and then changes whichever request is open at that moment. `Dashboard.HandleStatusChange` takes both as inputs. `Dashboard.DialogSwitchedDuringUpdate` shows that a request opened during the update takes the decided status.

## Model

| member | source | states |
|---|---|---|
| Common.Filter | prebook-app/src/lib/supabaseApi.ts:248-250 | keeps, in order, only the elements satisfying the predicate; never longer than the input |
| Common.FilterAppend | prebook-app/src/components/calendar/AvailableSlotsCalendar.tsx:72-80 | filtering a concatenation is the concatenation of the filtered parts, so relative order is kept |
| Common.FilterSplits | prebook-app/src/components/calendar/AvailableSlotsCalendar.tsx:72-80 | filtering by a predicate and by its complement splits the input multiset exactly |
| Common.FilterIdempotent | prebook-app/src/lib/supabaseApi.ts:248-250 | filtering twice by the same predicate equals filtering once |
| Common.FilterNone | prebook-app/src/lib/supabaseApi.ts:248-250 | when no element qualifies, the filter is empty |
| Common.FilterAll | prebook-app/src/lib/supabaseApi.ts:248-250 | when every element qualifies, the filter is the identity |
| Common.FilterKeeps | prebook-app/src/lib/supabaseApi.ts:248-250 | every qualifying element survives the filter |
| Common.Map | prebook-app/src/lib/supabaseApi.ts:253 | the mapped list has the input's length and holds the image of each element at the same index |
| Common.FindFirst | prebook-app/src/components/admin/SlotManagementList.tsx:332-334 | returns the index of the first element satisfying the predicate, or none when no element does |
| TimeGrid.HourOf | prebook-app/src/lib/supabaseApi.ts:255 | the hour read from a label is below 24 |
| TimeGrid.HourDeterminesLabel | prebook-app/src/lib/supabaseApi.ts:265-283 | two whole-hour labels with the same hour are the same label, so exact label matches and hour comparisons agree |
| TimeGrid.GridFacts | prebook-app/src/lib/supabaseApi.ts:229-233 | the grid has 9 whole-hour times with hours 10, 11, 13…19 in increasing order, and none of them is 12 |
| TimeGrid.Decimal | prebook-app/src/components/calendar/AvailableSlotsCalendar.tsx:185 | the decimal numeral of n is a digit string that reads back as n, has one digit exactly when n < 10, and starts with '0' only for 0, so it is never zero-padded |
| TimeGrid.DisplayTime | prebook-app/src/components/calendar/AvailableSlotsCalendar.tsx:184-185 | labels up to 12 o'clock are shown unchanged; a later hour shows as a numeral reading hour − 12 (1 to 11) with no leading zero, then ':' and the original minutes |
| TimeGrid.DisplayCollidesOffGrid | prebook-app/src/components/calendar/AvailableSlotsCalendar.tsx:184-185 | outside the grid the display is not one-to-one: 22:00 and 10:00 both show "10:00" |
| TimeGrid.OpenGrid | prebook-app/src/lib/supabaseApi.ts:236-240 | the 9 grid times in order, each tagged with the day and available |
| TextOrder.LexTotal | prebook-app/src/components/admin/SlotManagementList.tsx:302 | the default string order relates every pair |
| TextOrder.LexTransitive | prebook-app/src/components/admin/SlotManagementList.tsx:302 | the default string order is transitive |
| TextOrder.Insert | prebook-app/src/components/admin/SlotManagementList.tsx:302 | inserting into a sorted list gives a sorted list holding the old elements plus the new one |
| TextOrder.Sort | prebook-app/src/components/admin/SlotManagementList.tsx:302 | `sort()` yields a sorted permutation of its input |
| TextOrder.RemoveAll | prebook-app/src/components/admin/SlotManagementList.tsx:297 | removes every copy of the value and keeps the count of every other value |
| TextOrder.RemoveAllSubset | prebook-app/src/components/admin/SlotManagementList.tsx:297 | every element left after the removal occurs in the input |
| TextOrder.FilterKeepsSorted | prebook-app/src/components/admin/SlotManagementList.tsx:297 | removing a value from a sorted list keeps it sorted |
| Services.Lookup | prebook-app/src/lib/supabaseApi.ts:16-24 | an entry exists exactly for the seven catalog codes, each lasting 1 or 2 hours |
| Services.Duration | prebook-app/src/lib/supabaseApi.ts:275-277 | a duration is 1 or 2 hours; any code outside the catalog, the empty code included, counts as 1; it is 2 exactly for natural, combo, shadow and recommend |
| SupabaseApi.ActiveBookings | prebook-app/src/lib/supabaseApi.ts:248-250 | a booking is kept exactly when it is awaiting its deposit or confirmed |
| SupabaseApi.MarkSlot | prebook-app/src/lib/supabaseApi.ts:255-284 | keeps the slot's day and time; a slot named by a manual block is unavailable |
| SupabaseApi.GetAvailableSlots | prebook-app/src/lib/supabaseApi.ts:227-294 | the result is exactly the 9 grid times in grid order, each tagged with the queried day |
| SupabaseApi.FetchFailureOpensGrid | prebook-app/src/lib/supabaseApi.ts:289-293 | when either read fails, every slot is available |
| SupabaseApi.BlockWins | prebook-app/src/lib/supabaseApi.ts:258-262 | a slot named by a manual block is unavailable whatever the bookings |
| SupabaseApi.ActiveBookingTakesItsStart | prebook-app/src/lib/supabaseApi.ts:265-269 | an active booking makes the slot it starts at unavailable |
| SupabaseApi.OnlyActiveBookingsCount | prebook-app/src/lib/supabaseApi.ts:248-250 | the result depends only on the active bookings |
| SupabaseApi.InactiveBookingChangesNothing | prebook-app/src/lib/supabaseApi.ts:248-250 | adding a cancelled or 'available' booking changes no slot |
| SupabaseApi.QuietDayIsOpen | prebook-app/src/lib/supabaseApi.ts:236-240 | with no blocks and no active bookings, every slot is available |
| SupabaseApi.SlotAvailableIffUncovered | prebook-app/src/lib/supabaseApi.ts:253-285 | when active bookings start on whole hours, a slot is available iff no block names it and no active booking's interval [start, start + duration) covers its hour |
| SupabaseApi.UnknownServiceBlocksOnlyItsStart | prebook-app/src/lib/supabaseApi.ts:275-277 | a booking with an unknown service code takes away only the slot it starts at |
| SupabaseApi.TwoHourBookingAtEleven | prebook-app/src/lib/supabaseApi.ts:272-283 | a 2-hour booking at 11:00 takes 11:00 and leaves 10:00 and 13:00 free, since it covers the missing 12:00 slot |
| SupabaseApi.TwoHourBookingAtTen | prebook-app/src/lib/supabaseApi.ts:272-283 | a 2-hour booking at 10:00 takes 10:00 and 11:00 and leaves 13:00 free |
| Calendar.SlotConflicts | prebook-app/src/components/calendar/Calendar.tsx:112-125 | the nested loops report a conflict exactly when some hour of the booked interval and some hour of the requested interval fall on the same day and hour |
| Calendar.IsTimeSlotAvailable | prebook-app/src/components/calendar/Calendar.tsx:88-130 | a time is available iff no service is chosen, or no booking that is awaiting its deposit or confirmed and has a selected slot overlaps the requested interval |
| Calendar.IsPastDate | prebook-app/src/components/calendar/Calendar.tsx:148-151 | a day is past iff its midnight in milliseconds is before the current instant; today is past once any time of day has gone by |
| Calendar.DayDisabled | prebook-app/src/components/calendar/Calendar.tsx:180-183 | a day is enabled iff it is not past, lies in the shown month and some grid time is available |
| Calendar.ShareHourIffOverlap | prebook-app/src/components/calendar/Calendar.tsx:112-125 | for nonempty intervals, sharing an hour is ordinary interval overlap |
| Calendar.ShareHourSymmetric | prebook-app/src/components/calendar/Calendar.tsx:112-125 | the conflict relation is symmetric in the two intervals |
| Calendar.ConflictIsSameDayOverlap | prebook-app/src/components/calendar/Calendar.tsx:104-125 | when neither interval runs into the other's next day, a conflict means same day and overlapping hours |
| Calendar.NonOccupyingSlotsIgnored | prebook-app/src/components/calendar/Calendar.tsx:100-103 | bookings that are pending, deposit-confirmed or rejected, or that lack a selected slot, never cause a conflict |
| Calendar.SymmetricConflictExamples | prebook-app/src/components/calendar/Calendar.tsx:112-125 | a 2-hour request at 10:00 is refused next to a booking at 11:00; a 2-hour booking at 10:00 refuses a request at 11:00 |
| Calendar.MirroredConflictIsCoverage | prebook-app/src/components/calendar/Calendar.tsx:104-125 | for one booking and a 1-hour request, the calendar's conflict equals the backend rule's hour coverage |
| Calendar.MirroredListsAgree | prebook-app/src/components/calendar/Calendar.tsx:98-129 | over mirrored booking lists, some booking conflicts with a 1-hour request at a grid time iff some active backend booking covers its hour |
| Calendar.OneHourRequestAgreesWithDayRule | prebook-app/src/components/calendar/Calendar.tsx:88-130 | for a 1-hour service, a grid time is free in the calendar iff the backend rule marks it available, for a day without manual blocks, a calendar list mirroring the backend list and active bookings on whole hours |
| Calendar.TwoHourRequestsDiffer | prebook-app/src/components/calendar/Calendar.tsx:112-125 | for a 2-hour service the rules differ: 10:00 in front of an 11:00 booking is available in the backend rule but refused by the calendar |
| SlotManagement.GetSlotStatus | prebook-app/src/components/admin/SlotManagementList.tsx:319-339 | with no selected day the status is 'available'; it is 'blocked' exactly when a block names the day and time |
| SlotManagement.FirstBookingDecides | prebook-app/src/components/admin/SlotManagementList.tsx:332-336 | without a block, the first booking at exactly that day and time gives the status, whatever it is, cancelled included |
| SlotManagement.NoBookingNoStatus | prebook-app/src/components/admin/SlotManagementList.tsx:338 | with no block and no booking starting at the time it shows 'available', so there is no duration spill-over |
| SlotManagement.ToggleBlock | prebook-app/src/components/admin/SlotManagementList.tsx:111-140 | without a selected day nothing happens; an unblocked time gets one block with reason '예약 불가'; a blocked time deletes its first matching block when that block has a non-empty id, and otherwise changes nothing |
| SlotManagement.ToggleBlocksFreeTime | prebook-app/src/components/admin/SlotManagementList.tsx:131-139 | after toggling an unblocked time it shows 'blocked' |
| SlotManagement.ToggleUnblocksSingleBlock | prebook-app/src/components/admin/SlotManagementList.tsx:123-130 | toggling a time held by exactly one block with an id removes the block |
| SlotManagement.ToggleDeletesFirstBlock | prebook-app/src/components/admin/SlotManagementList.tsx:123-130 | with distinct ids, a toggle on a blocked time whose first block has an id leaves exactly the other blocks, in order |
| SlotManagement.DeleteByUniqueId | prebook-app/src/lib/supabaseApi.ts:94-98 | with distinct ids, deleting by the id of one block removes that block alone and keeps the others in order |
| SlotManagement.DuplicateBlockSurvivesToggle | prebook-app/src/components/admin/SlotManagementList.tsx:123-130 | with two blocks on a time, one toggle leaves the later block in place, so the time stays blocked |
| SlotManagement.DayRange | prebook-app/src/components/admin/SlotManagementList.tsx:248-254 | the days from start to end inclusive, ascending; empty when start > end |
| SlotManagement.BlocksForLength | prebook-app/src/components/admin/SlotManagementList.tsx:257-268 | bulk blocking emits \|dates\| × \|times\| blocks |
| SlotManagement.BlocksForAt | prebook-app/src/components/admin/SlotManagementList.tsx:257-268 | the blocks come in date-major order: position i·\|times\| + j holds date i with time j |
| SlotManagement.BulkBlock | prebook-app/src/components/admin/SlotManagementList.tsx:234-268 | a range with start after end is refused; otherwise the loops produce the date-major product of the range's days and the chosen times |
| SlotManagement.ToggleTimeSelection | prebook-app/src/components/admin/SlotManagementList.tsx:292-306 | flips membership of the given time and leaves every other time's count unchanged; an added time is sorted in; a sorted selection stays sorted |
| SlotManagement.ToggleAllTimes | prebook-app/src/components/admin/SlotManagementList.tsx:309-316 | true gives the 9 grid times, sorted; false gives the empty list |
| SlotManagement.GridLexOrder | prebook-app/src/components/admin/SlotManagementList.tsx:341-345 | the grid labels are in string order |
| SlotManagement.OfferedTransitions | prebook-app/src/components/admin/SlotManagementList.tsx:529-560 | every offered status change moves a booking forward; cancelled and 'available' bookings offer none; cancel is offered exactly for bookings awaiting a deposit and for confirmed ones; confirm is offered exactly for bookings awaiting a deposit; no change is offered twice |
| SlotManagement.OnSlotClick | prebook-app/src/components/admin/SlotManagementList.tsx:437-441 | block mode always toggles; the booking form opens exactly in book mode on an 'available' time |
| AvailableSlotsCalendar.GroupTimesByPeriod | prebook-app/src/components/calendar/AvailableSlotsCalendar.tsx:71-83 | morning holds hours before 12 and afternoon the rest; together they hold each input slot exactly once |
| AvailableSlotsCalendar.GroupingKeepsOrder | prebook-app/src/components/calendar/AvailableSlotsCalendar.tsx:71-83 | grouping a concatenation concatenates the groups, so relative order is kept |
| AvailableSlotsCalendar.AvailableTimesForSelectedDate | prebook-app/src/components/calendar/AvailableSlotsCalendar.tsx:86-95 | no selected day gives two empty groups; otherwise the groups are the morning/afternoon split of that day's open slots, in list order, so each open slot lands once in the group its hour picks |
| AvailableSlotsCalendar.NoTimesMessageIffNothingOpen | prebook-app/src/components/calendar/AvailableSlotsCalendar.tsx:201-206 | the "no available time" message shows iff no slot of the selected day is available |
| AvailableSlotsCalendar.IsPastDate | prebook-app/src/components/calendar/AvailableSlotsCalendar.tsx:58-62 | a day is past iff its midnight is before today's midnight, so today itself is never past |
| AvailableSlotsCalendar.IsDisabled | prebook-app/src/components/calendar/AvailableSlotsCalendar.tsx:124-128 | a day is enabled iff it is today or later, lies in the shown month and is listed as having a free slot |
| SlotsPage.AvailableDates | prebook-app/src/app/slots/page.tsx:37-39 | a day is listed iff the month summary flags it as having a free slot |
| SlotsPage.AvailableDatesKeepOrder | prebook-app/src/app/slots/page.tsx:37-39 | the listed days keep the summary's order |
| SlotsPage.LoadMonth | prebook-app/src/app/slots/page.tsx:31-47 | a failed read keeps the previous list; otherwise the list holds the flagged days |
| SlotsPage.PickableDays | prebook-app/src/components/calendar/AvailableSlotsCalendar.tsx:124-128 | once the month has loaded, a day can be picked iff it is today or later, lies in the shown month and the month summary flags it |
| SlotsPage.SelectSlots | prebook-app/src/app/slots/page.tsx:55-84 | after an error, the open grid of the day; with some available slot, the available ones in their original order, each once; with none, the returned list unchanged |
| SlotsPage.SelectionKeepsOrder | prebook-app/src/app/slots/page.tsx:66-71 | over any split of a list holding an available slot, the selection is the available slots of the first part followed by those of the second |
| SlotsPage.PickedDayListsItsSlots | prebook-app/src/app/slots/page.tsx:61-71 | the stored list for a picked day is never empty and holds only that day's slots |
| SlotsPage.FullDayShowsNoTimes | prebook-app/src/app/slots/page.tsx:66-71 | on a fully taken day, all nine unavailable slots are stored and the calendar shows its "no available time" message |
| Kakao.AfterSend | prebook-app/src/lib/automation/kakao.ts:47-60 | success removes the head; a failure with fewer than 3 retries moves the head to the back with one more retry, others keeping their order; otherwise the head is dropped |
| Kakao.RetriesStayBounded | prebook-app/src/lib/automation/kakao.ts:54-59 | no message ever passes 3 retries |
| Kakao.PotentialFront | prebook-app/src/lib/automation/kakao.ts:47-59 | the remaining attempts of a queue are the head's plus those of the rest |
| Kakao.PotentialOfPush | prebook-app/src/lib/automation/kakao.ts:30-34 | a newly queued message adds four attempts |
| Kakao.PotentialDecreases | prebook-app/src/lib/automation/kakao.ts:47-59 | every send attempt, whatever its outcome, reduces the remaining attempts |
| Kakao.DrainsWithinPotential | prebook-app/src/lib/automation/kakao.ts:41-67 | whatever the outcomes, the queue is empty after as many attempts as its potential |
| Kakao.PotentialAtMostFourEach | prebook-app/src/lib/automation/kakao.ts:54-59 | the potential is at most four per queued message, so a queue of n messages costs at most 4n attempts in all |
| Kakao.AttemptsPerMessage | prebook-app/src/lib/automation/kakao.ts:53-60 | whatever the outcomes, the entry at a position is tried at most 4 − retries more times, so a newly queued message is tried at most four times |
| Kakao.KakaoAutomation.constructor | prebook-app/src/lib/automation/kakao.ts:5-11 | a new automation is idle with an empty queue |
| Kakao.KakaoAutomation.AddToQueue | prebook-app/src/lib/automation/kakao.ts:22-39 | appends exactly one entry with no retries and leaves earlier ones unchanged; a send is then under way |
| Kakao.KakaoAutomation.BeginProcess | prebook-app/src/lib/automation/kakao.ts:41-47 | does nothing while a send is under way or the queue is empty; otherwise raises the flag and hands out the head; the queue is unchanged |
| Kakao.KakaoAutomation.FinishProcess | prebook-app/src/lib/automation/kakao.ts:50-66 | the queue becomes the result of the send on the old queue, the flag is down, and another round is scheduled iff messages remain |
| Kakao.Registry.GetInstance | prebook-app/src/lib/automation/kakao.ts:13-18 | creates the automation on first use and returns the same object afterwards |
| Kakao.Registry.GetInstanceTwice | prebook-app/src/lib/automation/kakao.ts:13-18 | two lookups return the same object |
| Dashboard.StatusOf | prebook-app/src/app/admin/dashboard/page.tsx:53 | a decision never leaves a request pending |
| Dashboard.SetStatus | prebook-app/src/app/admin/dashboard/page.tsx:64-70 | same length and order; matching ids take the new status; no other field changes; other entries are untouched |
| Dashboard.HandleStatusChange | prebook-app/src/app/admin/dashboard/page.tsx:53-84 | a failed update changes nothing; otherwise the list is updated by id, and the request open after the update takes the new status iff the request open at click time was the one decided on |
| Dashboard.DialogKeptDuringUpdate | prebook-app/src/app/admin/dashboard/page.tsx:72-77 | when the dialog stays on one request during the update, it changes only if it is the decided request |
| Dashboard.DialogSwitchedDuringUpdate | prebook-app/src/app/admin/dashboard/page.tsx:72-77 | a different request opened during the update takes the decided status, while the list is updated correctly |
| Dashboard.DecidingTwiceIsDecidingOnce | prebook-app/src/app/admin/dashboard/page.tsx:53-84 | repeating the same decision changes nothing more |
| Dashboard.DecisionsOnDifferentIdsCommute | prebook-app/src/app/admin/dashboard/page.tsx:53-84 | decisions on different requests, clicked with the same request open, give the same state in either order |
| Dashboard.OfferedDecisions | prebook-app/src/app/admin/dashboard/page.tsx:203-226 | approve and reject are offered exactly on pending requests, each once |
| Dashboard.DecisionIsFinal | prebook-app/src/app/admin/dashboard/page.tsx:73-77 | once the open request is decided, the dialog offers no further decision |
| Dashboard.JoinSnoc | prebook-app/src/app/admin/dashboard/page.tsx:164 | joining one more text appends ", " and that text |
| Dashboard.JoinLength | prebook-app/src/app/admin/dashboard/page.tsx:164 | the joined text has the texts' total length plus two characters per separator |
| Dashboard.DisplayDesiredDates | prebook-app/src/app/admin/dashboard/page.tsx:162-166 | free text is shown as it is; a list of dates is shown joined with ", " (pinned down by JoinSnoc and JoinLength); a single date is shown alone; an empty list shows as empty text |

## Left out

- Database calls: the CRUD functions of the backend module, the reloads after each write, and the inserts of the booking form. Their results appear only as successful or failed reads, and the operator's writes as `SlotManagement.BlockEdit` values.
- `getAvailableSlotsForMonth` is not part of this model. Its per-day summary is an input to `SlotsPage.LoadMonth`.
- Date parsing, formatting and arithmetic come from a library. Days are plain day numbers, and "lies in the shown month" is a boolean input.
- Daylight-saving time is out of scope: `Calendar.SlotConflicts` treats every day as 24 hours.
- The bulk form's dates are assumed to be valid. An unparseable date, which the screen would compare as an invalid date, is not modelled.
- Time labels are assumed well formed: every label read for its hour is a valid "HH:MM" time. Labels of manual blocks and of the bulk form are only compared, never read for their hour, so they stay arbitrary text.
- An empty date text in a calendar booking's selected slot is modelled as an absent selected slot.
- The `setTimeout` that re-runs `processQueue` after one second is left to the caller: `Kakao.KakaoAutomation.FinishProcess` reports whether a round is due, and the caller runs `BeginProcess` again.
- The HTTP send is left out; it becomes the success flag passed to `FinishProcess`. Message templates come from a module outside this model, so message text is opaque.
- Static fields do not exist in Dafny. The automation's static `instance` slot is the field of `Kakao.Registry`.
- Browser automation of the time-block site, the shell call to AutoHotkey, and the thin HTTP route handlers are left out.
- React rendering, CSS classes, loading flags, alerts and effect wiring are left out.
- The operator form's status choice (awaiting deposit or confirmed) only feeds a database insert, so it is not modelled.
- The default `sort()` compares UTF-16 code units; `TextOrder.LexLe` compares Dafny characters. The two orders differ only for characters above U+FFFF, which time labels never contain.
- `SlotManagement.ApplyEdit` assumes the reload after a block write keeps the list's order, with a new block at the end. The backend reload sorts by date (prebook-app/src/lib/supabaseApi.ts:47), so blocks of one date can come back in another order. The "in order" of `SlotManagement.ToggleDeletesFirstBlock`, and the block that `SlotManagement.FirstBlockAt` picks after a reload, depend on this assumption.
