/** The customer's month calendar (`AvailableSlotsCalendar`): which days can be
    picked, and the available times of the picked day split into a morning and
    an afternoon group. */
module AvailableSlotsCalendar {
  import opened Common
  import opened TimeGrid

  datatype Groups = Groups(morning: seq<AvailableTimeSlot>, afternoon: seq<AvailableTimeSlot>)

  predicate MorningSlot(s: AvailableTimeSlot) { IsMorning(s.time) }

  predicate AfternoonSlot(s: AvailableTimeSlot) { HourOf(s.time) >= 12 }

  /** `groupTimesByPeriod`: every slot lands in exactly one group, morning
      before noon and afternoon from noon on. */
  function GroupTimesByPeriod(times: seq<AvailableTimeSlot>): (g: Groups)
    ensures forall s | s in g.morning :: s in times && IsMorning(s.time)
    ensures forall s | s in g.afternoon :: s in times && !IsMorning(s.time)
    ensures multiset(g.morning) + multiset(g.afternoon) == multiset(times)
  {
    var g := Groups(Filter(times, MorningSlot), Filter(times, AfternoonSlot));
    FilterSplits(times, MorningSlot, AfternoonSlot);
    g
  }

  /** Grouping keeps the relative order of the slots: the groups of a
      concatenation are the concatenations of the groups. */
  lemma {:induction false} GroupingKeepsOrder(a: seq<AvailableTimeSlot>, b: seq<AvailableTimeSlot>)
    ensures GroupTimesByPeriod(a + b).morning == GroupTimesByPeriod(a).morning + GroupTimesByPeriod(b).morning
    ensures GroupTimesByPeriod(a + b).afternoon == GroupTimesByPeriod(a).afternoon + GroupTimesByPeriod(b).afternoon
  {
    FilterAppend(a, b, MorningSlot);
    FilterAppend(a, b, AfternoonSlot);
  }

  predicate OpenOn(date: Date, s: AvailableTimeSlot) { s.date == date && s.available }

  /** The open slots of `date`, in the order of the list. */
  function OpenSlotsOf(date: Date, availableSlots: seq<AvailableTimeSlot>): seq<AvailableTimeSlot> {
    Filter(availableSlots, s => OpenOn(date, s))
  }

  /** `availableTimesForSelectedDate`: the available slots of the selected
      day, grouped; no selected day gives two empty groups. */
  function AvailableTimesForSelectedDate(selectedDate: Option<Date>, availableSlots: seq<AvailableTimeSlot>): (g: Groups)
    ensures selectedDate.None? ==> g == Groups([], [])
    ensures selectedDate.Some? ==> g == GroupTimesByPeriod(OpenSlotsOf(selectedDate.value, availableSlots))
    ensures selectedDate.Some? ==>
              forall s :: s in g.morning + g.afternoon <==> s in availableSlots && OpenOn(selectedDate.value, s)
  {
    match selectedDate
    case None => Groups([], [])
    case Some(date) =>
      var slotsForDate := OpenSlotsOf(date, availableSlots);
      var g := GroupTimesByPeriod(slotsForDate);
      assert forall s | s in availableSlots && OpenOn(date, s) :: s in g.morning + g.afternoon by {
        forall s | s in availableSlots && OpenOn(date, s) ensures s in g.morning + g.afternoon {
          FilterKeeps(availableSlots, s => OpenOn(date, s), s);
          assert s in multiset(slotsForDate);
        }
      }
      g
  }

  /** The "no available time" message of the selected day. */
  function ShowNoTimesMessage(g: Groups): bool {
    |g.morning| == 0 && |g.afternoon| == 0
  }

  /** The message shows exactly when no slot of the selected day is available. */
  lemma NoTimesMessageIffNothingOpen(date: Date, availableSlots: seq<AvailableTimeSlot>)
    ensures ShowNoTimesMessage(AvailableTimesForSelectedDate(Some(date), availableSlots))
            <==> forall s | s in availableSlots :: !OpenOn(date, s)
  {
    var g := AvailableTimesForSelectedDate(Some(date), availableSlots);
    if !ShowNoTimesMessage(g) {
      assert (g.morning + g.afternoon)[0] in g.morning + g.afternoon;
    }
  }

  /** `isPastDate` of this component compares with today's midnight, so today
      itself is never past. */
  function IsPastDate(day: Date, today: Date): (past: bool)
    ensures past <==> day * MsPerDay < today * MsPerDay
    ensures day == today ==> !past
  {
    if day < today then
      assert day * MsPerDay + MsPerDay <= today * MsPerDay;
      true
    else
      assert today * MsPerDay <= day * MsPerDay;
      false
  }

  /** `isDisabled` of a calendar cell: a day can be picked only when it is not
      past, belongs to the month on display and is listed as having an
      available slot. */
  function IsDisabled(day: Date, today: Date, inCurrentMonth: bool, datesWithAvailableSlots: seq<Date>): (disabled: bool)
    ensures !disabled <==> today <= day && inCurrentMonth && day in datesWithAvailableSlots
  {
    IsPastDate(day, today) || !(day in datesWithAvailableSlots) || !inCurrentMonth
  }
}
