/** The customer's slot page (`AvailableSlotsPage`): it keeps the list of days
    with free slots for the month, and the slots of the picked day. The month
    summary and the day's slots arrive as backend results, each of which may
    have failed. */
module SlotsPage {
  import opened Common
  import opened TimeGrid
  import SupabaseApi
  import AvailableSlotsCalendar

  /** One day of the month summary. */
  datatype DateInfo = DateInfo(date: Date, hasAvailableSlot: bool)

  predicate HasSlot(d: DateInfo) { d.hasAvailableSlot }

  function DateOf(d: DateInfo): Date { d.date }

  /** The days of the summary that have a free slot, in summary order. */
  function AvailableDates(monthData: seq<DateInfo>): (r: seq<Date>)
    ensures |r| <= |monthData|
    ensures forall day :: day in r <==> exists d :: d in monthData && d.hasAvailableSlot && d.date == day
  {
    var kept := Filter(monthData, HasSlot);
    var r := Map(kept, DateOf);
    assert forall day | day in r :: exists d :: d in monthData && d.hasAvailableSlot && d.date == day by {
      forall day | day in r ensures exists d :: d in monthData && d.hasAvailableSlot && d.date == day {
        var i :| 0 <= i < |r| && r[i] == day;
        assert kept[i] in kept;
      }
    }
    assert forall d | d in monthData && d.hasAvailableSlot :: d.date in r by {
      forall d | d in monthData && d.hasAvailableSlot ensures d.date in r {
        FilterKeeps(monthData, HasSlot, d);
        var i :| 0 <= i < |kept| && kept[i] == d;
        assert r[i] == d.date;
      }
    }
    r
  }

  /** The listed days keep the order of the summary. */
  lemma {:induction false} AvailableDatesKeepOrder(a: seq<DateInfo>, b: seq<DateInfo>)
    ensures AvailableDates(a + b) == AvailableDates(a) + AvailableDates(b)
  {
    FilterAppend(a, b, HasSlot);
    var ka, kb := Filter(a, HasSlot), Filter(b, HasSlot);
    assert Map(ka + kb, DateOf) == Map(ka, DateOf) + Map(kb, DateOf);
  }

  /** `loadAvailableSlotsForMonth`: a failed read keeps the previous list. */
  function LoadMonth(previous: seq<Date>, monthRead: Fetch<seq<DateInfo>>): (r: seq<Date>)
    ensures monthRead.FetchFailed? ==> r == previous
    ensures monthRead.Fetched? ==> forall day :: day in r <==> exists d :: d in monthRead.value && d.hasAvailableSlot && d.date == day
  {
    match monthRead
    case Fetched(monthData) => AvailableDates(monthData)
    case FetchFailed => previous
  }

  /** With the month loaded, a calendar day can be picked exactly when it is
      today or later, lies in the month shown and the summary flags it. */
  lemma PickableDays(day: Date, today: Date, inCurrentMonth: bool, previous: seq<Date>, monthData: seq<DateInfo>)
    ensures !AvailableSlotsCalendar.IsDisabled(day, today, inCurrentMonth, LoadMonth(previous, Fetched(monthData)))
        <==> today <= day && inCurrentMonth && exists d :: d in monthData && d.hasAvailableSlot && d.date == day
  {
  }

  predicate IsAvailable(s: AvailableTimeSlot) { s.available }

  /** `handleDateSelect`: the available slots when there are any, otherwise
      the whole returned list; after an error, the open grid of the day. */
  function SelectSlots(date: Date, slotsRead: Fetch<seq<AvailableTimeSlot>>): (r: seq<AvailableTimeSlot>)
    ensures slotsRead.FetchFailed? ==>
              |r| == |Grid| && forall i | 0 <= i < |r| :: r[i].date == date && r[i].time == Grid[i] && r[i].available
    ensures slotsRead.Fetched? && (exists s :: s in slotsRead.value && s.available) ==>
              r == Filter(slotsRead.value, IsAvailable)
    ensures slotsRead.Fetched? && (exists s :: s in slotsRead.value && s.available) ==>
              |r| > 0 && forall s :: s in r <==> s in slotsRead.value && s.available
    ensures slotsRead.Fetched? && (forall s | s in slotsRead.value :: !s.available) ==> r == slotsRead.value
  {
    match slotsRead
    case FetchFailed => OpenGrid(date)
    case Fetched(slotsForDate) =>
      var availableOnly := Filter(slotsForDate, IsAvailable);
      if |availableOnly| > 0 then
        assert availableOnly[0] in availableOnly;
        assert forall s | s in slotsForDate && s.available :: s in availableOnly by {
          forall s | s in slotsForDate && s.available ensures s in availableOnly {
            FilterKeeps(slotsForDate, IsAvailable, s);
          }
        }
        availableOnly
      else
        assert forall s | s in slotsForDate :: !s.available by {
          forall s | s in slotsForDate ensures !s.available {
            if s.available { FilterKeeps(slotsForDate, IsAvailable, s); }
          }
        }
        slotsForDate
  }

  /** The available-only list keeps the order of the returned slots: over any
      split of a list holding an available slot, it is the available slots of
      the first part followed by those of the second. */
  lemma {:induction false} SelectionKeepsOrder(date: Date, a: seq<AvailableTimeSlot>, b: seq<AvailableTimeSlot>)
    requires exists s :: s in a + b && s.available
    ensures SelectSlots(date, Fetched(a + b)) == Filter(a, IsAvailable) + Filter(b, IsAvailable)
  {
    FilterAppend(a, b, IsAvailable);
  }

  /** Picking a day whose slots were computed by `getAvailableSlots` always
      stores the day's slots: the list is non-empty and every entry belongs to
      the picked day. */
  lemma PickedDayListsItsSlots(date: Date, blocksRead: Fetch<seq<SupabaseApi.UnavailableSlot>>, bookingsRead: Fetch<seq<SupabaseApi.Booking>>)
    ensures var r := SelectSlots(date, Fetched(SupabaseApi.GetAvailableSlots(date, blocksRead, bookingsRead)));
            |r| > 0 && forall s | s in r :: s.date == date
  {
    var slots := SupabaseApi.GetAvailableSlots(date, blocksRead, bookingsRead);
    var r := SelectSlots(date, Fetched(slots));
    assert slots[0] in slots;
    forall s | s in r ensures s.date == date {
      assert s in slots;
    }
  }

  /** On a fully taken day the page stores all nine unavailable slots, and the
      calendar then shows its "no available time" message. */
  lemma FullDayShowsNoTimes(date: Date, blocksRead: Fetch<seq<SupabaseApi.UnavailableSlot>>, bookingsRead: Fetch<seq<SupabaseApi.Booking>>)
    requires forall i | 0 <= i < |Grid| :: !SupabaseApi.GetAvailableSlots(date, blocksRead, bookingsRead)[i].available
    ensures var r := SelectSlots(date, Fetched(SupabaseApi.GetAvailableSlots(date, blocksRead, bookingsRead)));
            && |r| == |Grid|
            && AvailableSlotsCalendar.ShowNoTimesMessage(AvailableSlotsCalendar.AvailableTimesForSelectedDate(Some(date), r))
  {
    var slots := SupabaseApi.GetAvailableSlots(date, blocksRead, bookingsRead);
    assert forall s | s in slots :: !s.available;
    AvailableSlotsCalendar.NoTimesMessageIffNothingOpen(date, slots);
  }
}
