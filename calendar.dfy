/** The booking form's calendar (`Calendar`): whether a start time can be
    picked for the requested service without overlapping an occupying booking,
    and whether a day of the month can be picked at all. */
module Calendar {
  import opened Common
  import opened TimeGrid
  import Services
  import SupabaseApi

  /** The statuses this component knows for a booked slot. */
  datatype BookedStatus = Pending | DepositWait | DepositConfirmed | Confirmed | Rejected

  datatype TimeSlot = TimeSlot(date: Date, time: Time, serviceType: Option<string>)

  /** A booking as the calendar receives it; the interval it occupies is read
      from `selectedSlot`, not from its own `date`/`time`. A selected slot whose
      date text is empty counts as absent. */
  datatype BookedSlot = BookedSlot(date: Date, time: Time, status: BookedStatus, selectedSlot: Option<TimeSlot>, serviceType: string)

  /** Only a booking awaiting its deposit or confirmed, with a selected slot,
      can get in the way. */
  predicate Occupying(s: BookedSlot) {
    (s.status == DepositWait || s.status == Confirmed) && s.selectedSlot.Some?
  }

  /** Hours counted from the epoch: the hour `hour` of day `day`. Comparing
      "same day and same hour of day" of two instants is comparing this. */
  function AbsoluteHour(day: Date, hour: int): int { day * 24 + hour }

  predicate Coincide(x: int, i: int, y: int, j: int) { x + i == y + j }

  /** The hour intervals `[a, a + da)` and `[b, b + db)` share an hour. */
  predicate ShareHour(a: int, da: nat, b: int, db: nat) {
    exists i, j :: 0 <= i < db && 0 <= j < da && Coincide(b, i, a, j)
  }

  /** The nested counting loops of `isTimeSlotAvailable`: steps through each
      hour of the booked interval and each hour of the requested one and
      reports whether some pair falls on the same day at the same hour. */
  method SlotConflicts(targetDay: Date, targetTime: Time, requested: nat, bookedDay: Date, bookedTime: Time, bookedDuration: nat)
    returns (conflict: bool)
    ensures conflict == ShareHour(AbsoluteHour(targetDay, HourOf(targetTime)), requested,
                                  AbsoluteHour(bookedDay, HourOf(bookedTime)), bookedDuration)
  {
    var bookedStart := AbsoluteHour(bookedDay, HourOf(bookedTime));
    var targetStart := AbsoluteHour(targetDay, HourOf(targetTime));
    for i := 0 to bookedDuration
      invariant forall i', j' :: 0 <= i' < i && 0 <= j' < requested ==> !Coincide(bookedStart, i', targetStart, j')
    {
      var checkBooked := bookedStart + i;
      for j := 0 to requested
        invariant forall j' :: 0 <= j' < j ==> !Coincide(bookedStart, i, targetStart, j')
      {
        var checkTarget := targetStart + j;
        if checkBooked / 24 == checkTarget / 24 && checkBooked % 24 == checkTarget % 24 {
          assert Coincide(bookedStart, i, targetStart, j);
          return true;
        }
      }
    }
    return false;
  }

  /** Booked slot `s` rules out starting the requested service (taking
      `requested` hours) at `time` on `day`. */
  predicate Conflicts(s: BookedSlot, requested: nat, day: Date, time: Time) {
    && Occupying(s)
    && ShareHour(AbsoluteHour(day, HourOf(time)), requested,
                 AbsoluteHour(s.selectedSlot.value.date, HourOf(s.selectedSlot.value.time)),
                 Services.Duration(s.serviceType))
  }

  /** No service chosen yet (absent or empty code). */
  predicate NoServiceChosen(serviceType: Option<string>) {
    serviceType.None? || serviceType.value == ""
  }

  predicate TimeSlotFree(booked: seq<BookedSlot>, serviceType: Option<string>, day: Date, time: Time) {
    || NoServiceChosen(serviceType)
    || !exists k :: 0 <= k < |booked| && Conflicts(booked[k], Services.Duration(serviceType.value), day, time)
  }

  /** `isTimeSlotAvailable`: a start time is available unless an occupying
      booking's interval shares an hour with the requested service's. */
  method IsTimeSlotAvailable(booked: seq<BookedSlot>, serviceType: Option<string>, day: Date, time: Time)
    returns (available: bool)
    ensures available == TimeSlotFree(booked, serviceType, day, time)
  {
    if NoServiceChosen(serviceType) {
      return true;
    }
    var requested := Services.Duration(serviceType.value);
    for k := 0 to |booked|
      invariant forall k' :: 0 <= k' < k ==> !Conflicts(booked[k'], requested, day, time)
    {
      var slot := booked[k];
      if Occupying(slot) {
        var hit := SlotConflicts(day, time, requested, slot.selectedSlot.value.date, slot.selectedSlot.value.time,
                                 Services.Duration(slot.serviceType));
        if hit {
          return false;
        }
      }
    }
    return true;
  }

  /** The wall clock, read once: a day and the milliseconds elapsed in it. */
  datatype Instant = Instant(day: Date, msOfDay: MsOfDay)

  type MsOfDay = n: nat | n < MsPerDay

  /** `isPastDate` of this component: the day's midnight lies before now. Now
      keeps its time of day, so today itself counts as past once midnight has
      gone by. */
  function IsPastDate(day: Date, now: Instant): (past: bool)
    ensures past <==> day * MsPerDay < now.day * MsPerDay + now.msOfDay
    ensures day == now.day ==> (past <==> now.msOfDay > 0)
  {
    if day < now.day then
      assert day * MsPerDay + MsPerDay <= now.day * MsPerDay;
      true
    else if day == now.day then now.msOfDay > 0
    else
      assert now.day * MsPerDay + MsPerDay <= day * MsPerDay;
      false
  }

  /** `hasAvailableSlot` and `isDisabled` of a calendar cell: a day can be
      picked only when it is not past, lies in the month shown and has some
      grid time available for the requested service. */
  method DayDisabled(booked: seq<BookedSlot>, serviceType: Option<string>, day: Date, now: Instant, inCurrentMonth: bool)
    returns (disabled: bool)
    ensures !disabled <==> && !IsPastDate(day, now)
                           && inCurrentMonth
                           && exists i :: 0 <= i < |Grid| && TimeSlotFree(booked, serviceType, day, Grid[i])
  {
    var hasAvailableSlot := false;
    for i := 0 to |Grid|
      invariant hasAvailableSlot <==> exists i' :: 0 <= i' < i && TimeSlotFree(booked, serviceType, day, Grid[i'])
    {
      var free := IsTimeSlotAvailable(booked, serviceType, day, Grid[i]);
      hasAvailableSlot := hasAvailableSlot || free;
    }
    disabled := IsPastDate(day, now) || !hasAvailableSlot || !inCurrentMonth;
  }

  /** Sharing an hour is ordinary interval overlap. */
  lemma ShareHourIffOverlap(a: int, da: nat, b: int, db: nat)
    requires da >= 1 && db >= 1
    ensures ShareHour(a, da, b, db) <==> a < b + db && b < a + da
  {
    if a < b + db && b < a + da {
      if a <= b {
        assert Coincide(b, 0, a, b - a);
      } else {
        assert Coincide(b, a - b, a, 0);
      }
    }
  }

  /** The conflict relation is symmetric in the requested and booked
      intervals. */
  lemma ShareHourSymmetric(a: int, da: nat, b: int, db: nat)
    ensures ShareHour(a, da, b, db) <==> ShareHour(b, db, a, da)
  {
    if da >= 1 && db >= 1 {
      ShareHourIffOverlap(a, da, b, db);
      ShareHourIffOverlap(b, db, a, da);
    } else {
      assert !ShareHour(a, da, b, db);
      assert !ShareHour(b, db, a, da);
    }
  }

  /** When neither interval reaches into the other's hours on the following
      day (in particular when both end by midnight), a conflict is an overlap
      of hours on the same day. */
  lemma ConflictIsSameDayOverlap(targetDay: Date, targetHour: nat, requested: nat, bookedDay: Date, bookedHour: nat, bookedDuration: nat)
    requires requested >= 1 && bookedDuration >= 1
    requires bookedHour + bookedDuration <= 24 + targetHour
    requires targetHour + requested <= 24 + bookedHour
    ensures ShareHour(AbsoluteHour(targetDay, targetHour), requested, AbsoluteHour(bookedDay, bookedHour), bookedDuration)
        <==> && targetDay == bookedDay
             && targetHour < bookedHour + bookedDuration
             && bookedHour < targetHour + requested
  {
    var a := AbsoluteHour(targetDay, targetHour);
    var b := AbsoluteHour(bookedDay, bookedHour);
    ShareHourIffOverlap(a, requested, b, bookedDuration);
    if targetDay < bookedDay {
      assert targetDay * 24 + 24 <= bookedDay * 24;
    } else if bookedDay < targetDay {
      assert bookedDay * 24 + 24 <= targetDay * 24;
    }
  }

  /** With a service chosen, a booked slot that is not occupying never rules a
      time out: pending, deposit-confirmed and rejected bookings, and bookings
      without a selected slot, are ignored. */
  lemma NonOccupyingSlotsIgnored(booked: seq<BookedSlot>, serviceType: Option<string>, day: Date, time: Time)
    requires forall k | 0 <= k < |booked| :: !Occupying(booked[k])
    ensures TimeSlotFree(booked, serviceType, day, time)
  {
  }

  /** The conflict is symmetric in practice: a 2-hour request at 10:00 is
      refused next to a booking at 11:00, and a 2-hour booking at 10:00
      refuses a request at 11:00. */
  lemma SymmetricConflictExamples(day: Date)
    ensures !TimeSlotFree([BookedSlot(day, "11:00", Confirmed, Some(TimeSlot(day, "11:00", None)), "retouch")],
                          Some("natural"), day, "10:00")
    ensures !TimeSlotFree([BookedSlot(day, "10:00", DepositWait, Some(TimeSlot(day, "10:00", None)), "shadow")],
                          Some("removal"), day, "11:00")
  {
    var at11 := BookedSlot(day, "11:00", Confirmed, Some(TimeSlot(day, "11:00", None)), "retouch");
    var at10 := BookedSlot(day, "10:00", DepositWait, Some(TimeSlot(day, "10:00", None)), "shadow");
    assert HourOf("10:00") == 10 && HourOf("11:00") == 11;
    assert Services.Duration("natural") == 2 && Services.Duration("retouch") == 1;
    assert Services.Duration("shadow") == 2 && Services.Duration("removal") == 1;
    assert Coincide(AbsoluteHour(day, 11), 0, AbsoluteHour(day, 10), 1);
    assert [at11][0] == at11 && Conflicts([at11][0], 2, day, "10:00");
    assert Coincide(AbsoluteHour(day, 10), 1, AbsoluteHour(day, 11), 0);
    assert [at10][0] == at10 && Conflicts([at10][0], 1, day, "11:00");
  }

  /** `c` is the calendar's view of the backend booking `b`. */
  predicate Mirrors(c: BookedSlot, b: SupabaseApi.Booking) {
    && c.selectedSlot.Some?
    && c.selectedSlot.value.date == b.date
    && c.selectedSlot.value.time == b.time
    && c.serviceType == b.serviceType
    && ((c.status == DepositWait || c.status == Confirmed) <==> SupabaseApi.IsActive(b))
  }

  /** One mirrored booking, one grid time, a 1-hour request: the calendar's
      conflict is the backend rule's hour coverage. */
  lemma MirroredConflictIsCoverage(c: BookedSlot, b: SupabaseApi.Booking, day: Date, i: nat)
    requires i < |Grid| && Mirrors(c, b)
    ensures Conflicts(c, 1, day, Grid[i]) <==> SupabaseApi.IsActive(b) && SupabaseApi.Occupies(b, day, GridHours[i])
  {
    GridFacts();
    ConflictIsSameDayOverlap(day, GridHours[i], 1, b.date, HourOf(b.time), Services.Duration(b.serviceType));
  }

  /** Over mirrored lists, some booking conflicts with a 1-hour request at a
      grid time exactly when some active backend booking covers its hour. */
  lemma MirroredListsAgree(day: Date, cal: seq<BookedSlot>, api: seq<SupabaseApi.Booking>, i: nat)
    requires i < |Grid|
    requires |cal| == |api| && forall k | 0 <= k < |cal| :: Mirrors(cal[k], api[k])
    ensures (exists k :: 0 <= k < |cal| && Conflicts(cal[k], 1, day, Grid[i]))
        <==> (exists b :: b in api && SupabaseApi.IsActive(b) && SupabaseApi.Occupies(b, day, GridHours[i]))
  {
    if exists k :: 0 <= k < |cal| && Conflicts(cal[k], 1, day, Grid[i]) {
      var k :| 0 <= k < |cal| && Conflicts(cal[k], 1, day, Grid[i]);
      MirroredConflictIsCoverage(cal[k], api[k], day, i);
      assert api[k] in api;
    }
    if exists b :: b in api && SupabaseApi.IsActive(b) && SupabaseApi.Occupies(b, day, GridHours[i]) {
      var b :| b in api && SupabaseApi.IsActive(b) && SupabaseApi.Occupies(b, day, GridHours[i]);
      var k :| 0 <= k < |api| && api[k] == b;
      MirroredConflictIsCoverage(cal[k], api[k], day, i);
    }
  }

  /** For a 1-hour service, this component and the per-day rule of the backend
      module agree on which grid times the bookings of a day take away. */
  lemma OneHourRequestAgreesWithDayRule(
    day: Date, cal: seq<BookedSlot>, api: seq<SupabaseApi.Booking>, serviceType: string, i: nat)
    requires i < |Grid|
    requires serviceType != "" && Services.Duration(serviceType) == 1
    requires |cal| == |api| && forall k | 0 <= k < |cal| :: Mirrors(cal[k], api[k])
    requires forall b | b in api && SupabaseApi.IsActive(b) :: OnTheHour(b.time)
    ensures TimeSlotFree(cal, Some(serviceType), day, Grid[i]) <==> SupabaseApi.SlotsOf(day, [], api)[i].available
  {
    SupabaseApi.SlotAvailableIffUncovered(day, [], api, i);
    MirroredListsAgree(day, cal, api, i);
  }

  /** For a 2-hour service the two rules part ways: the backend rule looks only
      backwards from a slot, so 10:00 stays available in front of a booking at
      11:00, while this component refuses a 2-hour start at 10:00. */
  lemma TwoHourRequestsDiffer(day: Date)
    ensures var b := SupabaseApi.Booking(None, day, "11:00", "retouch", None, None, SupabaseApi.Confirmed, None);
            var c := BookedSlot(day, "11:00", Confirmed, Some(TimeSlot(day, "11:00", None)), "retouch");
            && Mirrors(c, b)
            && SupabaseApi.SlotsOf(day, [], [b])[0].available
            && !TimeSlotFree([c], Some("combo"), day, Grid[0])
  {
    var b := SupabaseApi.Booking(None, day, "11:00", "retouch", None, None, SupabaseApi.Confirmed, None);
    var c := BookedSlot(day, "11:00", Confirmed, Some(TimeSlot(day, "11:00", None)), "retouch");
    GridFacts();
    SupabaseApi.SlotAvailableIffUncovered(day, [], [b], 0);
    assert HourOf("11:00") == 11;
    assert Services.Duration("combo") == 2 && Services.Duration("retouch") == 1;
    assert Coincide(AbsoluteHour(day, 11), 0, AbsoluteHour(day, 10), 1);
    assert [c][0] == c && Conflicts([c][0], 2, day, Grid[0]);
  }
}
