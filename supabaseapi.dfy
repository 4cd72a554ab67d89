/** The records the backend stores and the per-day availability rule
    (`getAvailableSlots`) that the customer-facing slot page relies on. The two
    backend reads it performs are parameters: each one either delivered its rows
    or failed. */
module SupabaseApi {
  import opened Common
  import opened TimeGrid
  import Services

  datatype BookingStatus = Available | DepositWait | Confirmed | Cancelled

  /** A manual block (a row of 'unavailable_slots'); its status tag is always
      'blocked', so it is not stored here. */
  datatype UnavailableSlot = UnavailableSlot(id: Option<string>, date: Date, time: string, reason: Option<string>)

  datatype Booking = Booking(
    id: Option<string>,
    date: Date,
    time: Time,
    serviceType: string,
    customerName: Option<string>,
    customerPhone: Option<string>,
    status: BookingStatus,
    notes: Option<string>)

  /** Only a booking awaiting its deposit or confirmed occupies the calendar. */
  predicate IsActive(b: Booking) { b.status == DepositWait || b.status == Confirmed }

  function ActiveBookings(bookings: seq<Booking>): (r: seq<Booking>)
    ensures forall b :: b in r <==> b in bookings && IsActive(b)
  {
    var r := Filter(bookings, IsActive);
    assert forall b | b in bookings && IsActive(b) :: b in r by {
      forall b | b in bookings && IsActive(b) ensures b in r { FilterKeeps(bookings, IsActive, b); }
    }
    r
  }

  /** Some manual block names exactly this date and time label. */
  predicate BlockMatches(blocks: seq<UnavailableSlot>, date: Date, time: string) {
    exists u :: u in blocks && u.date == date && u.time == time
  }

  /** Some booking of `booked` starts exactly at this date and time label. */
  predicate StartsAt(booked: seq<Booking>, date: Date, time: string) {
    exists b :: b in booked && b.date == date && b.time == time
  }

  /** Some booking of `booked` started at an earlier hour of this date and is
      still running at `hour`. */
  predicate SpillsInto(booked: seq<Booking>, date: Date, hour: nat) {
    exists b :: b in booked && b.date == date && HourOf(b.time) < hour < HourOf(b.time) + Services.Duration(b.serviceType)
  }

  /** The verdict on one slot of the grid, given the blocks and the active
      bookings. */
  function MarkSlot(slot: AvailableTimeSlot, blocks: seq<UnavailableSlot>, booked: seq<Booking>): (r: AvailableTimeSlot)
    ensures r.date == slot.date && r.time == slot.time
    ensures BlockMatches(blocks, slot.date, slot.time) ==> !r.available
  {
    if BlockMatches(blocks, slot.date, slot.time) then slot.(available := false)
    else if StartsAt(booked, slot.date, slot.time) then slot.(available := false)
    else slot.(available := !SpillsInto(booked, slot.date, HourOf(slot.time)))
  }

  /** The grid of `date` with each slot marked available or not. When either
      read failed, the whole grid is returned as available. */
  function GetAvailableSlots(date: Date, blocksRead: Fetch<seq<UnavailableSlot>>, bookingsRead: Fetch<seq<Booking>>)
    : (r: seq<AvailableTimeSlot>)
    ensures |r| == |Grid|
    ensures forall i | 0 <= i < |r| :: r[i].date == date && r[i].time == Grid[i]
  {
    var allSlots := OpenGrid(date);
    match (blocksRead, bookingsRead)
    case (Fetched(blocks), Fetched(bookings)) =>
      var booked := ActiveBookings(bookings);
      Map(allSlots, slot => MarkSlot(slot, blocks, booked))
    case _ => allSlots
  }

  /** Shorthand for the case where both reads succeeded. */
  function SlotsOf(date: Date, blocks: seq<UnavailableSlot>, bookings: seq<Booking>): seq<AvailableTimeSlot> {
    GetAvailableSlots(date, Fetched(blocks), Fetched(bookings))
  }

  /** If either read fails, the customer sees the whole grid as open. */
  lemma FetchFailureOpensGrid(date: Date, blocksRead: Fetch<seq<UnavailableSlot>>, bookingsRead: Fetch<seq<Booking>>)
    requires blocksRead.FetchFailed? || bookingsRead.FetchFailed?
    ensures forall i | 0 <= i < |Grid| :: GetAvailableSlots(date, blocksRead, bookingsRead)[i].available
  {
  }

  /** A manual block on a slot makes it unavailable, whatever the bookings. */
  lemma BlockWins(date: Date, blocks: seq<UnavailableSlot>, bookings: seq<Booking>, i: nat)
    requires i < |Grid| && BlockMatches(blocks, date, Grid[i])
    ensures !SlotsOf(date, blocks, bookings)[i].available
  {
  }

  /** An active booking makes the slot it starts at unavailable. */
  lemma ActiveBookingTakesItsStart(date: Date, blocks: seq<UnavailableSlot>, bookings: seq<Booking>, b: Booking, i: nat)
    requires i < |Grid| && b in bookings && IsActive(b) && b.date == date && b.time == Grid[i]
    ensures !SlotsOf(date, blocks, bookings)[i].available
  {
    assert b in ActiveBookings(bookings);
  }

  /** The result depends on the active bookings only. */
  lemma {:induction false} OnlyActiveBookingsCount(date: Date, blocks: seq<UnavailableSlot>, bookings: seq<Booking>)
    ensures SlotsOf(date, blocks, bookings) == SlotsOf(date, blocks, ActiveBookings(bookings))
  {
    FilterIdempotent(bookings, IsActive);
  }

  /** Adding a booking that is neither awaiting its deposit nor confirmed
      (an 'available' or 'cancelled' one) changes no slot. */
  lemma {:induction false} InactiveBookingChangesNothing(date: Date, blocks: seq<UnavailableSlot>, bookings: seq<Booking>, x: Booking)
    requires !IsActive(x)
    ensures SlotsOf(date, blocks, bookings + [x]) == SlotsOf(date, blocks, bookings)
  {
    FilterAppend(bookings, [x], IsActive);
    assert Filter([x], IsActive) == [];
    assert ActiveBookings(bookings + [x]) == ActiveBookings(bookings);
  }

  /** With no manual block and no active booking every slot is available. */
  lemma {:induction false} QuietDayIsOpen(date: Date, bookings: seq<Booking>)
    requires forall b | b in bookings :: !IsActive(b)
    ensures forall i | 0 <= i < |Grid| :: SlotsOf(date, [], bookings)[i].available
  {
    FilterNone(bookings, IsActive);
  }

  /** The hours `[HourOf(b.time), HourOf(b.time) + duration)` that a booking
      occupies contain `hour`. */
  predicate Occupies(b: Booking, date: Date, hour: nat) {
    b.date == date && HourOf(b.time) <= hour < HourOf(b.time) + Services.Duration(b.serviceType)
  }

  /** An independent reading of the rule: when active bookings start on whole
      hours, a grid slot is available exactly when no block names it and no
      active booking's hour interval covers its hour. */
  lemma SlotAvailableIffUncovered(date: Date, blocks: seq<UnavailableSlot>, bookings: seq<Booking>, i: nat)
    requires i < |Grid|
    requires forall b | b in bookings && IsActive(b) :: OnTheHour(b.time)
    ensures SlotsOf(date, blocks, bookings)[i].available
        <==> !BlockMatches(blocks, date, Grid[i])
             && !exists b :: b in bookings && IsActive(b) && Occupies(b, date, GridHours[i])
  {
    GridFacts();
    var booked := ActiveBookings(bookings);
    var t := Grid[i];
    var h := HourOf(t);
    if exists b :: b in bookings && IsActive(b) && Occupies(b, date, h) {
      var b :| b in bookings && IsActive(b) && Occupies(b, date, h);
      assert b in booked;
      if HourOf(b.time) == h {
        HourDeterminesLabel(b.time, t);
        assert StartsAt(booked, date, t);
      } else {
        assert SpillsInto(booked, date, h);
      }
    }
    if StartsAt(booked, date, t) {
      var b :| b in booked && b.date == date && b.time == t;
      assert Occupies(b, date, h);
    }
  }

  /** A booking whose service code is not in the catalog blocks only the slot it
      starts at. */
  lemma UnknownServiceBlocksOnlyItsStart(date: Date, b: Booking, i: nat)
    requires i < |Grid|
    requires IsActive(b) && b.date == date && OnTheHour(b.time)
    requires b.serviceType !in Services.Codes
    ensures SlotsOf(date, [], [b])[i].available <==> Grid[i] != b.time
  {
    SlotAvailableIffUncovered(date, [], [b], i);
    GridFacts();
    if Grid[i] != b.time && HourOf(b.time) == GridHours[i] {
      HourDeterminesLabel(b.time, Grid[i]);
    }
  }

  /** Spill-over reaches later grid slots by hour, not by position: a 2-hour
      booking at 11:00 covers 11:00 and the missing 12:00, so 13:00 stays
      free. */
  lemma TwoHourBookingAtEleven(date: Date)
    ensures var at11 := Booking(None, date, "11:00", "natural", None, None, Confirmed, None);
            var r := SlotsOf(date, [], [at11]);
            !r[1].available && r[2].available && r[0].available
  {
    GridFacts();
    var at11 := Booking(None, date, "11:00", "natural", None, None, Confirmed, None);
    assert HourOf(at11.time) == 11;
    SlotAvailableIffUncovered(date, [], [at11], 0);
    SlotAvailableIffUncovered(date, [], [at11], 1);
    SlotAvailableIffUncovered(date, [], [at11], 2);
  }

  /** A 2-hour booking at 10:00 takes 10:00 and 11:00 and leaves 13:00 free. */
  lemma TwoHourBookingAtTen(date: Date)
    ensures var at10 := Booking(None, date, "10:00", "combo", None, None, DepositWait, None);
            var r := SlotsOf(date, [], [at10]);
            !r[0].available && !r[1].available && r[2].available
  {
    GridFacts();
    var at10 := Booking(None, date, "10:00", "combo", None, None, DepositWait, None);
    assert HourOf(at10.time) == 10;
    SlotAvailableIffUncovered(date, [], [at10], 0);
    SlotAvailableIffUncovered(date, [], [at10], 1);
    SlotAvailableIffUncovered(date, [], [at10], 2);
  }
}
