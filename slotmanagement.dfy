/** The operator's slot screen (`SlotManagementList`): the status shown on
    each grid time, the block/unblock toggle, bulk blocking over a date range,
    the time checkboxes of the bulk form, and which status changes and clicks
    the screen offers. Backend writes are returned as edits. */
module SlotManagement {
  import opened Common
  import opened TimeGrid
  import opened TextOrder
  import opened SupabaseApi

  /** What the screen shows for a time: 'blocked', or the status string of a
      booking, where 'available' also stands for "nothing here". */
  datatype SlotStatus = Blocked | Status(status: BookingStatus)

  predicate BlockAt(u: UnavailableSlot, date: Date, time: string) { u.date == date && u.time == time }

  predicate BookingAt(b: Booking, date: Date, time: string) { b.date == date && b.time == time }

  /** `getSlotStatus`. */
  function GetSlotStatus(selectedDate: Option<Date>, blocks: seq<UnavailableSlot>, bookings: seq<Booking>, time: string)
    : (r: SlotStatus)
    ensures selectedDate.None? ==> r == Status(Available)
    ensures selectedDate.Some? && BlockMatches(blocks, selectedDate.value, time) ==> r == Blocked
    ensures r == Blocked ==> selectedDate.Some? && BlockMatches(blocks, selectedDate.value, time)
  {
    match selectedDate
    case None => Status(Available)
    case Some(date) =>
      if exists u :: u in blocks && BlockAt(u, date, time) then Blocked
      else match FindFirst(bookings, b => BookingAt(b, date, time))
        case Some(k) => Status(bookings[k].status)
        case None => Status(Available)
  }

  /** Without a block, the first booking at exactly that date and time decides
      the status, whatever its status (a cancelled one included); with no such
      booking the time shows as 'available'. */
  lemma FirstBookingDecides(date: Date, blocks: seq<UnavailableSlot>, bookings: seq<Booking>, time: string, k: nat)
    requires !BlockMatches(blocks, date, time)
    requires k < |bookings| && BookingAt(bookings[k], date, time)
    requires forall j | 0 <= j < k :: !BookingAt(bookings[j], date, time)
    ensures GetSlotStatus(Some(date), blocks, bookings, time) == Status(bookings[k].status)
  {
    var f := FindFirst(bookings, b => BookingAt(b, date, time));
    assert f.Some?;
    assert f.value == k;
  }

  /** The operator view has no duration spill-over: a booking marks only its
      own start time. */
  lemma NoBookingNoStatus(date: Date, blocks: seq<UnavailableSlot>, bookings: seq<Booking>, time: string)
    requires !BlockMatches(blocks, date, time)
    requires forall b | b in bookings :: !BookingAt(b, date, time)
    ensures GetSlotStatus(Some(date), blocks, bookings, time) == Status(Available)
  {
    var f := FindFirst(bookings, b => BookingAt(b, date, time));
    assert f.None?;
  }

  /** A backend write decided by the screen. */
  datatype BlockEdit = NoEdit | CreateBlock(slot: UnavailableSlot) | DeleteBlock(id: string)

  const ToggleReason: string := "예약 불가"

  /** `blocks[k]` is the first block naming the date and time. */
  predicate FirstBlockAt(blocks: seq<UnavailableSlot>, date: Date, time: string, k: nat)
    requires k < |blocks|
  {
    BlockAt(blocks[k], date, time) && forall j | 0 <= j < k :: !BlockAt(blocks[j], date, time)
  }

  /** `handleBlockSlot`: an unblocked time gets one new block; a blocked time
      loses the first matching block, provided that block has a non-empty id. */
  function ToggleBlock(selectedDate: Option<Date>, blocks: seq<UnavailableSlot>, time: string): (e: BlockEdit)
    ensures selectedDate.None? ==> e == NoEdit
    ensures selectedDate.Some? && !BlockMatches(blocks, selectedDate.value, time)
            ==> e == CreateBlock(UnavailableSlot(None, selectedDate.value, time, Some(ToggleReason)))
    ensures e.DeleteBlock? ==> selectedDate.Some? && exists u :: u in blocks && BlockAt(u, selectedDate.value, time) && u.id == Some(e.id)
    ensures forall k | 0 <= k < |blocks| && selectedDate.Some? && FirstBlockAt(blocks, selectedDate.value, time, k) ::
              e == if blocks[k].id.Some? && blocks[k].id.value != "" then DeleteBlock(blocks[k].id.value) else NoEdit
  {
    match selectedDate
    case None => NoEdit
    case Some(date) =>
      if exists u :: u in blocks && BlockAt(u, date, time) then
        match FindFirst(blocks, u => BlockAt(u, date, time))
        case Some(k) =>
          if blocks[k].id.Some? && blocks[k].id.value != "" then
            assert blocks[k] in blocks;
            DeleteBlock(blocks[k].id.value)
          else NoEdit
        case None => NoEdit
      else CreateBlock(UnavailableSlot(None, date, time, Some(ToggleReason)))
  }

  /** The block list as the reload after the write sees it; `freshId` is the id
      the backend gives a new row. */
  function ApplyEdit(blocks: seq<UnavailableSlot>, e: BlockEdit, freshId: string): seq<UnavailableSlot> {
    match e
    case NoEdit => blocks
    case CreateBlock(u) => blocks + [u.(id := Some(freshId))]
    case DeleteBlock(id) => Filter(blocks, (u: UnavailableSlot) => u.id != Some(id))
  }

  /** Toggling a time that has no block blocks it. */
  lemma ToggleBlocksFreeTime(date: Date, blocks: seq<UnavailableSlot>, bookings: seq<Booking>, time: string, freshId: string)
    requires !BlockMatches(blocks, date, time)
    ensures GetSlotStatus(Some(date), ApplyEdit(blocks, ToggleBlock(Some(date), blocks, time), freshId), bookings, time) == Blocked
  {
    var after := ApplyEdit(blocks, ToggleBlock(Some(date), blocks, time), freshId);
    assert after[|blocks|] in after;
  }

  /** Backend ids are distinct. */
  predicate UniqueIds(blocks: seq<UnavailableSlot>) {
    forall a, b | 0 <= a < b < |blocks| && blocks[a].id.Some? :: blocks[a].id != blocks[b].id
  }

  /** Toggling a time blocked exactly once (by a block with an id) unblocks it. */
  lemma ToggleUnblocksSingleBlock(date: Date, blocks: seq<UnavailableSlot>, time: string, freshId: string, k: nat)
    requires k < |blocks| && BlockAt(blocks[k], date, time)
    requires blocks[k].id.Some? && blocks[k].id.value != ""
    requires forall j | 0 <= j < |blocks| && BlockAt(blocks[j], date, time) :: j == k
    ensures !BlockMatches(ApplyEdit(blocks, ToggleBlock(Some(date), blocks, time), freshId), date, time)
  {
    assert blocks[k] in blocks;
    var f := FindFirst(blocks, u => BlockAt(u, date, time));
    assert f == Some(k);
    var after := Filter(blocks, (u: UnavailableSlot) => u.id != blocks[k].id);
    forall u | u in after ensures !BlockAt(u, date, time) {
      var j :| 0 <= j < |blocks| && blocks[j] == u;
    }
  }

  lemma IdOnlyAt(blocks: seq<UnavailableSlot>, k: nat, id: string, a: nat)
    requires UniqueIds(blocks)
    requires k < |blocks| && blocks[k].id == Some(id)
    requires a < |blocks| && a != k
    ensures blocks[a].id != Some(id)
  {
    if a < k {
      if blocks[a].id.Some? {
        assert blocks[a].id != blocks[k].id;
      }
    } else {
      assert blocks[k].id != blocks[a].id;
    }
  }

  /** With distinct ids, deleting by the id of `blocks[k]` removes that block
      alone and keeps the others in order. */
  lemma DeleteByUniqueId(blocks: seq<UnavailableSlot>, k: nat, id: string)
    requires UniqueIds(blocks)
    requires k < |blocks| && blocks[k].id == Some(id)
    ensures Filter(blocks, (u: UnavailableSlot) => u.id != Some(id)) == blocks[..k] + blocks[k + 1..]
  {
    var keep := (u: UnavailableSlot) => u.id != Some(id);
    forall a | 0 <= a < |blocks| && a != k ensures keep(blocks[a]) {
      IdOnlyAt(blocks, k, id, a);
    }
    FilterDropsOne(blocks, keep, k);
  }

  /** With distinct ids, toggling a blocked time whose first block has an id
      removes exactly that block and keeps every other block in order. */
  lemma ToggleDeletesFirstBlock(date: Date, blocks: seq<UnavailableSlot>, time: string, freshId: string, k: nat)
    requires UniqueIds(blocks)
    requires k < |blocks| && FirstBlockAt(blocks, date, time, k)
    requires blocks[k].id.Some? && blocks[k].id.value != ""
    ensures ApplyEdit(blocks, ToggleBlock(Some(date), blocks, time), freshId) == blocks[..k] + blocks[k + 1..]
  {
    assert ToggleBlock(Some(date), blocks, time) == DeleteBlock(blocks[k].id.value);
    DeleteByUniqueId(blocks, k, blocks[k].id.value);
  }

  /** With two blocks on the same time, one toggle deletes at most the first of
      them: the later one survives, so the time stays blocked. */
  lemma DuplicateBlockSurvivesToggle(date: Date, blocks: seq<UnavailableSlot>, time: string, freshId: string, j: nat, k: nat)
    requires UniqueIds(blocks)
    requires j < k < |blocks| && BlockAt(blocks[j], date, time) && BlockAt(blocks[k], date, time)
    ensures blocks[k] in ApplyEdit(blocks, ToggleBlock(Some(date), blocks, time), freshId)
    ensures BlockMatches(ApplyEdit(blocks, ToggleBlock(Some(date), blocks, time), freshId), date, time)
  {
    assert blocks[j] in blocks;
    var e := ToggleBlock(Some(date), blocks, time);
    if e.DeleteBlock? {
      var f := FindFirst(blocks, u => BlockAt(u, date, time));
      var m := f.value;
      assert m <= j;
      assert blocks[m].id == Some(e.id);
      assert blocks[k].id != blocks[m].id;
      FilterKeeps(blocks, (u: UnavailableSlot) => u.id != Some(e.id), blocks[k]);
    }
  }

  /** The days from `start` to `end`, both included, in ascending order. */
  function DayRange(start: Date, end: Date): (r: seq<Date>)
    ensures |r| == if start <= end then end - start + 1 else 0
    ensures forall i | 0 <= i < |r| :: r[i] == start + i
  {
    if start > end then [] else seq(end - start + 1, i => start + i)
  }

  function BlockOf(date: Date, time: string, reason: string): UnavailableSlot {
    UnavailableSlot(None, date, time, Some(reason))
  }

  /** One block per time for one date, in the order of the times. */
  function Row(date: Date, times: seq<string>, reason: string): (r: seq<UnavailableSlot>)
    ensures |r| == |times|
  {
    seq(|times|, j requires 0 <= j < |times| => BlockOf(date, times[j], reason))
  }

  /** The blocks of every date with every time, date by date. */
  function BlocksFor(dates: seq<Date>, times: seq<string>, reason: string): seq<UnavailableSlot>
    decreases |dates|
  {
    if dates == [] then []
    else BlocksFor(dates[..|dates| - 1], times, reason) + Row(dates[|dates| - 1], times, reason)
  }

  /** Bulk blocking emits |dates| x |times| blocks. */
  lemma {:induction false} BlocksForLength(dates: seq<Date>, times: seq<string>, reason: string)
    ensures |BlocksFor(dates, times, reason)| == |dates| * |times|
    decreases |dates|
  {
    if dates != [] {
      BlocksForLength(dates[..|dates| - 1], times, reason);
      assert (|dates| - 1) * |times| + |times| == |dates| * |times|;
    }
  }

  /** The blocks come in date-major order: the block at position
      i * |times| + j is date i with time j. */
  lemma {:induction false} BlocksForAt(dates: seq<Date>, times: seq<string>, reason: string, i: nat, j: nat)
    requires i < |dates| && j < |times|
    ensures i * |times| + j < |BlocksFor(dates, times, reason)|
    ensures BlocksFor(dates, times, reason)[i * |times| + j] == BlockOf(dates[i], times[j], reason)
    decreases |dates|
  {
    var m, n := |dates|, |times|;
    var front := dates[..m - 1];
    var prefix := BlocksFor(front, times, reason);
    BlocksForLength(front, times, reason);
    BlocksForLength(dates, times, reason);
    if i < m - 1 {
      BlocksForAt(front, times, reason, i, j);
      assert front[i] == dates[i];
    } else {
      assert i * n + j == |prefix| + j;
    }
  }

  /** `handleBulkBlock`: refuses a range whose start lies after its end;
      otherwise lists the days of the range and pairs each with each chosen
      time. Nothing is checked against existing blocks. */
  method BulkBlock(start: Date, end: Date, times: seq<string>, reason: string) returns (r: Option<seq<UnavailableSlot>>)
    ensures start > end ==> r == None
    ensures start <= end ==> r == Some(BlocksFor(DayRange(start, end), times, reason))
  {
    if start > end {
      return None;
    }
    var dates: seq<Date> := [];
    var current := start;
    while current <= end
      invariant start <= current <= end + 1
      invariant dates == DayRange(start, current - 1)
      decreases end - current
    {
      dates := dates + [current];
      current := current + 1;
    }
    var slotsToBlock: seq<UnavailableSlot> := [];
    for i := 0 to |dates|
      invariant slotsToBlock == BlocksFor(dates[..i], times, reason)
    {
      for j := 0 to |times|
        invariant slotsToBlock == BlocksFor(dates[..i], times, reason) + Row(dates[i], times[..j], reason)
      {
        assert Row(dates[i], times[..j + 1], reason) == Row(dates[i], times[..j], reason) + [BlockOf(dates[i], times[j], reason)];
        slotsToBlock := slotsToBlock + [BlockOf(dates[i], times[j], reason)];
      }
      assert dates[..i + 1][..i] == dates[..i];
      assert times[..|times|] == times;
    }
    assert dates[..|dates|] == dates;
    return Some(slotsToBlock);
  }

  /** `toggleTimeSelection`: flips whether `time` is chosen and leaves every
      other time as it was; a newly added time is sorted in, so a sorted
      selection stays sorted. */
  function ToggleTimeSelection(times: seq<string>, time: string): (r: seq<string>)
    ensures time in r <==> time !in times
    ensures forall t | t != time :: multiset(r)[t] == multiset(times)[t]
    ensures time !in times ==> multiset(r)[time] == 1 && Sorted(r)
    ensures Sorted(times) ==> Sorted(r)
  {
    if time in times then
      var r := RemoveAll(times, time);
      if Sorted(times) then FilterKeepsSorted(times, time, r); r else r
    else
      var r := Sort(times + [time]);
      assert multiset(times + [time]) == multiset(times) + multiset{time};
      assert time in multiset(r);
      r
  }

  /** `toggleAllTimes`: everything or nothing. */
  function ToggleAllTimes(select: bool): (r: seq<string>)
    ensures select ==> |r| == 9 && Sorted(r) && forall t :: t in r <==> t in Grid
    ensures !select ==> r == []
  {
    if select then
      assert Sorted(Grid) by {
        forall i, j | 0 <= i < j < |Grid| ensures LexLe(Grid[i], Grid[j]) {
          GridLexOrder(i, j);
        }
      }
      Grid
    else []
  }

  lemma GridLexOrder(i: nat, j: nat)
    requires i < j < |Grid|
    ensures LexLe(Grid[i], Grid[j])
  {
    var a, b := Grid[i], Grid[j];
    if a[0] == b[0] {
      assert a[1..][0] < b[1..][0];
    }
  }

  /** The status changes the booking list offers. */
  function OfferedTransitions(s: BookingStatus): (r: seq<BookingStatus>)
    ensures forall t | t in r :: Progress(s) < Progress(t)
    ensures s == Cancelled || s == Available ==> r == []
    ensures Cancelled in r <==> s == DepositWait || s == Confirmed
    ensures Confirmed in r <==> s == DepositWait
    ensures forall t | t in r :: multiset(r)[t] == 1
  {
    match s
    case DepositWait => [Confirmed, Cancelled]
    case Confirmed => [Cancelled]
    case _ => []
  }

  /** How far along its life a booking is. */
  function Progress(s: BookingStatus): nat {
    match s
    case Available => 0
    case DepositWait => 1
    case Confirmed => 2
    case Cancelled => 3
  }

  datatype Mode = BlockMode | BookMode

  datatype ClickAction = ToggleBlockAt | OpenBookingForm | Ignore

  /** A click on a grid time: block mode toggles whatever the status; book mode
      opens the booking form only on an 'available' time. */
  function OnSlotClick(mode: Mode, status: SlotStatus): (a: ClickAction)
    ensures a == OpenBookingForm <==> mode == BookMode && status == Status(Available)
    ensures a == ToggleBlockAt <==> mode == BlockMode
  {
    match (mode, status)
    case (BlockMode, _) => ToggleBlockAt
    case (BookMode, Status(Available)) => OpenBookingForm
    case (BookMode, _) => Ignore
  }
}
