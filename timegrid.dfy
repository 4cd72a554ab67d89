/** Clock times, calendar days and the fixed grid of bookable start times that
    every screen of the studio's booking application repeats as
    `AVAILABLE_TIMES`. */
module TimeGrid {

  /** A calendar day, counted in days from an arbitrary epoch. The application
      keys days by their 'yyyy-MM-dd' text, which is one-to-one with the day. */
  type Date = int

  /** Milliseconds in a day; a day's midnight is `day * MsPerDay` on the
      millisecond clock that JavaScript dates compare by. */
  const MsPerDay: nat := 86400000

  predicate IsDigit(c: char) { '0' <= c <= '9' }

  function DigitValue(c: char): (v: nat)
    requires IsDigit(c)
    ensures v < 10
  {
    (c as int) - ('0' as int)
  }

  /** A well-formed 24-hour "HH:MM" label. */
  predicate IsClockTime(s: string) {
    && |s| == 5
    && IsDigit(s[0]) && IsDigit(s[1]) && s[2] == ':' && IsDigit(s[3]) && IsDigit(s[4])
    && DigitValue(s[0]) * 10 + DigitValue(s[1]) < 24
    && DigitValue(s[3]) < 6
  }

  type Time = s: string | IsClockTime(s) witness "10:00"

  /** The hour of a time label, as `parseInt(time.split(':')[0])` reads it. */
  function HourOf(t: Time): (h: nat)
    ensures h < 24
  {
    DigitValue(t[0]) * 10 + DigitValue(t[1])
  }

  /** The label names a whole hour ("HH:00"). */
  predicate OnTheHour(t: Time) { t[3] == '0' && t[4] == '0' }

  /** Two whole-hour labels with the same hour are the same label, so for them
      comparing labels and comparing hours agree. */
  lemma HourDeterminesLabel(a: Time, b: Time)
    requires OnTheHour(a) && OnTheHour(b) && HourOf(a) == HourOf(b)
    ensures a == b
  {
    assert DigitValue(a[0]) == DigitValue(b[0]);
    assert a[0] == b[0] && a[1] == b[1];
    assert forall i | 0 <= i < 5 :: a[i] == b[i];
  }

  /** The bookable start times of a day: 10:00 and 11:00 in the morning, then
      13:00 to 19:00 (there is no 12:00 slot). */
  const Grid: seq<Time> := ["10:00", "11:00", "13:00", "14:00", "15:00", "16:00", "17:00", "18:00", "19:00"]

  /** The hours of the grid, in grid order. */
  const GridHours: seq<nat> := [10, 11, 13, 14, 15, 16, 17, 18, 19]

  lemma GridFacts()
    ensures |Grid| == 9 == |GridHours|
    ensures forall i | 0 <= i < 9 :: HourOf(Grid[i]) == GridHours[i] && OnTheHour(Grid[i])
    ensures forall i, j | 0 <= i < j < 9 :: GridHours[i] < GridHours[j]
    ensures forall i | 0 <= i < 9 :: 10 <= GridHours[i] <= 19 && GridHours[i] != 12
  {
    assert HourOf(Grid[0]) == 10;
    assert HourOf(Grid[1]) == 11;
    assert HourOf(Grid[2]) == 13;
    assert HourOf(Grid[3]) == 14;
    assert HourOf(Grid[4]) == 15;
    assert HourOf(Grid[5]) == 16;
    assert HourOf(Grid[6]) == 17;
    assert HourOf(Grid[7]) == 18;
    assert HourOf(Grid[8]) == 19;
  }

  /** Both screens split times into a morning group (before noon) and an
      afternoon group by the hour of the label. */
  predicate IsMorning(t: Time) { HourOf(t) < 12 }

  predicate AllDigits(s: string) { forall i | 0 <= i < |s| :: IsDigit(s[i]) }

  /** The number a run of decimal digits denotes. */
  function DigitsValue(s: string): nat
    requires AllDigits(s)
  {
    if s == [] then 0 else DigitsValue(s[..|s| - 1]) * 10 + DigitValue(s[|s| - 1])
  }

  function DigitChar(d: nat): (c: char)
    requires d < 10
    ensures IsDigit(c) && DigitValue(c) == d
  {
    ('0' as int + d) as char
  }

  /** The decimal numeral of `n`, as a template literal writes a number. */
  function Decimal(n: nat): (s: string)
    ensures |s| >= 1 && AllDigits(s) && DigitsValue(s) == n
    ensures n < 10 <==> |s| == 1
    ensures s[0] == '0' <==> n == 0
  {
    if n < 10 then [DigitChar(n)]
    else
      var front := Decimal(n / 10);
      var s := front + [DigitChar(n % 10)];
      assert s[..|s| - 1] == front;
      s
  }

  /** The label shown for a time: an hour after 12 is written on the 12-hour
      clock (without a leading zero) before the unchanged minutes; other labels
      are shown as they are. */
  function DisplayTime(t: Time): (d: string)
    ensures HourOf(t) <= 12 ==> d == t
    ensures HourOf(t) > 12 ==>
              && |d| >= 4 && d[|d| - 3] == ':' && d[|d| - 2..] == t[3..]
              && AllDigits(d[..|d| - 3]) && DigitsValue(d[..|d| - 3]) == HourOf(t) - 12
              && 1 <= HourOf(t) - 12 <= 11
              && d[0] != '0'
  {
    if HourOf(t) > 12 then
      var d := Decimal(HourOf(t) - 12) + ":" + t[3..];
      assert d[..|d| - 3] == Decimal(HourOf(t) - 12);
      d
    else t
  }

  /** The 12-hour display loses information outside the grid: 22:00 shows the
      same label as 10:00. */
  lemma DisplayCollidesOffGrid()
    ensures DisplayTime("22:00") == DisplayTime("10:00") == "10:00"
  {
    assert HourOf("22:00") == 22;
    assert Decimal(10) == Decimal(1) + [DigitChar(0)];
  }

  /** One time slot of one day as the customer screens see it
      (`AvailableTimeSlot`). */
  datatype AvailableTimeSlot = AvailableTimeSlot(date: Date, time: Time, available: bool)

  /** The whole grid for `date`, every slot marked available. */
  function OpenGrid(date: Date): (r: seq<AvailableTimeSlot>)
    ensures |r| == |Grid|
    ensures forall i | 0 <= i < |r| :: r[i].date == date && r[i].time == Grid[i] && r[i].available
  {
    seq(|Grid|, i requires 0 <= i < |Grid| => AvailableTimeSlot(date, Grid[i], true))
  }
}
