/**
 Clock-time groups: get_rdsp_ct_group (src/rds_groups.c).  The calendar formula is that of EN 50067 annex G,
 whose inverse is what receivers apply.  Both products are exact enough in the source's floats for their
 integer parts to be those of the real numbers used here.
 */
module ClockTime {
  /** tm_year, counted from 1900; tm_mon, 0 for January; tm_mday. */
  datatype Date = Date(year: nat, mon: nat, mday: nat)

  // ----- the calendar

  /** The leap rule the formula implies. */
  predicate FourthYear(year: nat) {
    year % 4 == 0
  }

  predicate GregorianLeap(year: nat) {
    (1900 + year) % 4 == 0 && ((1900 + year) % 100 != 0 || (1900 + year) % 400 == 0)
  }

  function DaysIn(mon: nat, leap: bool): (n: nat)
    ensures 28 <= n <= 31
  {
    if mon == 1 then (if leap then 29 else 28)
    else if mon == 3 || mon == 5 || mon == 8 || mon == 10 then 30
    else 31
  }

  /** A date from 1 March 1900 on, under the given leap year. */
  predicate Valid(d: Date, leap: bool) {
    d.mon < 12 && 1 <= d.mday <= DaysIn(d.mon, leap) && (d.year > 0 || d.mon >= 2)
  }

  function NextDay(d: Date, leap: bool): Date {
    if d.mday < DaysIn(d.mon, leap) then d.(mday := d.mday + 1)
    else if d.mon < 11 then Date(d.year, d.mon + 1, 1)
    else Date(d.year + 1, 0, 1)
  }

  /** The date n days after 1 March 1900, every fourth year being a leap year. */
  function DayAt(n: nat): (d: Date)
    ensures Valid(d, FourthYear(d.year))
  {
    if n == 0 then Date(0, 2, 1) else NextDay(DayAt(n - 1), FourthYear(DayAt(n - 1).year))
  }

  // ----- the formula

  function YearProduct(y: int): int {
    (y as real * 365.25).Floor
  }

  function MonthProduct(m: int): int {
    (m as real * 30.6001).Floor
  }

  /** The modified Julian day the group builder computes. */
  function Mjd(d: Date): int
    requires d.mon < 12
  {
    var l := if d.mon <= 1 then 1 else 0;
    14956 + d.mday + YearProduct(d.year - l) + MonthProduct(d.mon + (1 + 1) + l * 12)
  }

  function YearDays(y: int): int {
    1461 * y / 4
  }

  function MonthDays(m: int): int {
    306001 * m / 10000
  }

  lemma FloorsAreDivisions(y: int, m: int)
    ensures YearProduct(y) == YearDays(y) && MonthProduct(m) == MonthDays(m)
  {
  }

  /** March is month 4 of its year and February month 15, so the days before a month follow a fixed pattern. */
  lemma MjdAsDivisions(d: Date)
    requires d.mon < 12
    ensures Mjd(d) == 14956 + d.mday + if d.mon <= 1 then YearDays(d.year - 1) + MonthDays(d.mon + 14)
                                       else YearDays(d.year) + MonthDays(d.mon + 2)
  {
    var l := if d.mon <= 1 then 1 else 0;
    FloorsAreDivisions(d.year - l, d.mon + 2 + l * 12);
  }

  /** The month number the formula uses, and its year. */
  function FormulaMonth(mon: nat): nat {
    if mon <= 1 then mon + 14 else mon + 2
  }

  lemma MonthSteps(mon: nat, leap: bool)
    requires mon < 12
    ensures mon != 1 && mon != 11 ==>
      MonthDays(FormulaMonth(mon) + 1) == MonthDays(FormulaMonth(mon)) + DaysIn(mon, leap)
    ensures mon == 11 ==> MonthDays(FormulaMonth(0)) == MonthDays(FormulaMonth(11)) + 31
    ensures MonthDays(FormulaMonth(1)) == 459 && MonthDays(FormulaMonth(2)) == 122
  {
    if mon < 6 {
      if mon == 0 {} else if mon == 1 {} else if mon == 2 {} else if mon == 3 {} else if mon == 4 {} else {}
    } else {
      if mon == 6 {} else if mon == 7 {} else if mon == 8 {} else if mon == 9 {} else if mon == 10 {} else {}
    }
  }

  lemma YearSteps(year: nat)
    requires year > 0
    ensures YearDays(year) == YearDays(year - 1) + if FourthYear(year) then 366 else 365
  {
  }

  /** The formula steps by one, but by what the leap rules differ in at the end of February. */
  lemma Step(d: Date, leap: bool)
    requires Valid(d, leap)
    ensures Mjd(NextDay(d, leap)) == Mjd(d) + 1
      + if d.mon == 1 && d.mday == DaysIn(1, leap)
        then (if FourthYear(d.year) then 1 else 0) - (if leap then 1 else 0) else 0
  {
    MjdAsDivisions(d);
    MjdAsDivisions(NextDay(d, leap));
    MonthSteps(d.mon, leap);
    if d.mon == 1 {
      YearSteps(d.year);
    }
  }

  /** From each day to the next the formula counts one, with a leap day every fourth year. */
  lemma NextDayAddsOne(d: Date)
    requires Valid(d, FourthYear(d.year))
    ensures Mjd(NextDay(d, FourthYear(d.year))) == Mjd(d) + 1
  {
    Step(d, FourthYear(d.year));
  }

  /** The formula is the day count: 1 March 1900 is day 15079. */
  lemma {:induction false} MjdCountsDays(n: nat)
    ensures Mjd(DayAt(n)) == 15079 + n
  {
    if n == 0 {
      MjdAsDivisions(Date(0, 2, 1));
    } else {
      MjdCountsDays(n - 1);
      NextDayAddsOne(DayAt(n - 1));
    }
  }

  /**
   In the real calendar the formula steps by one exactly except from 28 February to 1 March of the century
   years that are not leap years: it is the true day number until 28 February 2100.
   */
  lemma GregorianStep(d: Date)
    requires Valid(d, GregorianLeap(d.year))
    ensures Mjd(NextDay(d, GregorianLeap(d.year))) == Mjd(d) + 1
      <==> !(d.mon == 1 && d.mday == 28 && FourthYear(d.year) && !GregorianLeap(d.year))
    ensures d.year < 200 ==> GregorianLeap(d.year) == (FourthYear(d.year) && d.year != 0)
  {
    Step(d, GregorianLeap(d.year));
  }

  /** The receiver's inverse (annex G). */
  function DateOf(mjd: int): (int, int, int) {
    var y := YearOf(mjd);
    var m := MonthOf(mjd, YearProduct(y));
    var k := if m == 14 || m == 15 then 1 else 0;
    (y + k, m - 1 - k * 12, mjd - 14956 - YearProduct(y) - MonthProduct(m))
  }

  function YearOf(mjd: int): int {
    ((mjd as real - 15078.2) / 365.25).Floor
  }

  function MonthOf(mjd: int, yearProduct: int): int {
    ((mjd as real - 14956.1 - yearProduct as real) / 30.6001).Floor
  }

  lemma InverseFloors(mjd: int, yearProduct: int)
    ensures YearOf(mjd) == (100 * mjd - 1507820) / 36525
    ensures MonthOf(mjd, yearProduct) == (10000 * (mjd - yearProduct) - 149561000) / 306001
  {
  }

  lemma YearRecovered(y: int, w: int)
    requires 123 <= w <= 487 || (w == 488 && y % 4 == 3)
    ensures (100 * (14956 + w + YearDays(y)) - 1507820) / 36525 == y
  {
  }

  lemma MonthRecovered(m: nat, mday: nat)
    requires 4 <= m <= 15 && 1 <= mday <= if m == 15 then 29 else DaysIn(if m == 14 then 0 else m - 2, false)
    ensures (10000 * (14956 + mday + MonthDays(m)) - 149561000) / 306001 == m
    ensures 122 <= MonthDays(m) <= 459 && mday + MonthDays(m) <= if m == 15 then 459 + mday else 459
  {
    if m < 10 {
      if m == 4 {} else if m == 5 {} else if m == 6 {} else if m == 7 {} else if m == 8 {} else {}
    } else {
      if m == 10 {} else if m == 11 {} else if m == 12 {} else if m == 13 {} else if m == 14 {} else {}
    }
  }

  /** Applied to the day number sent, the receiver's formula gives back year, month and day. */
  lemma DateRoundTrip(d: Date)
    requires Valid(d, FourthYear(d.year))
    ensures DateOf(Mjd(d)) == (d.year, d.mon + 1, d.mday)
  {
    MjdAsDivisions(d);
    var y, m := if d.mon <= 1 then d.year - 1 else d.year, FormulaMonth(d.mon);
    MonthRecovered(m, d.mday);
    YearRecovered(y, d.mday + MonthDays(m));
    FloorsAreDivisions(y, m);
    assert Mjd(d) == 14956 + d.mday + YearDays(y) + MonthDays(m);
    InverseFloors(Mjd(d), YearDays(y));
    assert YearOf(Mjd(d)) == y;
    assert MonthOf(Mjd(d), YearProduct(y)) == m;
  }

  // ----- the words of the group

  /** Blocks B, C and D as the group builder leaves them; mjd is its uint32_t, offset counts half hours. */
  function TimeWords(b: bv16, mjd: bv32, hour: bv16, minute: bv16, negative: bool, offset: bv16): (bv16, bv16, bv16) {
    (b | (4 << 12) | ((mjd >> 15) & 0xFFFF) as bv16,
     ((mjd << 1) & 0xFFFF) as bv16 | (hour >> 4),
     ((hour & 0xF) << 12) | (minute << 6) | (if negative then 1 << 5 else 0) | offset)
  }

  /** What a receiver reads: day, hour, minute, sign and magnitude of the offset. */
  function ReadTime(b: bv16, c: bv16, d: bv16): (bv32, bv16, bv16, bool, bv16) {
    ((((b & 3) as bv32) << 15) | ((c as bv32) >> 1),
     ((c & 1) << 4) | (d >> 12),
     (d >> 6) & 0x3F,
     d & 0x20 != 0,
     d & 0x1F)
  }

  /** Every day number below 2^17 and every time of day survive, with TP and PTY added to block B. */
  lemma TimeRoundTrip(mjd: bv32, hour: bv16, minute: bv16, negative: bool, offset: bv16, flags: bv16)
    requires mjd & 0xFFFE0000 == 0 && hour & 0xFFE0 == 0 && minute & 0xFFC0 == 0 && offset & 0xFFE0 == 0
    requires flags & 0xF81F == 0
    ensures var (b, c, d) := TimeWords(0, mjd, hour, minute, negative, offset);
      ReadTime(b | flags, c, d) == (mjd, hour, minute, negative, offset)
  {
  }

  /** The local offset in half hours: C division drops the fraction, whatever the sign. */
  function HalfHours(gmtoff: int): int {
    if gmtoff >= 0 then gmtoff / 1800 else -(-gmtoff / 1800)
  }

  /** The offset as it is shown: a sign and half hours. */
  function Signed(negative: bool, offset: bv16): int {
    if negative then -(offset as int) else offset as int
  }

  /**
   From a date and a local offset in seconds to what a receiver shows, with TP and PTY added to block B: mjd holds the
   formula's value and offset and sign those of the half hours.
   */
  lemma ClockReceived(date: Date, mjd: bv32, hour: bv16, minute: bv16, gmtoff: int, negative: bool, offset: bv16,
        flags: bv16)
    requires Valid(date, FourthYear(date.year)) && mjd as int == Mjd(date)
      && Signed(negative, offset) == HalfHours(gmtoff)
    requires mjd & 0xFFFE0000 == 0 && hour & 0xFFE0 == 0 && minute & 0xFFC0 == 0 && offset & 0xFFE0 == 0
    requires flags & 0xF81F == 0
    ensures var (b, c, d) := TimeWords(0, mjd, hour, minute, negative, offset);
      var r := ReadTime(b | flags, c, d);
      DateOf(r.0 as int) == (date.year, date.mon + 1, date.mday) && r.1 == hour && r.2 == minute
      && Signed(r.3, r.4) == HalfHours(gmtoff)
  {
    TimeRoundTrip(mjd, hour, minute, negative, offset, flags);
    DateRoundTrip(date);
  }
}
