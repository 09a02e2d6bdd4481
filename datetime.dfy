/**
 * The calendar clock of src/datetime.rs: a `DateTime` record advanced one
 * second at a time by a nested carry (seconds, minutes, hours, day, month,
 * year), the Gregorian month lengths, and the unvalidated getters and setters.
 */
module Datetime {
  import opened Types

  /** A value of the `DateTime` record. */
  datatype Moment = Moment(day: u8, month: u8, year: u16, hours: u8, minutes: u8, seconds: u8)

  /** The value `CURRENT_TIME` starts with: 12:00:00 on 01.01.2023. */
  const Initial: Moment := Moment(1, 1, 2023, 12, 0, 0)

  /** The Gregorian leap-year rule. */
  predicate IsLeapYear(year: u16)
  {
    (year % 4 == 0 && year % 100 != 0) || year % 400 == 0
  }

  /** The length of `month`; a month number outside 1..12 is given 30 days. */
  function DaysInMonth(month: u8, year: u16): (days: u8)
    ensures 28 <= days <= 31
    ensures days == 31 <==> month in {1, 3, 5, 7, 8, 10, 12}
    ensures days == 30 <==> month in {4, 6, 9, 11} || month < 1 || month > 12
    ensures days == 29 <==> month == 2 && IsLeapYear(year)
    ensures days == 28 <==> month == 2 && !IsLeapYear(year)
  {
    match month
    case 1 => 31
    case 2 => if IsLeapYear(year) then 29 else 28
    case 3 => 31
    case 4 => 30
    case 5 => 31
    case 6 => 30
    case 7 => 31
    case 8 => 31
    case 9 => 30
    case 10 => 31
    case 11 => 30
    case 12 => 31
    case _ => 30
  }

  /** The range invariant of a clock that has only ever been advanced. */
  predicate Valid(m: Moment)
  {
    && m.hours < 24 && m.minutes < 60 && m.seconds < 60
    && 1 <= m.month <= 12
    && 1 <= m.day <= DaysInMonth(m.month, m.year)
  }

  /**
   * None of the `+= 1` steps `update` takes on `m` overflows its field's
   * type (in Rust such an overflow panics).
   */
  predicate NoOverflow(m: Moment)
  {
    && m.seconds < 0xFF
    && (m.seconds + 1 >= 60 ==>
      && m.minutes < 0xFF
      && (m.minutes + 1 >= 60 ==>
        && m.hours < 0xFF
        && (m.hours + 1 >= 24 ==>
          && m.day < 0xFF
          && (m.day + 1 > DaysInMonth(m.month, m.year) ==>
            && m.month < 0xFF
            && (m.month + 1 > 12 ==> m.year < 0xFFFF)))))
  }

  /** The value `update` leaves: one second later, with every carry propagated. */
  function Advance(m: Moment): Moment
    requires NoOverflow(m)
  {
    var seconds := m.seconds + 1;
    if seconds < 60 then m.(seconds := seconds)
    else
      var minutes := m.minutes + 1;
      if minutes < 60 then m.(seconds := 0, minutes := minutes)
      else
        var hours := m.hours + 1;
        if hours < 24 then m.(seconds := 0, minutes := 0, hours := hours)
        else
          var day := m.day + 1;
          if day <= DaysInMonth(m.month, m.year) then m.(seconds := 0, minutes := 0, hours := 0, day := day)
          else
            var month := m.month + 1;
            if month <= 12 then m.(seconds := 0, minutes := 0, hours := 0, day := 1, month := month)
            else Moment(1, 1, m.year + 1, 0, 0, 0)
  }

  /** The `CURRENT_TIME` record, updated in place. */
  class DateTime {
    var day: u8
    var month: u8
    var year: u16
    var hours: u8
    var minutes: u8
    var seconds: u8

    function Value(): Moment
      reads this
    {
      Moment(day, month, year, hours, minutes, seconds)
    }

    /** `CURRENT_TIME`'s initializer. */
    constructor ()
      ensures Value() == Initial
    {
      day, month, year := 1, 1, 2023;
      hours, minutes, seconds := 12, 0, 0;
    }

    /** `DateTime::update`. */
    method Update()
      requires NoOverflow(Value())
      modifies this
      ensures Value() == Advance(old(Value()))
    {
      seconds := seconds + 1;
      if seconds >= 60 {
        seconds := 0;
        minutes := minutes + 1;
        if minutes >= 60 {
          minutes := 0;
          hours := hours + 1;
          if hours >= 24 {
            hours := 0;
            day := day + 1;
            if day > DaysInMonth(month, year) {
              day := 1;
              month := month + 1;
              if month > 12 {
                month := 1;
                year := year + 1;
              }
            }
          }
        }
      }
    }

    /** `get_time`: the time fields, in the order hours, minutes, seconds. */
    method GetTime() returns (h: u8, m: u8, s: u8)
      ensures (h, m, s) == (Value().hours, Value().minutes, Value().seconds)
    {
      h, m, s := hours, minutes, seconds;
    }

    /** `get_date`: the date fields, in the order day, month, year. */
    method GetDate() returns (d: u8, m: u8, y: u16)
      ensures (d, m, y) == (Value().day, Value().month, Value().year)
    {
      d, m, y := day, month, year;
    }

    /** `set_time`: overwrites the three time fields, without any range check. */
    method SetTime(h: u8, m: u8, s: u8)
      modifies this
      ensures Value() == old(Value()).(hours := h, minutes := m, seconds := s)
    {
      hours := h;
      minutes := m;
      seconds := s;
    }

    /** `set_date`: overwrites the three date fields, without any range check. */
    method SetDate(d: u8, m: u8, y: u16)
      modifies this
      ensures Value() == old(Value()).(day := d, month := m, year := y)
    {
      day := d;
      month := m;
      year := y;
    }
  }

  // ---------------------------------------------------------------------------
  // An independent reference: the number of seconds since 00:00:00 on 01.01.0000
  // of the proleptic Gregorian calendar.

  function YearLength(year: u16): nat
  {
    if IsLeapYear(year) then 366 else 365
  }

  /** Days in the years 0 .. year-1. */
  function DaysBeforeYear(year: nat): nat
    requires year <= 0x1_0000
  {
    if year == 0 then 0 else DaysBeforeYear(year - 1) + YearLength(year - 1)
  }

  /** Days in the months 1 .. month-1 of `year`. */
  function DaysBeforeMonth(month: nat, year: u16): nat
    requires 1 <= month <= 13
  {
    if month == 1 then 0 else DaysBeforeMonth(month - 1, year) + DaysInMonth(month - 1, year)
  }

  /** The position of a valid moment on the time line, in seconds. */
  function Ordinal(m: Moment): nat
    requires Valid(m)
  {
    var days := DaysBeforeYear(m.year) + DaysBeforeMonth(m.month, m.year) + m.day - 1;
    ((days * 24 + m.hours) * 60 + m.minutes) * 60 + m.seconds
  }

  /** The twelve month lengths add up to the length of the year. */
  lemma {:induction false} MonthsFillYear(year: u16)
    ensures DaysBeforeMonth(13, year) == YearLength(year)
  {
    assert DaysBeforeMonth(2, year) == 31;
    assert DaysBeforeMonth(3, year) == 31 + DaysInMonth(2, year);
    assert DaysBeforeMonth(4, year) == DaysBeforeMonth(3, year) + 31;
    assert DaysBeforeMonth(5, year) == DaysBeforeMonth(4, year) + 30;
    assert DaysBeforeMonth(6, year) == DaysBeforeMonth(5, year) + 31;
    assert DaysBeforeMonth(7, year) == DaysBeforeMonth(6, year) + 30;
    assert DaysBeforeMonth(8, year) == DaysBeforeMonth(7, year) + 31;
    assert DaysBeforeMonth(9, year) == DaysBeforeMonth(8, year) + 31;
    assert DaysBeforeMonth(10, year) == DaysBeforeMonth(9, year) + 30;
    assert DaysBeforeMonth(11, year) == DaysBeforeMonth(10, year) + 31;
    assert DaysBeforeMonth(12, year) == DaysBeforeMonth(11, year) + 30;
  }

  /** From a valid clock, `update` cannot overflow unless the year is 65535. */
  lemma ValidNoOverflow(m: Moment)
    requires Valid(m) && m.year < 0xFFFF
    ensures NoOverflow(m)
  {
  }

  /**
   * From a valid clock whose year can still be incremented, `update` yields a
   * valid clock exactly one second later on the time line.
   */
  lemma {:induction false} AdvanceIsNextSecond(m: Moment)
    requires Valid(m) && m.year < 0xFFFF
    ensures NoOverflow(m) && Valid(Advance(m))
    ensures Ordinal(Advance(m)) == Ordinal(m) + 1
  {
    var n := Advance(m);
    if m.seconds + 1 >= 60 && m.minutes + 1 >= 60 && m.hours + 1 >= 24 && m.day + 1 > DaysInMonth(m.month, m.year) {
      // the day was the last of its month
      if m.month + 1 <= 12 {
        assert DaysBeforeMonth(n.month, n.year) == DaysBeforeMonth(m.month, m.year) + DaysInMonth(m.month, m.year);
      } else {
        MonthsFillYear(m.year);
        assert DaysBeforeYear(n.year) == DaysBeforeYear(m.year) + YearLength(m.year);
        assert DaysBeforeMonth(n.month, n.year) == 0;
      }
    }
  }

  /** A moment earlier in the year than another has a smaller day count. */
  lemma {:induction false} DaysBeforeMonthMonotone(a: nat, b: nat, year: u16)
    requires 1 <= a <= b <= 13
    ensures DaysBeforeMonth(a, year) + (if a < b then DaysInMonth(a, year) else 0) <= DaysBeforeMonth(b, year)
    decreases b - a
  {
    if a < b {
      DaysBeforeMonthMonotone(a + 1, b, year);
    }
  }

  lemma {:induction false} DaysBeforeYearMonotone(a: nat, b: nat)
    requires a <= b <= 0x1_0000
    ensures DaysBeforeYear(a) + (if a < b then YearLength(a) else 0) <= DaysBeforeYear(b)
    decreases b - a
  {
    if a < b {
      DaysBeforeYearMonotone(a + 1, b);
    }
  }

  /** The day of the time line a valid moment falls on, counted from 01.01.0000. */
  function DayNumber(m: Moment): nat
    requires Valid(m)
  {
    DaysBeforeYear(m.year) + DaysBeforeMonth(m.month, m.year) + m.day - 1
  }

  lemma {:induction false} DayNumberInjective(m1: Moment, m2: Moment)
    requires Valid(m1) && Valid(m2)
    requires DayNumber(m1) == DayNumber(m2)
    ensures (m1.day, m1.month, m1.year) == (m2.day, m2.month, m2.year)
  {
    // a valid moment lies inside its year ...
    DaysBeforeMonthMonotone(m1.month, 13, m1.year);
    DaysBeforeMonthMonotone(m2.month, 13, m2.year);
    MonthsFillYear(m1.year);
    MonthsFillYear(m2.year);
    if m1.year < m2.year {
      DaysBeforeYearMonotone(m1.year, m2.year);
      assert false;
    } else if m2.year < m1.year {
      DaysBeforeYearMonotone(m2.year, m1.year);
      assert false;
    }
    // ... and inside its month
    if m1.month < m2.month {
      DaysBeforeMonthMonotone(m1.month, m2.month, m1.year);
      assert false;
    } else if m2.month < m1.month {
      DaysBeforeMonthMonotone(m2.month, m1.month, m1.year);
      assert false;
    }
  }

  /** Distinct valid moments lie at distinct points of the time line. */
  lemma {:induction false} OrdinalInjective(m1: Moment, m2: Moment)
    requires Valid(m1) && Valid(m2)
    requires Ordinal(m1) == Ordinal(m2)
    ensures m1 == m2
  {
    var t1 := (m1.hours * 60 + m1.minutes) * 60 + m1.seconds;
    var t2 := (m2.hours * 60 + m2.minutes) * 60 + m2.seconds;
    assert Ordinal(m1) == DayNumber(m1) * 86400 + t1;
    assert Ordinal(m2) == DayNumber(m2) * 86400 + t2;
    assert DayNumber(m1) == DayNumber(m2);
    DayNumberInjective(m1, m2);
  }

  /**
   * So `update` on a valid clock is the successor on the time line: the one
   * valid moment one second later.
   */
  lemma AdvanceIsUniqueSuccessor(m: Moment, n: Moment)
    requires Valid(m) && m.year < 0xFFFF
    requires Valid(n) && Ordinal(n) == Ordinal(m) + 1
    ensures NoOverflow(m) && Advance(m) == n
  {
    AdvanceIsNextSecond(m);
    OrdinalInjective(Advance(m), n);
  }

  // ---------------------------------------------------------------------------
  // Single steps.

  /** Below a full minute, `update` only increments the seconds. */
  lemma AdvanceWithinMinute(m: Moment)
    requires m.seconds + 1 < 60
    ensures NoOverflow(m) && Advance(m) == m.(seconds := m.seconds + 1)
  {
  }

  /** 23:59:59 on 28.02.2024 (a leap year) is followed by 00:00:00 on 29.02.2024. */
  lemma EndOfFebruary2024()
    ensures NoOverflow(Moment(28, 2, 2024, 23, 59, 59))
    ensures Advance(Moment(28, 2, 2024, 23, 59, 59)) == Moment(29, 2, 2024, 0, 0, 0)
  {
  }

  /** The last second of a year is followed by the first second of the next. */
  lemma EndOfYear(year: u16)
    requires year < 0xFFFF
    ensures NoOverflow(Moment(31, 12, year, 23, 59, 59))
    ensures Advance(Moment(31, 12, year, 23, 59, 59)) == Moment(1, 1, year + 1, 0, 0, 0)
  {
  }

  /** The initial clock satisfies the range invariant. */
  lemma InitialValid()
    ensures Valid(Initial) && Initial.year < 0xFFFF
  {
  }
}
