/** Month keys of the blog archive (`getMon`) and the month-by-month walk of `fetchSince`.
    A month is a pair (year, month) with the month counted from 0, as dayjs's `month()` does. */
module Months {
  import opened Text

  /** `getMon`: the year, then the month zero-padded to two digits. The caller passes
      dayjs's 0-based month, so January 2018 is "201800" and no key ends in "12". */
  function GetMon(year: int, month: int): string
  {
    IntToString(year) + PadStart(IntToString(month), 2, '0')
  }

  /** For a month below 100 the key is the year followed by exactly two digits. */
  lemma GetMonShape(year: int, month: int)
    requires 0 <= month < 100
    ensures GetMon(year, month) == IntToString(year) + TwoDigits(month)
  {
    if month >= 10 {
      assert NatToString(month) == NatToString(month / 10) + [DigitChar(month % 10)];
    }
  }

  /** Different months below 100 give different keys, whatever the years. */
  lemma GetMonInjective(y1: int, m1: int, y2: int, m2: int)
    requires 0 <= m1 < 100 && 0 <= m2 < 100
    requires GetMon(y1, m1) == GetMon(y2, m2)
    ensures y1 == y2 && m1 == m2
  {
    GetMonShape(y1, m1);
    GetMonShape(y2, m2);
    var d1, d2 := TwoDigits(m1), TwoDigits(m2);
    SplitBeforeLastTwo(IntToString(y1), d1, IntToString(y2), d2);
    IntToStringInjective(y1, y2);
    TwoDigitsInjective(m1, m2);
  }

  /** The two digits of a number below 100, the tens first. */
  function TwoDigits(m: nat): (r: string)
    requires m < 100
    ensures |r| == 2
  {
    [DigitChar(m / 10), DigitChar(m % 10)]
  }

  lemma TwoDigitsInjective(m1: nat, m2: nat)
    requires m1 < 100 && m2 < 100 && TwoDigits(m1) == TwoDigits(m2)
    ensures m1 == m2
  {
    assert TwoDigits(m1)[0] == TwoDigits(m2)[0] && TwoDigits(m1)[1] == TwoDigits(m2)[1];
    assert m1 / 10 == m2 / 10 && m1 % 10 == m2 % 10;
  }

  lemma SplitBeforeLastTwo(a: string, x: string, b: string, y: string)
    requires |x| == 2 && |y| == 2 && a + x == b + y
    ensures a == b && x == y
  {
    assert |a| == |b|;
    assert a == (a + x)[..|a|] && b == (b + y)[..|b|];
    assert x == (a + x)[|a|..] && y == (b + y)[|b|..];
  }

  /** The first month `fetchSince(2018, 0)` asks for is keyed "201800". */
  lemma January2018Key()
    ensures GetMon(2018, 0) == "201800"
  {
    assert NatToString(2018) == "2018" by {
      assert NatToString(2) == "2";
      assert NatToString(20) == NatToString(2) + "0";
      assert NatToString(201) == NatToString(20) + "1";
    }
  }

  /** Position of a month on the calendar, counted in months. */
  function Index(year: int, month: int): int
  {
    12 * year + month
  }

  /** One calendar month later: month 11 wraps to month 0 of the next year (`day.add(1, 'month')`). */
  function Next(year: int, month: int): (r: (int, int))
    requires 0 <= month < 12
    ensures 0 <= r.1 < 12 && Index(r.0, r.1) == Index(year, month) + 1
  {
    if month == 11 then (year + 1, 0) else (year, month + 1)
  }

  /** The month (year, month) does not lie after the month (endYear, endMonth): the loop test
      `!day.isAfter(dayjs())`, where both days share the day of the month and the time of day. */
  predicate NotAfter(year: int, month: int, endYear: int, endMonth: int)
  {
    year < endYear || (year == endYear && month <= endMonth)
  }

  /** The months `fetchSince` visits from (year, month) up to and including (endYear, endMonth). */
  function MonthRange(year: int, month: int, endYear: int, endMonth: int): seq<(int, int)>
    requires 0 <= month < 12
    decreases endYear - year, 11 - month
  {
    if NotAfter(year, month, endYear, endMonth) then
      var next := Next(year, month);
      [(year, month)] + MonthRange(next.0, next.1, endYear, endMonth)
    else
      []
  }

  /** The walk starts at the first month, steps one calendar month at a time, and every
      month it visits is a real month (0..11) not after the end. */
  lemma {:induction false} MonthRangeSteps(year: int, month: int, endYear: int, endMonth: int)
    requires 0 <= month < 12
    ensures var r := MonthRange(year, month, endYear, endMonth);
      && (r != [] ==> r[0] == (year, month))
      && (forall i :: 0 <= i < |r| ==> 0 <= r[i].1 < 12 && Index(r[i].0, r[i].1) == Index(year, month) + i)
      && (forall i :: 0 <= i < |r| ==> NotAfter(r[i].0, r[i].1, endYear, endMonth))
      && (forall i :: 0 <= i < |r| - 1 ==> r[i + 1] == Next(r[i].0, r[i].1))
    decreases endYear - year, 11 - month
  {
    if NotAfter(year, month, endYear, endMonth) {
      var next := Next(year, month);
      MonthRangeSteps(next.0, next.1, endYear, endMonth);
      var rest := MonthRange(next.0, next.1, endYear, endMonth);
      var r := MonthRange(year, month, endYear, endMonth);
      assert r == [(year, month)] + rest;
      forall i | 0 < i < |r|
        ensures 0 <= r[i].1 < 12 && Index(r[i].0, r[i].1) == Index(year, month) + i
        ensures NotAfter(r[i].0, r[i].1, endYear, endMonth)
      {
        assert r[i] == rest[i - 1];
      }
      forall i | 0 <= i < |r| - 1
        ensures r[i + 1] == Next(r[i].0, r[i].1)
      {
        if i > 0 {
          assert r[i] == rest[i - 1] && r[i + 1] == rest[i];
        }
      }
    }
  }

  /** When the start is not after the end, the walk has one entry per month of the interval
      and stops exactly at the end month; otherwise it visits nothing. */
  lemma {:induction false} MonthRangeEnd(year: int, month: int, endYear: int, endMonth: int)
    requires 0 <= month < 12 && 0 <= endMonth < 12
    ensures var r := MonthRange(year, month, endYear, endMonth);
      if NotAfter(year, month, endYear, endMonth) then
        |r| == Index(endYear, endMonth) - Index(year, month) + 1 && r[|r| - 1] == (endYear, endMonth)
      else
        r == []
    decreases endYear - year, 11 - month
  {
    if NotAfter(year, month, endYear, endMonth) {
      var next := Next(year, month);
      MonthRangeEnd(next.0, next.1, endYear, endMonth);
      if !NotAfter(next.0, next.1, endYear, endMonth) {
        assert year == endYear && month == endMonth;
      }
    }
  }

  /** No month key is probed twice in one walk. */
  lemma MonthRangeKeysDistinct(year: int, month: int, endYear: int, endMonth: int)
    requires 0 <= month < 12
    ensures var r := MonthRange(year, month, endYear, endMonth);
      forall i, j :: 0 <= i < j < |r| ==> GetMon(r[i].0, r[i].1) != GetMon(r[j].0, r[j].1)
  {
    var r := MonthRange(year, month, endYear, endMonth);
    MonthRangeSteps(year, month, endYear, endMonth);
    forall i, j | 0 <= i < j < |r|
      ensures GetMon(r[i].0, r[i].1) != GetMon(r[j].0, r[j].1)
    {
      if GetMon(r[i].0, r[i].1) == GetMon(r[j].0, r[j].1) {
        GetMonInjective(r[i].0, r[i].1, r[j].0, r[j].1);
        assert false;
      }
    }
  }

  /** The archive's December page, keyed year followed by "12", is never asked for:
      the keys of a walk end in "00" to "11". */
  lemma DecemberNeverProbed(year: int, month: int, endYear: int, endMonth: int)
    requires 0 <= month < 12
    ensures var r := MonthRange(year, month, endYear, endMonth);
      forall i :: 0 <= i < |r| ==> GetMon(r[i].0, r[i].1) != IntToString(r[i].0) + "12"
  {
    var r := MonthRange(year, month, endYear, endMonth);
    MonthRangeSteps(year, month, endYear, endMonth);
    forall i | 0 <= i < |r|
      ensures GetMon(r[i].0, r[i].1) != IntToString(r[i].0) + "12"
    {
      KeyOfRealMonth(r[i].0, r[i].1);
    }
  }

  lemma KeyOfRealMonth(year: int, month: int)
    requires 0 <= month < 12
    ensures GetMon(year, month) != IntToString(year) + "12"
  {
    GetMonShape(year, month);
    var k := GetMon(year, month);
    assert k[|k| - 2] == DigitChar(month / 10);
    assert k[|k| - 1] == DigitChar(month % 10);
  }
}
