/**
  The proleptic Gregorian calendar of naive dates: days are counted from 0001-01-01, a Monday,
  and months from January of year 1.
 */
module Calendar {
  import opened Arithmetic

  predicate IsLeap(year: nat) {
    year % 4 == 0 && (year % 100 != 0 || year % 400 == 0)
  }

  function LengthOf(month: nat): (days: nat)
    ensures 28 <= days <= 31
  {
    var m := month % 12;
    if m == 1 then (if IsLeap(month / 12 + 1) then 29 else 28)
    else if m == 3 || m == 5 || m == 8 || m == 10 then 30
    else 31
  }

  /** The first day of a month: months follow each other without gap or overlap. */
  function FirstOf(month: nat): nat {
    if month == 0 then 0 else FirstOf(month - 1) + LengthOf(month - 1)
  }

  /** The month a day lies in. */
  function MonthOf(day: nat): (month: nat)
    ensures FirstOf(month) <= day < FirstOf(month + 1)
  {
    MonthFrom(day, 0)
  }

  function MonthFrom(day: nat, month: nat): (r: nat)
    requires FirstOf(month) <= day
    ensures FirstOf(r) <= day < FirstOf(r + 1)
    decreases day - FirstOf(month)
  {
    if day < FirstOf(month + 1) then month else MonthFrom(day, month + 1)
  }

  lemma {:induction false} FirstsIncrease(a: nat, b: nat)
    requires a < b
    ensures FirstOf(a) + 28 <= FirstOf(b)
    decreases b
  {
    if b - 1 <= a {
    } else {
      FirstsIncrease(a, b - 1);
    }
  }

  /** No day lies in two months. */
  lemma MonthUnique(day: nat, month: nat)
    requires FirstOf(month) <= day < FirstOf(month + 1)
    ensures MonthOf(day) == month
  {
    var other := MonthOf(day);
    if other + 1 < month { FirstsIncrease(other + 1, month); }
    if month + 1 < other { FirstsIncrease(month + 1, other); }
  }

  lemma Next(month: nat)
    ensures FirstOf(month + 1) == FirstOf(month) + LengthOf(month)
  {
  }

  lemma QuarterLength(month: nat)
    ensures FirstOf(month + 3) == FirstOf(month) + LengthOf(month) + LengthOf(month + 1) + LengthOf(month + 2)
  {
    hide FirstOf, LengthOf;
    Next(month);
    Next(month + 1);
    Next(month + 2);
  }

  lemma YearLength(years: nat)
    ensures FirstOf(12 * years + 12) == FirstOf(12 * years) + if IsLeap(years + 1) then 366 else 365
  {
    hide FirstOf, LengthOf, IsLeap;
    var m := 12 * years;
    QuarterLength(m);
    QuarterLength(m + 3);
    QuarterLength(m + 6);
    QuarterLength(m + 9);
    Lengths(years);
  }

  lemma Lengths(years: nat)
    ensures var m := 12 * years;
            && LengthOf(m) == 31 && LengthOf(m + 1) == (if IsLeap(years + 1) then 29 else 28)
            && LengthOf(m + 2) == 31 && LengthOf(m + 3) == 30 && LengthOf(m + 4) == 31 && LengthOf(m + 5) == 30
            && LengthOf(m + 6) == 31 && LengthOf(m + 7) == 31 && LengthOf(m + 8) == 30 && LengthOf(m + 9) == 31
            && LengthOf(m + 10) == 30 && LengthOf(m + 11) == 31
  {
    hide IsLeap;
    assert (12 * years + 1) / 12 == years;
  }

  /** Leap days in whole years since year 1. */
  function Leaps(years: nat): int {
    years / 4 - years / 100 + years / 400
  }

  /** The Gregorian day count of whole years. */
  lemma {:induction false} DaysBeforeYear(years: nat)
    ensures FirstOf(12 * years) == 365 * years + Leaps(years)
  {
    if years == 0 {
    } else {
      hide FirstOf, IsLeap, Leaps;
      var y := years - 1;
      assert years == y + 1 && 12 * years == 12 * y + 12;
      DaysBeforeYear(y);
      YearLength(y);
      LeapDays(y);
    }
  }

  lemma LeapDays(years: nat)
    ensures Leaps(years + 1) == Leaps(years) + if IsLeap(years + 1) then 1 else 0
  {
    Carry(years, 4);
    Carry(years, 100);
    Carry(years, 400);
    CenturyRule(years + 1);
  }

  lemma CenturyRule(year: nat)
    ensures year % 100 == 0 ==> year % 4 == 0
    ensures year % 400 == 0 ==> year % 100 == 0
  {
    Multiples(year, 25, 4);
    Multiples(year, 4, 100);
  }

  lemma Multiples(x: nat, a: nat, b: nat)
    requires a > 0 && b > 0
    ensures a * b > 0 && (x % (a * b) == 0 ==> x % b == 0)
  {
    assert a * b > 0;
    if x % (a * b) == 0 {
      var q := x / (a * b);
      assert x == q * (a * b) == (q * a) * b;
      Quotient(x, q * a, 0, b);
    }
  }
}
