/**
  The quota month: `utc_year_month` of edge/src/meter.rs against the Gregorian calendar.
  */
module Calendar {
  import opened Prelude

  // ----- The Gregorian calendar -----

  predicate IsLeap(y: nat) { y % 4 == 0 && (y % 100 != 0 || y % 400 == 0) }

  function YearLength(y: nat): nat { if IsLeap(y) then 366 else 365 }

  function MonthLength(y: nat, m: nat): nat
    requires 1 <= m <= 12
  {
    if m == 2 then (if IsLeap(y) then 29 else 28)
    else if m == 4 || m == 6 || m == 9 || m == 11 then 30
    else 31
  }

  /** Days from 1 January 1970 to 1 January of year `y`. */
  function DaysToYear(y: nat): nat
    requires y >= 1970
    decreases y
  {
    if y == 1970 then 0 else DaysToYear(y - 1) + YearLength(y - 1)
  }

  /** Days from 1 January to the first of month `m`. */
  function DaysToMonth(y: nat, m: nat): nat
    requires 1 <= m <= 12
    decreases m
  {
    if m == 1 then 0 else DaysToMonth(y, m - 1) + MonthLength(y, m - 1)
  }

  /** Day `day` after 1 January 1970 lies in month `m` of year `y`. */
  predicate InMonth(day: nat, y: nat, m: nat) {
    && y >= 1970 && 1 <= m <= 12
    && 0 <= day - DaysToYear(y) - DaysToMonth(y, m) < MonthLength(y, m)
  }

  // ----- The code -----

  const SECONDS_PER_DAY := 86_400

  /** Days since 1 March of year 0, as the code counts them. */
  function ShiftedDay(unixSecs: U64): nat { unixSecs as int / SECONDS_PER_DAY + 719_468 }

  function YearOfEra(doe: nat): int { (doe - doe / 1460 + doe / 36524 - doe / 146096) / 365 }

  /** The full year and the month; the code then keeps the low 16 bits of the year. */
  function CivilMonth(z: nat): (r: (int, int)) {
    var era := z / 146_097;
    var doe := z - era * 146_097;
    var yoe := YearOfEra(doe);
    var y := yoe + era * 400;
    var doy := doe - (365 * yoe + yoe / 4 - yoe / 100);
    MonthFromMarch(y, doy)
  }

  /** Day `doy` of the year that begins on 1 March of year `y`. */
  function MonthFromMarch(y: int, doy: int): (int, int) {
    var mp := (5 * doy + 2) / 153;
    var month := if mp < 10 then mp + 3 else mp - 9;
    (if month <= 2 then y + 1 else y, month)
  }

  function UtcYearMonth(unixSecs: U64): (int, int) {
    var (y, m) := CivilMonth(ShiftedDay(unixSecs));
    (y % 0x1_0000, m % 0x100)
  }

  // ----- Years that begin on 1 March -----

  /** Days from 1 March of an era's year 0 to 1 March of its year `yoe`. */
  function EraDays(yoe: int): int { 365 * yoe + yoe / 4 - yoe / 100 }

  /** A day of an era as a century, a run of four years, a year and a day. */
  predicate EraParts(doe: int, c: int, q: int, k: int, d: int) {
    && 0 <= c <= 3 && 0 <= q <= 24 && 0 <= k <= 3 && 0 <= d <= 365
    && (d == 365 ==> k == 3 && (q < 24 || c == 3))
    && doe == 36524 * c + 1461 * q + 365 * k + d
  }

  lemma SplitEra(doe: nat) returns (c: int, q: int, k: int, d: int)
    requires doe < 146_097
    ensures EraParts(doe, c, q, k, d)
  {
    c := if doe / 36524 < 4 then doe / 36524 else 3;
    var r := doe - 36524 * c;
    assert 0 <= r <= 36524 && (c < 3 ==> r <= 36523);
    q := r / 1461;
    var s := r - 1461 * q;
    k := if s / 365 < 4 then s / 365 else 3;
    d := s - 365 * k;
  }

  lemma YearOfParts(doe: nat, c: int, q: int, k: int, d: int)
    requires EraParts(doe, c, q, k, d)
    ensures YearOfEra(doe) == 100 * c + 4 * q + k
  {
    assert doe / 36524 - doe / 146096 == c by {
      var r := 1461 * q + 365 * k + d;
      assert r <= 36524 && (r == 36524 ==> c == 3);
    }
    var rem := 24 * c + q + 365 * k + d;
    var e := if rem >= 1460 then 1 else 0;
    assert doe == 1460 * (25 * c + q + e) + (rem - 1460 * e) && 0 <= rem - 1460 * e < 1460;
    assert doe / 1460 == 25 * c + q + e;
    assert 0 <= d - e <= 364;
    assert doe - doe / 1460 + c == 365 * (100 * c + 4 * q + k) + (d - e);
  }

  lemma EraDaysOfParts(c: int, q: int, k: int)
    requires 0 <= c <= 3 && 0 <= q <= 24 && 0 <= k <= 3
    ensures EraDays(100 * c + 4 * q + k) == 36524 * c + 1461 * q + 365 * k
  {
    var y := 100 * c + 4 * q + k;
    assert y / 4 == 25 * c + q;
    assert y / 100 == c;
  }

  /** Days from 1 March of year 0 to 1 March of year `y`. */
  function MarchDay(y: nat): int { 365 * y + y / 4 - y / 100 + y / 400 }

  lemma YearBetweenMarches(y: nat)
    ensures MarchDay(y + 1) == MarchDay(y) + YearLength(y + 1)
  {
    NextQuotient(y, 4);
    NextQuotient(y, 100);
    NextQuotient(y, 400);
    LeapYearsDivide(y + 1);
  }

  lemma NextQuotient(y: nat, d: nat)
    requires d == 4 || d == 100 || d == 400
    ensures (y + 1) / d - y / d == if (y + 1) % d == 0 then 1 else 0
  {
  }

  lemma LeapYearsDivide(n: nat)
    ensures n % 100 == 0 ==> n % 4 == 0
    ensures n % 400 == 0 ==> n % 100 == 0
  {
    if n % 100 == 0 { assert n == 4 * (25 * (n / 100)); }
    if n % 400 == 0 { assert n == 100 * (4 * (n / 400)); }
  }

  lemma MarchDayOfEra(era: nat, yoe: nat)
    requires yoe < 400
    ensures MarchDay(400 * era + yoe) == 146_097 * era + EraDays(yoe)
  {
    var y := 400 * era + yoe;
    assert y / 4 == 100 * era + yoe / 4;
    assert y / 100 == 4 * era + yoe / 100;
    assert y / 400 == era;
  }

  /** The year that `CivilMonth` finds is the March-to-February year that holds the day. */
  lemma MarchYear(z: nat) returns (y: nat)
    ensures MarchDay(y) <= z < MarchDay(y + 1)
    ensures var era := z / 146_097;
            var doe := z - era * 146_097;
            && YearOfEra(doe) + era * 400 == y
            && doe - EraDays(YearOfEra(doe)) == z - MarchDay(y)
  {
    var era := z / 146_097;
    var doe := z - era * 146_097;
    var c, q, k, d := SplitEra(doe);
    YearOfParts(doe, c, q, k, d);
    EraDaysOfParts(c, q, k);
    var yoe := 100 * c + 4 * q + k;
    y := 400 * era + yoe;
    MarchDayOfEra(era, yoe);
    YearBetweenMarches(y);
    assert d == 365 ==> IsLeap(y + 1) by {
      if d == 365 { LeapAfterParts(era, c, q); }
    }
  }

  lemma LeapAfterParts(era: nat, c: int, q: int)
    requires 0 <= c <= 3 && 0 <= q <= 24 && (q < 24 || c == 3)
    ensures IsLeap(400 * era + 100 * c + 4 * q + 4)
  {
    var y := 400 * era + 100 * c + 4 * q + 4;
    assert y % 4 == 0;
    if q == 24 {
      assert y == 400 * (era + 1);
    } else {
      assert y % 100 == 4 * q + 4;
    }
  }

  // ----- Months -----

  /** 1 January of year `y` on the code's scale. */
  lemma {:induction false} JanuaryDay(y: nat)
    requires y >= 1970
    ensures DaysToYear(y) + 719_468 == MarchDay(y - 1) + 306
    decreases y
  {
    if y == 1970 {
    } else {
      JanuaryDay(y - 1);
      YearBetweenMarches(y - 2);
    }
  }

  lemma MonthTable(y: nat, m: nat)
    requires 1 <= m <= 12
    ensures DaysToMonth(y, m)
         == if m == 1 then 0 else if m == 2 then 31
            else (if IsLeap(y) then 1 else 0) + [59, 90, 120, 151, 181, 212, 243, 273, 304, 334][m - 3]
    ensures DaysToMonth(y, 12) + 31 == YearLength(y)
  {
    assert DaysToMonth(y, 2) == 31;
    assert DaysToMonth(y, 4) == DaysToMonth(y, 3) + 31;
    assert DaysToMonth(y, 6) == DaysToMonth(y, 4) + 61;
    assert DaysToMonth(y, 8) == DaysToMonth(y, 6) + 61;
    assert DaysToMonth(y, 10) == DaysToMonth(y, 8) + 61;
    assert DaysToMonth(y, 12) == DaysToMonth(y, 10) + 61;
  }

  /** From March on, month `mp` of a March year begins on day `(153 * mp + 2) / 5`. */
  lemma MonthOfDay(doy: nat, y: nat)
    requires doy <= 365
    ensures var mp := (5 * doy + 2) / 153;
            && 0 <= mp <= 11
            && (mp < 10 ==> 0 <= doy + DaysToMonth(y, 3) - DaysToMonth(y, mp + 3) < MonthLength(y, mp + 3))
            && (mp == 10 ==> 306 <= doy < 337)
            && (mp == 11 ==> 337 <= doy)
  {
    var mp := (5 * doy + 2) / 153;
    assert 153 * mp <= 5 * doy + 2 < 153 * (mp + 1);
    MonthTable(y, 3);
    if mp < 10 { MonthTable(y, mp + 3); }
  }

  lemma MarchDayGrows(a: nat, b: nat)
    requires a <= b
    ensures MarchDay(a) <= MarchDay(b)
  {
    if a < b {
      MarchDayGrows(a, b - 1);
      YearBetweenMarches(b - 1);
    }
  }

  /** March to December of the year that begins on 1 March `y`. */
  lemma SameYear(y: nat, doy: nat)
    requires y >= 1970 && doy <= 365 && (5 * doy + 2) / 153 < 10
    requires MarchDay(y) + doy >= 719_468
    ensures InMonth(MarchDay(y) + doy - 719_468, y, (5 * doy + 2) / 153 + 3)
  {
    JanuaryDay(y);
    YearBetweenMarches(y - 1);
    MonthTable(y, 3);
    MonthOfDay(doy, y);
    hide MarchDay, DaysToYear, DaysToMonth, MonthLength;
  }

  /** January and February after it. */
  lemma NextYear(y: nat, doy: nat)
    requires y >= 1969 && 306 <= doy < YearLength(y + 1)
    ensures MarchDay(y) + doy >= 719_468
    ensures InMonth(MarchDay(y) + doy - 719_468, y + 1, if doy < 337 then 1 else 2)
  {
    JanuaryDay(y + 1);
    MonthTable(y + 1, 2);
    hide MarchDay, DaysToYear;
  }

  lemma YearIsLate(z: nat, y: nat)
    requires z >= 719_468 && MarchDay(y) <= z < MarchDay(y + 1)
    ensures y >= 1969 && (y == 1969 ==> z - MarchDay(y) >= 306)
  {
    assert MarchDay(1969) == 719_162;
    if y < 1969 { MarchDayGrows(y + 1, 1969); }
  }

  /** The month the code computes, before the year is cut to 16 bits, is the month that holds the day. */
  lemma CivilMonthIsRight(z: nat)
    requires z >= 719_468
    ensures CivilMonth(z).0 >= 1970 && 1 <= CivilMonth(z).1 <= 12
    ensures InMonth(z - 719_468, CivilMonth(z).0, CivilMonth(z).1)
  {
    var y := MarchYear(z);
    YearBetweenMarches(y);
    YearIsLate(z, y);
    MonthFromMarchIsRight(y, z - MarchDay(y));
    hide MarchDay, YearOfEra, InMonth, MonthFromMarch, IsLeap;
  }

  lemma MonthFromMarchIsRight(y: nat, doy: nat)
    requires y >= 1969 && doy < YearLength(y + 1) && (y == 1969 ==> doy >= 306)
    requires MarchDay(y) + doy >= 719_468
    ensures var (year, month) := MonthFromMarch(y, doy);
            year >= 1970 && 1 <= month <= 12 && InMonth(MarchDay(y) + doy - 719_468, year, month)
  {
    MonthOfDay(doy, y);
    hide MarchDay, InMonth, DaysToMonth, MonthLength;
    if (5 * doy + 2) / 153 < 10 {
      SameYear(y, doy);
    } else {
      NextYear(y, doy);
    }
  }

  /** Later months begin after earlier ones have ended. */
  lemma MonthsInOrder(y: nat, m: nat, y': nat, m': nat)
    requires 1970 <= y && 1 <= m <= 12 && 1970 <= y' && 1 <= m' <= 12
    requires y < y' || (y == y' && m < m')
    ensures DaysToYear(y) + DaysToMonth(y, m) + MonthLength(y, m) <= DaysToYear(y') + DaysToMonth(y', m')
  {
    hide DaysToYear, IsLeap;
    if y < y' {
      YearsGrow(y, y');
      MonthEnds(y, m, 12);
    } else {
      MonthEnds(y, m, m');
    }
  }

  /** A month ends by the first of any later month and by the end of the year. */
  lemma {:induction false} MonthEnds(y: nat, m: nat, later: nat)
    requires 1 <= m <= later <= 12
    ensures m < later ==> DaysToMonth(y, m) + MonthLength(y, m) <= DaysToMonth(y, later)
    ensures DaysToMonth(y, m) + MonthLength(y, m) <= YearLength(y)
    decreases later
  {
    MonthTable(y, m);
    if m < later - 1 {
      MonthEnds(y, m, later - 1);
    }
  }

  lemma {:induction false} YearsGrow(y: nat, y': nat)
    requires 1970 <= y < y'
    ensures DaysToYear(y) + YearLength(y) <= DaysToYear(y')
    decreases y'
  {
    if y + 1 < y' { YearsGrow(y, y' - 1); }
  }

  /** A day lies in one month only. */
  lemma MonthIsUnique(day: nat, y: nat, m: nat, y': nat, m': nat)
    requires InMonth(day, y, m) && InMonth(day, y', m')
    ensures y == y' && m == m'
  {
    if y < y' || (y == y' && m < m') {
      MonthsInOrder(y, m, y', m');
    } else if y' < y || (y == y' && m' < m) {
      MonthsInOrder(y', m', y, m);
    }
  }

  /** For every timestamp, the month is the Gregorian one and can be sent in HELLO_OK; the year is the Gregorian year
      modulo 2^16, so it is exact up to year 65535. */
  lemma UtcYearMonthIsRight(unixSecs: U64)
    ensures var (year, month) := UtcYearMonth(unixSecs);
            var y := CivilMonth(ShiftedDay(unixSecs)).0;
            && 1 <= month <= 12
            && y >= 1970 && InMonth(unixSecs as int / SECONDS_PER_DAY, y, month)
            && year == y % 0x1_0000
            && (y < 0x1_0000 ==> year == y)
  {
    hide CivilMonth, InMonth;
    CivilMonthIsRight(ShiftedDay(unixSecs));
  }

  /** Time does not run backwards: a later second is in the same month or in a later one. */
  lemma MonthsAreMonotone(a: U64, b: U64)
    requires a <= b
    ensures var (y, m) := CivilMonth(ShiftedDay(a));
            var (y', m') := CivilMonth(ShiftedDay(b));
            y < y' || (y == y' && m <= m')
    ensures CivilMonth(ShiftedDay(b)).0 < 0x1_0000 ==>
              var (y, m) := UtcYearMonth(a);
              var (y', m') := UtcYearMonth(b);
              y < y' || (y == y' && m <= m')
  {
    hide CivilMonth, InMonth;
    CivilMonthIsRight(ShiftedDay(a));
    CivilMonthIsRight(ShiftedDay(b));
    var (y, m) := CivilMonth(ShiftedDay(a));
    var (y', m') := CivilMonth(ShiftedDay(b));
    LaterDay(ShiftedDay(a) - 719_468, y, m, ShiftedDay(b) - 719_468, y', m');
  }

  lemma LaterDay(day: nat, y: nat, m: nat, day': nat, y': nat, m': nat)
    requires day <= day' && InMonth(day, y, m) && InMonth(day', y', m')
    ensures y < y' || (y == y' && m <= m')
  {
    hide DaysToYear, DaysToMonth, MonthLength;
    if y' < y || (y == y' && m' < m) {
      MonthsInOrder(y', m', y, m);
    }
  }
}
