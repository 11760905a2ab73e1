/** Calendar dates as year/month/day triples (months 1..12, Gregorian month
    lengths), the day before and the day after, month arithmetic, the
    Monday-first weekday offset, and the two text forms the application
    writes: the `YYYY-MM-DD` key and the `DD/MM/YYYY` label. */
module Dates {
  import opened Wrappers
  import opened Text

  datatype Date = Date(year: int, month: int, day: int)

  predicate IsLeapYear(y: int) {
    (y % 4 == 0 && y % 100 != 0) || y % 400 == 0
  }

  /** `new Date(year, month, 0).getDate()` for month 1..12. */
  function DaysInMonth(y: int, m: int): (n: int)
    requires 1 <= m <= 12
    ensures 28 <= n <= 31
    ensures n == 29 <==> m == 2 && IsLeapYear(y)
    ensures n == 28 <==> m == 2 && !IsLeapYear(y)
  {
    if m == 2 then (if IsLeapYear(y) then 29 else 28)
    else if m == 4 || m == 6 || m == 9 || m == 11 then 30
    else 31
  }

  predicate ValidDate(d: Date) {
    1 <= d.month <= 12 && 1 <= d.day <= DaysInMonth(d.year, d.month)
  }

  /** Strict calendar order. */
  predicate Before(a: Date, b: Date) {
    a.year < b.year
    || (a.year == b.year && (a.month < b.month || (a.month == b.month && a.day < b.day)))
  }

  /** The day before (`d.setDate(d.getDate() - 1)`). */
  function PrevDay(d: Date): (r: Date)
    requires ValidDate(d)
    ensures ValidDate(r) && Before(r, d)
  {
    if d.day > 1 then Date(d.year, d.month, d.day - 1)
    else if d.month > 1 then Date(d.year, d.month - 1, DaysInMonth(d.year, d.month - 1))
    else Date(d.year - 1, 12, 31)
  }

  /** The day after (`d.setDate(d.getDate() + 1)`). */
  function NextDay(d: Date): (r: Date)
    requires ValidDate(d)
    ensures ValidDate(r) && Before(d, r)
  {
    if d.day < DaysInMonth(d.year, d.month) then Date(d.year, d.month, d.day + 1)
    else if d.month < 12 then Date(d.year, d.month + 1, 1)
    else Date(d.year + 1, 1, 1)
  }

  lemma NextPrevInverse(d: Date)
    requires ValidDate(d)
    ensures NextDay(PrevDay(d)) == d && PrevDay(NextDay(d)) == d
  {
  }

  /** No valid date lies strictly between the day before `d` and `d`: a date
      is earlier than `d` exactly when it is the day before or earlier still. */
  lemma PrevDayAdjacent(d: Date, x: Date)
    requires ValidDate(d) && ValidDate(x)
    ensures Before(x, d) <==> x == PrevDay(d) || Before(x, PrevDay(d))
  {
  }

  // ---------------------------------------------------------------------
  // Month arithmetic, as `new Date(y, m + k, 1)` normalises it

  /** Months counted from the start of year 0. */
  function MonthIndex(y: int, m: int): int { y * 12 + (m - 1) }

  /** `new Date(year, month - 1, day)` for numbers that name one of the
      model's dates; a year from 0 to 99 means 1900 + year. None where
      JavaScript would roll the fields over into another month. */
  function LocalDate(year: int, month: int, day: int): (r: Option<Date>)
    ensures r.Some? ==> ValidDate(r.value) && r.value.month == month && r.value.day == day
    ensures r.Some? ==> r.value.year == if 0 <= year <= 99 then 1900 + year else year
    ensures year >= 100 && ValidDate(Date(year, month, day)) ==> r == Some(Date(year, month, day))
  {
    var y := if 0 <= year <= 99 then 1900 + year else year;
    if ValidDate(Date(y, month, day)) then Some(Date(y, month, day)) else None
  }

  /** The first day of the month `k` months after month `m` of year `y`. */
  function AddMonths(y: int, m: int, k: int): (r: Date)
    ensures 1 <= r.month <= 12 && r.day == 1 && ValidDate(r)
    ensures MonthIndex(r.year, r.month) == MonthIndex(y, m) + k
  {
    var idx := MonthIndex(y, m) + k;
    Date(idx / 12, idx % 12 + 1, 1)
  }

  /** Shifting by `k` months and back by `k` months returns to the month. */
  lemma AddMonthsInverse(y: int, m: int, k: int)
    requires 1 <= m <= 12
    ensures var r := AddMonths(y, m, k); AddMonths(r.year, r.month, -k) == Date(y, m, 1)
  {
    var r := AddMonths(y, m, k);
    var idx := MonthIndex(y, m);
    assert MonthIndex(r.year, r.month) - k == idx;
    assert idx / 12 == y && idx % 12 == m - 1;
  }

  // ---------------------------------------------------------------------
  // Moving by days

  /** The date `days` calendar days later (earlier for a negative count), as
      `d.setDate(d.getDate() + days)` moves it. */
  function ShiftDays(d: Date, days: int): (r: Date)
    requires ValidDate(d)
    ensures ValidDate(r)
    decreases if days >= 0 then days else -days
  {
    if days == 0 then d
    else if days > 0 then ShiftDays(NextDay(d), days - 1)
    else ShiftDays(PrevDay(d), days + 1)
  }

  /** A step back undoes a step forward and the other way round. */
  lemma ShiftBackAndForth(d: Date)
    requires ValidDate(d)
    ensures ShiftDays(ShiftDays(d, 1), -1) == d
    ensures ShiftDays(ShiftDays(d, -1), 1) == d
  {
    NextPrevInverse(d);
  }

  lemma BeforeTransitive(a: Date, b: Date, c: Date)
    requires Before(a, b) && Before(b, c)
    ensures Before(a, c)
  {
  }

  /** Moving forward gives a later day, moving back an earlier one. */
  lemma {:induction false} ShiftOrder(d: Date, days: int)
    requires ValidDate(d)
    ensures days > 0 ==> Before(d, ShiftDays(d, days))
    ensures days < 0 ==> Before(ShiftDays(d, days), d)
    ensures days == 0 ==> ShiftDays(d, days) == d
    decreases if days >= 0 then days else -days
  {
    if days > 1 {
      ShiftOrder(NextDay(d), days - 1);
      BeforeTransitive(d, NextDay(d), ShiftDays(d, days));
    } else if days < -1 {
      ShiftOrder(PrevDay(d), days + 1);
      BeforeTransitive(ShiftDays(d, days), PrevDay(d), d);
    }
  }

  /** Within a month, moving `k` days forward adds `k` to the day. */
  lemma {:induction false} ShiftInMonth(d: Date, k: int)
    requires ValidDate(d) && 0 <= k && d.day + k <= DaysInMonth(d.year, d.month)
    ensures ShiftDays(d, k) == Date(d.year, d.month, d.day + k)
    decreases k
  {
    if k > 0 {
      ShiftInMonth(NextDay(d), k - 1);
    }
  }

  // ---------------------------------------------------------------------
  // Weekdays

  /** The Monday-first column of a weekday given Sunday-first (`getDay()`,
      0 = Sunday): Sunday goes to the last column. */
  function MondayFirstOffset(weekday: int): (r: int)
    requires 0 <= weekday <= 6
    ensures 0 <= r <= 6
    ensures (r + 1) % 7 == weekday
  {
    if weekday == 0 then 6 else weekday - 1
  }

  // ---------------------------------------------------------------------
  // Text forms

  /** Three fields separated by `sep`, as a template string writes them. */
  function Join3(a: string, sep: char, b: string, c: string): string {
    a + ([sep] + (b + ([sep] + c)))
  }

  /** `YYYY-MM-DD`: the year as printed, month and day padded to two digits. */
  function IsoKey(d: Date): string
    requires ValidDate(d)
  {
    Join3(IntStr(d.year), '-', Pad2(d.month), Pad2(d.day))
  }

  /** `DD/MM/YYYY`: day and month padded to two digits, the year as printed. */
  function DisplayDate(d: Date): string
    requires ValidDate(d)
  {
    Join3(Pad2(d.day), '/', Pad2(d.month), IntStr(d.year))
  }

  /** The date a `YYYY-MM-DD` string denotes, or None (an Invalid Date). */
  function ParseDateKey(s: string): (r: Option<Date>)
    ensures r.Some? ==> ValidDate(r.value) && 0 <= r.value.year <= 9999
  {
    var p := Split(s, '-');
    if |p| == 3 && |p[0]| == 4 && |p[1]| == 2 && |p[2]| == 2
       && AllDigits(p[0]) && AllDigits(p[1]) && AllDigits(p[2]) then
      assert DigitsValue(p[0]) <= 9999 by {
        DigitsValueBound(p[0]);
        assert Pow10(4) == 10000;
      }
      var d := Date(DigitsValue(p[0]), DigitsValue(p[1]), DigitsValue(p[2]));
      if ValidDate(d) then Some(d) else None
    else None
  }

  /** Where the separators of a three-field join sit. */
  lemma Join3Shape(a: string, sep: char, b: string, c: string)
    ensures |Join3(a, sep, b, c)| == |a| + |b| + |c| + 2
    ensures Join3(a, sep, b, c)[|a|] == sep && Join3(a, sep, b, c)[|a| + 1 + |b|] == sep
  {
    var tail := [sep] + (b + ([sep] + c));
    assert Join3(a, sep, b, c)[|a|] == tail[0];
    assert tail[1 + |b|] == ([sep] + c)[0];
  }

  /** A four-digit year gives a key of ten characters with `-` at 4 and 7. */
  lemma IsoKeyShape(d: Date)
    requires ValidDate(d) && 1000 <= d.year <= 9999
    ensures |IsoKey(d)| == 10 && IsoKey(d)[4] == '-' && IsoKey(d)[7] == '-'
  {
    NatStrFourDigits(d.year);
    Join3Shape(IntStr(d.year), '-', Pad2(d.month), Pad2(d.day));
  }

  /** Distinct dates with four-digit years have distinct keys. */
  lemma IsoKeyInjective(a: Date, b: Date)
    requires ValidDate(a) && ValidDate(b) && a != b
    requires 1000 <= a.year <= 9999 && 1000 <= b.year <= 9999
    ensures IsoKey(a) != IsoKey(b)
  {
    IsoKeyOrder(a, b);
  }

  /** A digit field followed by `-` and a rest compares, against another of
      the same width, first by the field's value and then by the rest. */
  lemma FieldThenRest(x1: string, r1: string, x2: string, r2: string)
    requires |x1| == |x2| && AllDigits(x1) && AllDigits(x2)
    ensures x1 + ("-" + r1) == x2 + ("-" + r2) <==> DigitsValue(x1) == DigitsValue(x2) && r1 == r2
    ensures LexLess(x1 + ("-" + r1), x2 + ("-" + r2))
            <==> DigitsValue(x1) < DigitsValue(x2) || (DigitsValue(x1) == DigitsValue(x2) && LexLess(r1, r2))
  {
    LexLessAppend(x1, "-" + r1, x2, "-" + r2);
    LexLessAppend("-", r1, "-", r2);
    assert !LexLess("-", "-");
    DigitsLexOrder(x1, x2);
  }

  /** Two joins whose first two fields have the same widths are equal
      exactly when the fields are. */
  lemma Join3Equal(a1: string, b1: string, c1: string, a2: string, b2: string, c2: string, sep: char)
    requires |a1| == |a2| && |b1| == |b2|
    ensures Join3(a1, sep, b1, c1) == Join3(a2, sep, b2, c2) <==> a1 == a2 && b1 == b2 && c1 == c2
  {
    var j1, j2 := Join3(a1, sep, b1, c1), Join3(a2, sep, b2, c2);
    if j1 == j2 {
      var k := |a1| + 1 + |b1|;
      assert a1 == j1[..|a1|] && a2 == j2[..|a1|];
      assert b1 == j1[|a1| + 1..k] && b2 == j2[|a1| + 1..k];
      assert c1 == j1[k + 1..] && c2 == j2[k + 1..];
    }
  }

  /** Three digit fields of fixed widths joined by `-` compare as strings
      exactly as their values compare lexicographically. */
  lemma FieldsLess(ya: string, ma: string, da: string, yb: string, mb: string, db: string)
    requires |ya| == |yb| && |ma| == |mb| && |da| == |db|
    requires AllDigits(ya) && AllDigits(ma) && AllDigits(da)
    requires AllDigits(yb) && AllDigits(mb) && AllDigits(db)
    ensures LexLess(Join3(ya, '-', ma, da), Join3(yb, '-', mb, db))
            <==> DigitsValue(ya) < DigitsValue(yb)
                 || (DigitsValue(ya) == DigitsValue(yb)
                     && (DigitsValue(ma) < DigitsValue(mb)
                         || (DigitsValue(ma) == DigitsValue(mb) && DigitsValue(da) < DigitsValue(db))))
  {
    FieldThenRest(ya, ma + ("-" + da), yb, mb + ("-" + db));
    FieldThenRest(ma, da, mb, db);
    DigitsLexOrder(da, db);
  }

  /** Keys of dates with four-digit years are equal exactly when the dates
      are, and compare as strings exactly as the dates compare. */
  lemma IsoKeyOrder(a: Date, b: Date)
    requires ValidDate(a) && ValidDate(b)
    requires 1000 <= a.year <= 9999 && 1000 <= b.year <= 9999
    ensures IsoKey(a) == IsoKey(b) <==> a == b
    ensures LexLess(IsoKey(a), IsoKey(b)) <==> Before(a, b)
  {
    NatStrFourDigits(a.year);
    NatStrFourDigits(b.year);
    NatStrValue(a.year);
    NatStrValue(b.year);
    Pad2Value(a.month);
    Pad2Value(b.month);
    Pad2Value(a.day);
    Pad2Value(b.day);
    assert IsoKey(a) == IsoKey(b) <==> a == b by {
      Join3Equal(IntStr(a.year), Pad2(a.month), Pad2(a.day), IntStr(b.year), Pad2(b.month), Pad2(b.day), '-');
    }
    assert LexLess(IsoKey(a), IsoKey(b)) <==> Before(a, b) by {
      FieldsLess(IntStr(a.year), Pad2(a.month), Pad2(a.day), IntStr(b.year), Pad2(b.month), Pad2(b.day));
    }
  }

  /** A character in none of the fields, other than the separator, is not
      in their join. */
  lemma NotInJoin3(ch: char, a: string, sep: char, b: string, c: string)
    requires ch !in a && ch !in b && ch !in c && ch != sep
    ensures ch !in Join3(a, sep, b, c)
  {
  }

  /** Splitting three separator-free fields joined by the separator gives
      the fields back. */
  lemma SplitFields(y: string, sep: char, m: string, d: string)
    requires sep !in y && sep !in m && sep !in d
    ensures Split(Join3(y, sep, m, d), sep) == [y, m, d]
  {
    var parts := [y, m, d];
    assert Join(parts[2..], sep) == d;
    assert Join(parts[1..], sep) == m + [sep] + d;
    assert Join(parts, sep) == Join3(y, sep, m, d);
    JoinSplit(parts, sep);
  }

  lemma DigitsNoDash(s: string)
    requires AllDigits(s)
    ensures '-' !in s
  {
  }

  /** Parsing a key gives back the date it was built from. */
  lemma ParseIsoKey(d: Date)
    requires ValidDate(d) && 1000 <= d.year <= 9999
    ensures ParseDateKey(IsoKey(d)) == Some(d)
  {
    var y, m, dd := IntStr(d.year), Pad2(d.month), Pad2(d.day);
    assert |y| == 4 && AllDigits(y) && DigitsValue(y) == d.year by {
      NatStrFourDigits(d.year);
      NatStrValue(d.year);
    }
    assert |m| == 2 && AllDigits(m) && DigitsValue(m) == d.month by {
      Pad2Value(d.month);
    }
    assert |dd| == 2 && AllDigits(dd) && DigitsValue(dd) == d.day by {
      Pad2Value(d.day);
    }
    assert Split(IsoKey(d), '-') == [y, m, dd] by {
      DigitsNoDash(y);
      DigitsNoDash(m);
      DigitsNoDash(dd);
      SplitFields(y, '-', m, dd);
    }
    ParseFields(IsoKey(d), y, m, dd, d);
  }

  /** A key whose three fields are four, two and two digits denoting a
      valid date parses to that date. */
  lemma ParseFields(k: string, y: string, m: string, dd: string, d: Date)
    requires ValidDate(d) && Split(k, '-') == [y, m, dd]
    requires |y| == 4 && AllDigits(y) && DigitsValue(y) == d.year
    requires |m| == 2 && AllDigits(m) && DigitsValue(m) == d.month
    requires |dd| == 2 && AllDigits(dd) && DigitsValue(dd) == d.day
    ensures ParseDateKey(k) == Some(d)
  {
  }
}
