/** The RFC 5424 timestamp of the syslog audit sink (crates/app/src/context.rs):
    a year loop and a month loop turn epoch seconds into a civil date. */
module Timestamp {
  import opened Text

  const I32_MAX := 0x7fff_ffff
  const I32_MIN := -0x8000_0000
  const I32_SPAN := 0x1_0000_0000
  const U64_LIMIT := 0x1_0000_0000_0000_0000
  /** 10000-01-01T00:00:00Z. */
  const YEAR_10000: int := 253402300800

  // ------------------------------------------------------- source arithmetic

  /** `epoch_s as i64`: two's-complement reinterpretation. */
  function AsI64(n: nat): int
    requires n < U64_LIMIT
  {
    if n < U64_LIMIT / 2 then n else n - U64_LIMIT
  }

  /** The cast gives the one signed 64-bit number that is congruent to its argument modulo 2^64. */
  lemma AsI64Exactly(n: nat)
    requires n < 18_446_744_073_709_551_616
    ensures -9_223_372_036_854_775_808 <= AsI64(n) < 9_223_372_036_854_775_808
    ensures (n - AsI64(n)) % 18_446_744_073_709_551_616 == 0
  {
  }

  /** Division and remainder that truncate toward zero. */
  function TruncDiv(a: int, b: nat): int
    requires b > 0
  {
    if a >= 0 then a / b else -(-a / b)
  }

  function TruncMod(a: int, b: nat): int
    requires b > 0
  {
    a - b * TruncDiv(a, b)
  }

  predicate IsLeap(year: int)
  {
    year % 400 == 0 || (year % 4 == 0 && year % 100 != 0)
  }

  function DaysInYear(year: int): int
  {
    if IsLeap(year) then 366 else 365
  }

  const DAYS_PER_MONTH := [31, 28, 31, 30, 31, 30, 31, 31, 30, 31, 30, 31]
  const DAYS_PER_MONTH_LEAP := [31, 29, 31, 30, 31, 30, 31, 31, 30, 31, 30, 31]

  function MonthLengths(year: int): (lengths: seq<int>)
    ensures |lengths| == 12
  {
    if IsLeap(year) then DAYS_PER_MONTH_LEAP else DAYS_PER_MONTH
  }

  // ------------------------------------------------------- decimal rendering

  function DigitChar(d: int): char
    requires 0 <= d < 10
  {
    ('0' as int + d) as char
  }

  function Decimal(n: nat): string
  {
    if n < 10 then [DigitChar(n)] else Decimal(n / 10) + [DigitChar(n % 10)]
  }

  function Zeros(n: nat): string
  {
    seq(n, _ => '0')
  }

  /** `{:0w}`: at least `w` characters, the sign counted, zeros after the sign. */
  function Padded(n: int, w: nat): string
  {
    var sign := if n < 0 then "-" else "";
    var digits := Decimal(if n < 0 then -n else n);
    sign + Zeros(if |sign| + |digits| < w then w - |sign| - |digits| else 0) + digits
  }

  datatype Civil = Civil(year: int, month: int, day: int, hour: int, minute: int, second: int)

  function Render(c: Civil): string
  {
    RenderDate(c) + RenderTime(c)
  }

  function RenderDate(c: Civil): string
  {
    Padded(c.year, 4) + "-" + Padded(c.month, 2) + "-" + Padded(c.day, 2)
  }

  function RenderTime(c: Civil): string
  {
    "T" + Padded(c.hour, 2) + ":" + Padded(c.minute, 2) + ":" + Padded(c.second, 2) + "Z"
  }

  // --------------------------------------------------------------- the loops

  /** The 32-bit value of a counted year. */
  function Wrap(year: int): (r: int)
    ensures I32_MIN <= r <= I32_MAX
  {
    (year - I32_MIN) % I32_SPAN + I32_MIN
  }

  /** The days of the years from 1970 on, each with the length of its 32-bit value. */
  function DaysElapsed(year: int): int
    requires year >= 1970
  {
    if year == 1970 then 0 else DaysElapsed(year - 1) + DaysInYear(Wrap(year - 1))
  }

  function DaysBeforeMonth(lengths: seq<int>, month: int): int
    requires 1 <= month <= |lengths| + 1
  {
    if month == 1 then 0 else DaysBeforeMonth(lengths, month - 1) + lengths[month - 2]
  }

  /** Hour, minute and second of the remainder. */
  lemma TimeOfDay(secs: int)
    ensures var r := TruncMod(secs, 86400);
      var h, m, s := TruncDiv(r, 3600), TruncDiv(TruncMod(r, 3600), 60), TruncMod(r, 60);
      && r == h * 3600 + m * 60 + s
      && (secs >= 0 ==> 0 <= h < 24 && 0 <= m < 60 && 0 <= s < 60)
      && (secs < 0 ==> -24 < h <= 0 && -60 < m <= 0 && -60 < s <= 0)
  {
    var r := TruncMod(secs, 86400);
    assert secs >= 0 ==> 0 <= r < 86400;
    assert secs < 0 ==> -86400 < r <= 0;
    SixtyInHour(if r >= 0 then r else -r);
  }

  lemma SixtyInHour(r: nat)
    ensures r == r / 3600 * 3600 + r % 3600 / 60 * 60 + r % 60
    ensures 0 <= r % 3600 / 60 < 60
  {
    assert r % 3600 % 60 == r % 60;
  }

  lemma WrapStep(year: int)
    ensures Wrap(year + 1) == if Wrap(year) == I32_MAX then I32_MIN else Wrap(year) + 1
    ensures (year + 1 - I32_MIN) / I32_SPAN == (year - I32_MIN) / I32_SPAN + (if Wrap(year) == I32_MAX then 1 else 0)
  {
  }

  /** The year loop: the 32-bit year, the days left in it, and, for the proof, the year
      without wrapping. With overflow checks it stops when the year overflows. */
  method YearOfDay(totalDays: int, checked: bool) returns (overflow: bool, year: int, remainingDays: int, ghost counted: int)
    ensures overflow <==> checked && totalDays >= YearStart(I32_MAX + 1)
    ensures !overflow ==> counted >= 1970 && year == Wrap(counted) && totalDays == DaysElapsed(counted) + remainingDays
    ensures !overflow && totalDays >= 0 ==> 0 <= remainingDays < DaysInYear(year)
    ensures totalDays <= 0 && !overflow ==> counted == 1970 && remainingDays == totalDays
  {
    hide Wrap;
    hide DaysInYear;
    hide YearStart;
    overflow, year, counted, remainingDays := false, 1970, 1970, totalDays;
    FirstYear();
    while remainingDays >= 365
      invariant counted >= 1970 && year == Wrap(counted)
      invariant checked ==> counted <= I32_MAX && year == counted
      invariant totalDays == DaysElapsed(counted) + remainingDays
      invariant totalDays >= 0 ==> remainingDays >= 0
      invariant totalDays <= 0 ==> counted == 1970 && remainingDays == totalDays
      decreases remainingDays
    {
      YearLength(year);
      var leap := DaysInYear(year);
      if remainingDays < leap {
        break;
      }
      remainingDays := remainingDays - leap;
      if checked && year == I32_MAX {
        OverflowExactly(counted, totalDays, true);
        return true, year, remainingDays, counted;
      }
      WrapStep(counted);
      year := if year == I32_MAX then I32_MIN else year + 1;
      counted := counted + 1;
    }
    YearLength(year);
    if checked {
      OverflowExactly(counted, totalDays, false);
    }
  }

  lemma FirstYear()
    ensures Wrap(1970) == 1970 && DaysElapsed(1970) == 0
  {
  }

  lemma YearLength(year: int)
    ensures 365 <= DaysInYear(year) <= 366
  {
  }

  /** The month loop: the month and the day of a day of the year. */
  method MonthOfDay(year: int, remainingDays: int) returns (month: int, day: int)
    ensures remainingDays <= 0 ==> month == 1 && day == remainingDays + 1
    ensures 0 <= remainingDays < DaysInYear(year) ==>
      && 1 <= month <= 12 && 1 <= day <= MonthLengths(year)[month - 1]
      && remainingDays == DaysBeforeMonth(MonthLengths(year), month) + day - 1
  {
    var lengths := MonthLengths(year);
    month, day := 1, remainingDays + 1;
    MonthStarts(year);
    while month <= 12
      invariant 1 <= month <= 13
      invariant day == remainingDays + 1 - DaysBeforeMonth(lengths, month)
      invariant remainingDays >= 0 ==> day >= 1
      invariant remainingDays <= 0 ==> month == 1
      decreases 13 - month
    {
      if day <= lengths[month - 1] {
        break;
      }
      day := day - lengths[month - 1];
      month := month + 1;
    }
  }

  /** The civil date the loops compute. With overflow checks there is none when the
      32-bit `year` overflows; without them it wraps. */
  method CivilFromEpoch(epoch: nat, checked: bool) returns (r: Option<Civil>)
    requires epoch < U64_LIMIT
    ensures r.None? <==> checked && AsI64(epoch) >= 0 && AsI64(epoch) / 86400 >= YearStart(I32_MAX + 1)
    ensures r.Some? ==> CivilOf(AsI64(epoch), r.value)
  {
    var secs := AsI64(epoch);
    var totalDays := TruncDiv(secs, 86400);
    var remSecs := TruncMod(secs, 86400);
    YearBounds();
    FirstYear();
    TimeOfDay(secs);
    assert secs < 0 ==> totalDays <= 0;
    assert secs >= 0 ==> totalDays == secs / 86400;
    hide TruncDiv;
    hide TruncMod;
    hide MonthLengths;
    hide YearStart;
    hide DaysElapsed;
    hide DaysInYear;
    hide DaysFromCivil;
    hide Reduced;
    hide Wrap;
    var overflow, year, remainingDays, counted := YearOfDay(totalDays, checked);
    if overflow {
      return None;
    }
    var month, day := MonthOfDay(year, remainingDays);
    var c := Civil(year, month, day, TruncDiv(remSecs, 3600), TruncDiv(TruncMod(remSecs, 3600), 60), TruncMod(remSecs, 60));
    r := Some(c);
    if secs >= 0 {
      CountedIsReduced(counted, c, totalDays);
    }
  }

  /** The day number brought into the span of the 32-bit years. */
  function Reduced(days: int): int
  {
    (days - YearStart(I32_MIN)) % CYCLE + YearStart(I32_MIN)
  }

  /** The days of all the 32-bit years together. */
  const CYCLE: int := 1568704592610

  /** The fields the code prints for a number of seconds: before the epoch they are zero or
      negative, in January 1970; after it they are the time of day and the date of the
      reduced day number. */
  ghost predicate CivilOf(secs: int, c: Civil)
  {
    && TruncMod(secs, 86400) == c.hour * 3600 + c.minute * 60 + c.second
    && if secs < 0 then
         && c.year == 1970 && c.month == 1 && c.day == TruncDiv(secs, 86400) + 1
         && -24 < c.hour <= 0 && -60 < c.minute <= 0 && -60 < c.second <= 0
       else
         && ValidDay(c) && ValidTime(c)
         && DaysFromCivil(c.year, c.month, c.day) == Reduced(secs / 86400)
  }

  lemma SameTime(a: Civil, b: Civil)
    requires a.hour * 3600 + a.minute * 60 + a.second == b.hour * 3600 + b.minute * 60 + b.second
    requires ValidTime(a) && ValidTime(b)
    ensures a.hour == b.hour && a.minute == b.minute && a.second == b.second
  {
  }

  /** The fields are determined by the seconds. */
  lemma CivilUnique(secs: int, a: Civil, b: Civil)
    requires CivilOf(secs, a) && CivilOf(secs, b)
    ensures a == b
  {
    hide DaysFromCivil;
    hide Reduced;
    if secs < 0 {
      SameTime(a.(hour := -a.hour, minute := -a.minute, second := -a.second),
               b.(hour := -b.hour, minute := -b.minute, second := -b.second));
    } else {
      SameTime(a, b);
      if DateBefore(a, b) {
        DaysOrder(a, b);
      } else if DateBefore(b, a) {
        DaysOrder(b, a);
      }
    }
  }

  /** The day number lies in a year from 0 to 9999. */
  predicate FourDigitDay(days: int)
  {
    -719528 <= days < 2932897
  }

  /** For every input the text is the rendering of its fields. It is a well-formed
      timestamp exactly when the reduced day number lies in a year from 0 to 9999, and
      then it decodes to the reduced day and the time of day. Up to the instant whose
      wrapped year is 0, and always with overflow checks, that is exactly before the
      year 10000. */
  method FormatRfc5424Timestamp(epoch: nat, checked: bool) returns (r: Option<string>)
    requires epoch < U64_LIMIT
    ensures r.None? <==> checked && AsI64(epoch) >= 0 && AsI64(epoch) / 86400 >= YearStart(I32_MAX + 1)
    ensures r.Some? ==> exists c :: CivilOf(AsI64(epoch), c) && r.value == Render(c)
    ensures r.Some? ==> (WellFormed(r.value) <==> AsI64(epoch) >= 0 && FourDigitDay(Reduced(AsI64(epoch) / 86400)))
    ensures r.Some? && WellFormed(r.value) ==> Decode(r.value) == Reduced(AsI64(epoch) / 86400) * 86400 + AsI64(epoch) % 86400
    ensures checked || epoch < WRAPPED_YEAR_0 || AsI64(epoch) < 0 ==> (r.Some? && WellFormed(r.value) <==> epoch < YEAR_10000)
    ensures epoch < YEAR_10000 ==> r.Some? && |r.value| == 20 && Decode(r.value) == epoch
  {
    var civil := CivilFromEpoch(epoch, checked);
    YearBounds();
    if civil.None? {
      return None;
    }
    var c := civil.value;
    r := Some(Render(c));
    if AsI64(epoch) < 0 {
      NegativeIsMalformed(epoch, c);
    } else {
      ReducedRange(AsI64(epoch) / 86400);
      YearRange(c);
      if 0 <= c.year <= 9999 {
        RenderDecode(c);
      } else {
        OtherYearIsMalformed(c);
      }
      hide Reduced;
      hide Decode;
      hide Render;
      hide DaysFromCivil;
    }
  }

  /** The first instant whose wrapped year is 0. */
  const WRAPPED_YEAR_0: int := (CYCLE - 719528) * 86400

  /** Beyond that instant a well-formed timestamp can show an instant long past. */
  lemma WrappedYearIsRead()
    ensures CivilOf(135536078503584000, Civil(2023, 12, 9, 0, 0, 0))
    ensures var text := Render(Civil(2023, 12, 9, 0, 0, 0)); WellFormed(text) && Decode(text) == 19700 * 86400
  {
    var c := Civil(2023, 12, 9, 0, 0, 0);
    assert ValidDay(c) && ValidTime(c);
    assert DaysFromCivil(2023, 12, 9) == 19700;
    WrappedDay();
    hide DaysFromCivil;
    hide Reduced;
    hide WellFormed;
    hide Render;
    RenderDecode(c);
  }

  lemma WrappedDay()
    ensures Reduced(135536078503584000 / 86400) == 19700 && TruncMod(135536078503584000, 86400) == 0
  {
    YearBounds();
    ReducedOf(1, 19700);
    hide Reduced;
  }

  // ----------------------------------------------------------- dates as days

  /** A day of its month. */
  predicate ValidDay(c: Civil)
  {
    1 <= c.month <= 12 && 1 <= c.day <= MonthLengths(c.year)[c.month - 1]
  }

  predicate ValidTime(c: Civil)
  {
    0 <= c.hour < 24 && 0 <= c.minute < 60 && 0 <= c.second < 60
  }

  function EpochOf(c: Civil): int
  {
    DaysFromCivil(c.year, c.month, c.day) * 86400 + c.hour * 3600 + c.minute * 60 + c.second
  }

  /** Days since the epoch in closed form: years counted from March, in 400-year eras. */
  function DaysFromCivil(year: int, month: int, day: int): int
  {
    var y := if month <= 2 then year - 1 else year;
    var era := y / 400;
    var yearOfEra := y - era * 400;
    var marchMonth := if month > 2 then month - 3 else month + 9;
    var dayOfYear := (153 * marchMonth + 2) / 5 + day - 1;
    var dayOfEra := yearOfEra * 365 + yearOfEra / 4 - yearOfEra / 100 + dayOfYear;
    era * 146097 + dayOfEra - 719468
  }

  lemma MonthStarts(year: int)
    ensures var l := MonthLengths(year); var leap := if IsLeap(year) then 1 else 0;
      && DaysBeforeMonth(l, 2) == 31 && DaysBeforeMonth(l, 3) == 59 + leap
      && DaysBeforeMonth(l, 4) == 90 + leap && DaysBeforeMonth(l, 5) == 120 + leap
      && DaysBeforeMonth(l, 6) == 151 + leap && DaysBeforeMonth(l, 7) == 181 + leap
      && DaysBeforeMonth(l, 8) == 212 + leap && DaysBeforeMonth(l, 9) == 243 + leap
      && DaysBeforeMonth(l, 10) == 273 + leap && DaysBeforeMonth(l, 11) == 304 + leap
      && DaysBeforeMonth(l, 12) == 334 + leap && DaysBeforeMonth(l, 13) == DaysInYear(year)
  {
    var l := MonthLengths(year);
    assert DaysBeforeMonth(l, 1) == 0;
    assert DaysBeforeMonth(l, 3) == DaysBeforeMonth(l, 2) + l[1];
    assert DaysBeforeMonth(l, 5) == DaysBeforeMonth(l, 4) + l[3];
    assert DaysBeforeMonth(l, 7) == DaysBeforeMonth(l, 6) + l[5];
    assert DaysBeforeMonth(l, 9) == DaysBeforeMonth(l, 8) + l[7];
    assert DaysBeforeMonth(l, 11) == DaysBeforeMonth(l, 10) + l[9];
    assert DaysBeforeMonth(l, 13) == DaysBeforeMonth(l, 12) + l[11];
  }

  lemma QuotientSteps(y: int)
    ensures y / 4 - (y - 1) / 4 == if y % 4 == 0 then 1 else 0
    ensures y / 100 - (y - 1) / 100 == if y % 100 == 0 then 1 else 0
    ensures y / 400 - (y - 1) / 400 == if y % 400 == 0 then 1 else 0
  {
  }

  lemma CenturiesDivide(y: int)
    ensures y % 400 == 0 ==> y % 100 == 0
    ensures y % 100 == 0 ==> y % 4 == 0
  {
    if y % 100 == 0 {
      assert y == 4 * (25 * (y / 100));
    }
    if y % 400 == 0 {
      assert y == 100 * (4 * (y / 400));
    }
  }

  lemma LeapStep(y: int)
    ensures DaysInYear(y) == 365 + y / 4 - (y - 1) / 4 - (y / 100 - (y - 1) / 100) + y / 400 - (y - 1) / 400
  {
    QuotientSteps(y);
    CenturiesDivide(y);
  }

  /** Day number of January 1st, leap days counted in closed form. */
  function YearStart(y: int): int
  {
    365 * (y - 1970) + (y - 1) / 4 - (y - 1) / 100 + (y - 1) / 400 - 477
  }

  lemma YearBounds()
    ensures YearStart(1970) == 0 && YearStart(0) == -719528 && YearStart(10000) == 2932897
    ensures YearStart(I32_MAX + 1) - YearStart(I32_MIN) == CYCLE
    ensures YearStart(I32_MIN) < -719528 && 2932897 < YearStart(I32_MAX + 1) < CYCLE - 719528
  {
  }

  /** The year loop's running sum in closed form: whole cycles of the 32-bit years, and
      the start of the wrapped year. */
  lemma {:induction false} DaysElapsedClosed(year: int)
    requires year >= 1970
    ensures DaysElapsed(year) == (year - I32_MIN) / I32_SPAN * CYCLE + YearStart(Wrap(year))
    decreases year
  {
    YearBounds();
    if year > 1970 {
      DaysElapsedClosed(year - 1);
      WrapStep(year - 1);
      NextYearStart(Wrap(year - 1));
      hide YearStart;
      hide Wrap;
      hide DaysInYear;
    }
  }

  lemma ReducedOf(n: int, e: int)
    requires YearStart(I32_MIN) <= e < YearStart(I32_MIN) + CYCLE
    ensures Reduced(n * CYCLE + e) == e
  {
    hide YearStart;
  }

  lemma ReducedRange(days: nat)
    ensures days < CYCLE - 719528 ==> (FourDigitDay(Reduced(days)) <==> days < 2932897)
    ensures days < 2932897 ==> Reduced(days) == days
  {
    YearBounds();
    if days < YearStart(I32_MAX + 1) {
      ReducedOf(0, days);
    } else if days < CYCLE - 719528 {
      ReducedOf(1, days - CYCLE);
    }
  }

  /** The date of a day counted by the loops is that of the reduced day number. */
  lemma CountedIsReduced(counted: int, c: Civil, days: int)
    requires counted >= 1970 && c.year == Wrap(counted) && ValidDay(c)
    requires days == DaysElapsed(counted) + DaysBeforeMonth(MonthLengths(c.year), c.month) + c.day - 1
    ensures DaysFromCivil(c.year, c.month, c.day) == Reduced(days)
  {
    hide DaysFromCivil;
    hide DaysElapsed;
    hide DaysBeforeMonth;
    DaysElapsedClosed(counted);
    DaysFromCivilSum(c.year, c.month, c.day);
    WithinYear(c.year, c.month, c.day);
    WithinSpan(c.year);
    hide YearStart;
    var n := (counted - I32_MIN) / I32_SPAN;
    ReducedOf(n, DaysFromCivil(c.year, c.month, c.day));
  }

  lemma WithinSpan(year: int)
    requires I32_MIN <= year <= I32_MAX
    ensures YearStart(I32_MIN) <= YearStart(year) && YearStart(year) + DaysInYear(year) <= YearStart(I32_MIN) + CYCLE
  {
    YearBounds();
    YearStartMonotone(year, I32_MAX + 1);
    if I32_MIN < year {
      YearStartMonotone(I32_MIN, year);
    }
  }

  /** The 32-bit year overflows exactly when the day number is past its last year. */
  lemma OverflowExactly(counted: int, days: int, over: bool)
    requires 1970 <= counted <= I32_MAX
    requires if over then counted == I32_MAX && days >= DaysElapsed(counted) + DaysInYear(counted)
             else days < DaysElapsed(counted) + DaysInYear(counted)
    ensures over <==> days >= YearStart(I32_MAX + 1)
  {
    NotWrapped(counted);
    NextYearStart(I32_MAX);
    YearStartMonotone(counted, I32_MAX + 1);
    hide YearStart;
    hide DaysElapsed;
    hide DaysInYear;
  }

  lemma NotWrapped(year: int)
    requires 1970 <= year <= I32_MAX
    ensures DaysElapsed(year) == YearStart(year)
  {
    hide YearStart;
    hide DaysElapsed;
    DaysElapsedClosed(year);
    assert Wrap(year) == year && (year - I32_MIN) / I32_SPAN == 0;
  }

  lemma NextYearStart(year: int)
    ensures YearStart(year + 1) == YearStart(year) + DaysInYear(year)
  {
    LeapStep(year);
  }

  lemma {:induction false} YearStartMonotone(y: int, z: int)
    requires y < z
    ensures YearStart(y) + DaysInYear(y) <= YearStart(z)
    decreases z - y
  {
    LeapStep(y);
    if y + 1 < z {
      YearStartMonotone(y + 1, z);
    }
  }

  lemma EraClosed(y: int)
    ensures var e := y / 400; var yoe := y - e * 400;
            e * 146097 + yoe * 365 + yoe / 4 - yoe / 100 == 365 * y + y / 4 - y / 100 + y / 400
  {
    var e := y / 400;
    var yoe := y - e * 400;
    assert 0 <= yoe < 400;
    assert y / 4 == e * 100 + yoe / 4;
    assert y / 100 == e * 4 + yoe / 100;
  }

  /** Days from March 1st to the start of a month counted from March. */
  function MarchOffset(marchMonth: int): int
  {
    (153 * marchMonth + 2) / 5
  }

  lemma MarchOffsets(year: int, month: int)
    requires 1 <= month <= 12
    ensures DaysBeforeMonth(MonthLengths(year), month) ==
            if month > 2 then MarchOffset(month - 3) + DaysInYear(year) - 306 else MarchOffset(month + 9) - 306
  {
    MonthStarts(year);
  }

  /** The closed form is the start of the year plus the months gone by, for every year. */
  lemma DaysFromCivilSum(year: int, month: int, day: int)
    requires 1 <= month <= 12
    ensures DaysFromCivil(year, month, day) ==
            YearStart(year) + DaysBeforeMonth(MonthLengths(year), month) + day - 1
  {
    MarchOffsets(year, month);
    LeapStep(year);
    EraClosed(if month <= 2 then year - 1 else year);
  }

  /** A valid date lies within its year. */
  lemma WithinYear(year: int, month: int, day: int)
    requires 1 <= month <= 12 && 1 <= day <= MonthLengths(year)[month - 1]
    ensures 0 <= DaysBeforeMonth(MonthLengths(year), month) + day - 1 < DaysInYear(year)
  {
    MonthStarts(year);
  }

  /** The four-digit years are those of the days from 0000-01-01 to 9999-12-31. */
  lemma YearRange(c: Civil)
    requires ValidDay(c)
    ensures 0 <= c.year <= 9999 <==> FourDigitDay(DaysFromCivil(c.year, c.month, c.day))
  {
    hide DaysFromCivil;
    DaysFromCivilSum(c.year, c.month, c.day);
    WithinYear(c.year, c.month, c.day);
    YearBounds();
    hide YearStart;
    if c.year < 0 {
      YearStartMonotone(c.year, 0);
    } else if 0 < c.year {
      YearStartMonotone(0, c.year);
    }
    if c.year < 10000 {
      YearStartMonotone(c.year, 10000);
    } else if 10000 < c.year {
      YearStartMonotone(10000, c.year);
    }
  }

  // ------------------------------------------------------------ the spelling

  predicate IsDigit(c: char)
  {
    '0' <= c <= '9'
  }

  function DigitValue(c: char): int
    requires IsDigit(c)
  {
    c as int - '0' as int
  }

  function Value(s: string): int
    requires forall i :: 0 <= i < |s| ==> IsDigit(s[i])
  {
    if s == "" then 0 else Value(s[..|s| - 1]) * 10 + DigitValue(s[|s| - 1])
  }

  predicate Digits(s: string, from: nat, to: nat)
    requires from <= to <= |s|
  {
    forall i :: from <= i < to ==> IsDigit(s[i])
  }

  /** A `FULL-DATE "T" FULL-TIME` of section 6.2.3 of RFC 5424, without fraction and in UTC. */
  predicate WellFormed(s: string)
  {
    && |s| == 20
    && Digits(s, 0, 4) && s[4] == '-' && Digits(s, 5, 7) && s[7] == '-' && Digits(s, 8, 10) && s[10] == 'T'
    && Digits(s, 11, 13) && s[13] == ':' && Digits(s, 14, 16) && s[16] == ':' && Digits(s, 17, 19) && s[19] == 'Z'
    && ValidDay(Parse(s)) && ValidTime(Parse(s))
  }

  function Parse(s: string): Civil
    requires |s| == 20 && Digits(s, 0, 4) && Digits(s, 5, 7) && Digits(s, 8, 10)
    requires Digits(s, 11, 13) && Digits(s, 14, 16) && Digits(s, 17, 19)
  {
    Civil(Value(s[..4]), Value(s[5..7]), Value(s[8..10]), Value(s[11..13]), Value(s[14..16]), Value(s[17..19]))
  }

  /** Reading a timestamp back, by the closed form. */
  function Decode(s: string): int
    requires WellFormed(s)
  {
    var c := Parse(s);
    DaysFromCivil(c.year, c.month, c.day) * 86400 + c.hour * 3600 + c.minute * 60 + c.second
  }

  lemma PaddedTwo(n: int)
    requires 0 <= n < 100
    ensures Padded(n, 2) == [DigitChar(n / 10), DigitChar(n % 10)]
  {
    assert Decimal(n) == if n < 10 then [DigitChar(n)] else Decimal(n / 10) + [DigitChar(n % 10)];
  }

  lemma PaddedFour(n: int)
    requires 0 <= n < 10000
    ensures Padded(n, 4) == [DigitChar(n / 1000), DigitChar(n / 100 % 10), DigitChar(n / 10 % 10), DigitChar(n % 10)]
  {
    assert n / 10 / 10 == n / 100 && n / 100 / 10 == n / 1000;
    DecimalStep(n);
    DecimalStep(n / 10);
    DecimalStep(n / 100);
    DecimalStep(n / 1000);
  }

  lemma DecimalStep(n: nat)
    ensures Decimal(n) == if n < 10 then [DigitChar(n)] else Decimal(n / 10) + [DigitChar(n % 10)]
  {
  }

  lemma {:induction false} DecimalLength(n: nat, power: nat, k: nat)
    requires power == Pow10(k) && n >= power
    ensures |Decimal(n)| > k
    decreases k
  {
    if k > 0 {
      DecimalLength(n / 10, Pow10(k - 1), k - 1);
    }
  }

  function Pow10(k: nat): nat
  {
    if k == 0 then 1 else 10 * Pow10(k - 1)
  }

  lemma ValueTwo(s: string)
    requires |s| == 2 && Digits(s, 0, 2)
    ensures Value(s) == DigitValue(s[0]) * 10 + DigitValue(s[1])
  {
    assert s[..1][..0] == "";
    assert Value(s[..1]) == DigitValue(s[0]);
  }

  lemma ValueFour(s: string)
    requires |s| == 4 && Digits(s, 0, 4)
    ensures Value(s) == DigitValue(s[0]) * 1000 + DigitValue(s[1]) * 100 + DigitValue(s[2]) * 10 + DigitValue(s[3])
  {
    assert s[..3][..2] == s[..2];
    assert Value(s[..3]) == Value(s[..2]) * 10 + DigitValue(s[2]);
    ValueTwo(s[..2]);
  }

  /** A rendering, character by character. */
  lemma RenderCharacters(c: Civil)
    requires ValidDay(c) && ValidTime(c) && 0 <= c.year <= 9999
    ensures Render(c) == [
      DigitChar(c.year / 1000), DigitChar(c.year / 100 % 10), DigitChar(c.year / 10 % 10), DigitChar(c.year % 10), '-',
      DigitChar(c.month / 10), DigitChar(c.month % 10), '-', DigitChar(c.day / 10), DigitChar(c.day % 10), 'T',
      DigitChar(c.hour / 10), DigitChar(c.hour % 10), ':', DigitChar(c.minute / 10), DigitChar(c.minute % 10), ':',
      DigitChar(c.second / 10), DigitChar(c.second % 10), 'Z']
  {
    PaddedFour(c.year);
    PaddedTwo(c.month);
    PaddedTwo(c.day);
    PaddedTwo(c.hour);
    PaddedTwo(c.minute);
    PaddedTwo(c.second);
  }

  lemma TwoDigits(n: int, s: string)
    requires 0 <= n < 100 && s == [DigitChar(n / 10), DigitChar(n % 10)]
    ensures Digits(s, 0, 2) && Value(s) == n
  {
    ValueTwo(s);
  }

  /** The windows of a rendering. */
  lemma RenderWindows(c: Civil)
    requires ValidDay(c) && ValidTime(c) && 0 <= c.year <= 9999
    ensures var s := Render(c);
      && |s| == 20
      && s[..4] == [DigitChar(c.year / 1000), DigitChar(c.year / 100 % 10), DigitChar(c.year / 10 % 10), DigitChar(c.year % 10)]
      && s[5..7] == [DigitChar(c.month / 10), DigitChar(c.month % 10)]
      && s[8..10] == [DigitChar(c.day / 10), DigitChar(c.day % 10)]
      && s[11..13] == [DigitChar(c.hour / 10), DigitChar(c.hour % 10)]
      && s[14..16] == [DigitChar(c.minute / 10), DigitChar(c.minute % 10)]
      && s[17..19] == [DigitChar(c.second / 10), DigitChar(c.second % 10)]
      && s[4] == '-' && s[7] == '-' && s[10] == 'T' && s[13] == ':' && s[16] == ':' && s[19] == 'Z'
  {
    hide Render;
    RenderCharacters(c);
    var s := Render(c);
    assert s[..4] == [s[0], s[1], s[2], s[3]] && s[5..7] == [s[5], s[6]] && s[8..10] == [s[8], s[9]];
    assert s[11..13] == [s[11], s[12]] && s[14..16] == [s[14], s[15]] && s[17..19] == [s[17], s[18]];
  }

  lemma WindowDigits(s: string, i: nat, j: nat)
    requires i <= j <= |s| && Digits(s[i..j], 0, j - i)
    ensures Digits(s, i, j)
  {
    forall k | i <= k < j ensures IsDigit(s[k]) {
      assert s[k] == s[i..j][k - i];
    }
  }

  lemma TwoDigitWindow(s: string, i: nat, n: int)
    requires i + 2 <= |s| && 0 <= n < 100 && s[i..i + 2] == [DigitChar(n / 10), DigitChar(n % 10)]
    ensures Digits(s, i, i + 2) && Digits(s[i..i + 2], 0, 2) && Value(s[i..i + 2]) == n
  {
    TwoDigits(n, s[i..i + 2]);
    WindowDigits(s, i, i + 2);
  }

  /** Parsing undoes rendering. */
  lemma RenderParse(c: Civil)
    requires ValidDay(c) && ValidTime(c) && 0 <= c.year <= 9999
    ensures WellFormed(Render(c)) && Parse(Render(c)) == c
  {
    hide Render;
    hide Value;
    hide Digits;
    var s := Render(c);
    RenderWindows(c);
    YearWindow(s, c.year);
    TwoDigitWindow(s, 5, c.month);
    TwoDigitWindow(s, 8, c.day);
    TwoDigitWindow(s, 11, c.hour);
    TwoDigitWindow(s, 14, c.minute);
    TwoDigitWindow(s, 17, c.second);
  }

  lemma YearWindow(s: string, n: int)
    requires 4 <= |s| && 0 <= n < 10000
    requires s[..4] == [DigitChar(n / 1000), DigitChar(n / 100 % 10), DigitChar(n / 10 % 10), DigitChar(n % 10)]
    ensures Digits(s, 0, 4) && Value(s[..4]) == n
  {
    hide Value;
    assert s[0..4] == s[..4];
    WindowDigits(s, 0, 4);
    ValueFour(s[..4]);
    FourDigits(n);
  }

  lemma FourDigits(n: nat)
    requires n < 10000
    ensures n == n / 1000 * 1000 + n / 100 % 10 * 100 + n / 10 % 10 * 10 + n % 10
    ensures n / 1000 < 10
  {
    assert n / 100 / 10 == n / 1000 && n / 10 / 10 == n / 100;
  }

  /** Decoding a rendering by the closed form gives the instant it came from. */
  lemma RenderDecode(c: Civil)
    requires ValidDay(c) && ValidTime(c) && 0 <= c.year <= 9999
    ensures WellFormed(Render(c)) && |Render(c)| == 20 && Decode(Render(c)) == EpochOf(c)
  {
    RenderParse(c);
  }

  /** A year of five digits, or with a sign, is never well formed. */
  lemma OtherYearIsMalformed(c: Civil)
    requires !(0 <= c.year <= 9999)
    ensures !WellFormed(Render(c))
  {
    if c.year < 0 {
      assert Padded(c.year, 4)[0] == '-';
      assert Render(c)[0] == RenderDate(c)[0] == '-';
    } else {
      DecimalLength(c.year, 10000, 4);
      assert |Padded(c.year, 4)| > 4;
      assert forall n :: |Padded(n, 2)| >= 2;
    }
  }

  /** Instants whose 64-bit value turns negative are never spelled as timestamps. */
  lemma NegativeIsMalformed(epoch: nat, c: Civil)
    requires epoch < U64_LIMIT && AsI64(epoch) < 0
    requires c.year == 1970 && c.month == 1 && c.day == TruncDiv(AsI64(epoch), 86400) + 1
    requires TruncMod(AsI64(epoch), 86400) == c.hour * 3600 + c.minute * 60 + c.second
    requires c.hour <= 0 && c.minute <= 0 && c.second <= 0
    ensures !WellFormed(Render(c))
  {
    PaddedFour(1970);
    PaddedTwo(1);
    PaddedTwo(0);
    if c.day == 1 {
      NegativeTimeIsMalformed(c);
    } else {
      NegativeDayIsMalformed(c);
    }
  }

  lemma NonDigitIsMalformed(s: string, i: nat)
    requires i in {8, 11, 14, 17} && i < |s| && !IsDigit(s[i])
    ensures !WellFormed(s)
  {
  }

  lemma ZeroDayIsMalformed(s: string)
    requires |s| >= 10 && s[8..10] == "00"
    ensures !WellFormed(s)
  {
    TwoDigits(0, s[8..10]);
  }

  lemma NegativeDayIsMalformed(c: Civil)
    requires c.year == 1970 && c.month == 1 && c.day <= 0
    ensures !WellFormed(Render(c))
  {
    hide WellFormed;
    hide RenderTime;
    PaddedFour(1970);
    PaddedTwo(1);
    if c.day < 0 {
      NegativeSign(c.day);
      assert Render(c)[8] == RenderDate(c)[8] == Padded(c.day, 2)[0];
      NonDigitIsMalformed(Render(c), 8);
    } else {
      PaddedTwo(0);
      assert RenderDate(c)[8..10] == Render(c)[8..10] == "00";
      ZeroDayIsMalformed(Render(c));
    }
  }

  lemma NegativeSign(n: int)
    requires n < 0
    ensures Padded(n, 2) != "" && Padded(n, 2)[0] == '-'
  {
  }

  lemma NegativeTimeIsMalformed(c: Civil)
    requires c.year == 1970 && c.month == 1 && c.day == 1
    requires c.hour <= 0 && c.minute <= 0 && c.second <= 0 && c.hour + c.minute + c.second < 0
    ensures !WellFormed(Render(c))
  {
    hide WellFormed;
    PaddedFour(1970);
    PaddedTwo(1);
    PaddedTwo(0);
    assert |RenderDate(c)| == 10;
    var i := if c.hour < 0 then 1 else if c.minute < 0 then 4 else 7;
    NegativeTimeSign(c, i);
    assert Render(c)[10 + i] == RenderTime(c)[i];
    NonDigitIsMalformed(Render(c), 10 + i);
  }

  lemma NegativeTimeSign(c: Civil, i: nat)
    requires c.hour <= 0 && c.minute <= 0 && c.second <= 0 && c.hour + c.minute + c.second < 0
    requires i == if c.hour < 0 then 1 else if c.minute < 0 then 4 else 7
    ensures i < |RenderTime(c)| && RenderTime(c)[i] == '-'
  {
    hide Padded;
    PaddedTwo(0);
    NegativeSign(if c.hour < 0 then c.hour else if c.minute < 0 then c.minute else c.second);
  }

  // ------------------------------------------------------------------- order

  predicate DateBefore(a: Civil, b: Civil)
  {
    a.year < b.year || (a.year == b.year && (a.month < b.month || (a.month == b.month && a.day < b.day)))
  }

  predicate TimeBefore(a: Civil, b: Civil)
  {
    a.hour < b.hour || (a.hour == b.hour &&
      (a.minute < b.minute || (a.minute == b.minute && a.second < b.second)))
  }

  /** Field by field, most significant first. */
  predicate Before(a: Civil, b: Civil)
  {
    DateBefore(a, b) || (a.year == b.year && a.month == b.month && a.day == b.day && TimeBefore(a, b))
  }

  lemma {:induction false} MonthsAscend(lengths: seq<int>, m: int, n: int)
    requires 1 <= m < n <= |lengths| + 1 && forall i :: 0 <= i < |lengths| ==> lengths[i] >= 0
    ensures DaysBeforeMonth(lengths, m) + lengths[m - 1] <= DaysBeforeMonth(lengths, n)
    decreases n
  {
    if m + 1 < n {
      MonthsAscend(lengths, m, n - 1);
    }
  }

  lemma DaysOrder(a: Civil, b: Civil)
    requires ValidDay(a) && ValidDay(b) && DateBefore(a, b)
    ensures DaysFromCivil(a.year, a.month, a.day) < DaysFromCivil(b.year, b.month, b.day)
  {
    hide DaysFromCivil;
    hide YearStart;
    DaysFromCivilSum(a.year, a.month, a.day);
    DaysFromCivilSum(b.year, b.month, b.day);
    if a.year < b.year {
      WithinYear(a.year, a.month, a.day);
      WithinYear(b.year, b.month, b.day);
      YearStartMonotone(a.year, b.year);
    } else if a.month < b.month {
      MonthsAscend(MonthLengths(a.year), a.month, b.month);
    }
  }

  lemma DecodeOrder(s: string, t: string)
    requires WellFormed(s) && WellFormed(t) && Before(Parse(s), Parse(t))
    ensures Decode(s) < Decode(t)
  {
    var a, b := Parse(s), Parse(t);
    if DateBefore(a, b) {
      DaysOrder(a, b);
    }
  }

  /** Digit strings of one length are ordered as their values. */
  lemma {:induction false} DigitsOrder(a: string, b: string)
    requires |a| == |b| && Digits(a, 0, |a|) && Digits(b, 0, |b|)
    ensures Value(a) < Value(b) ==> Less(a, b)
    ensures Value(a) == Value(b) ==> a == b
  {
    if a != "" {
      var n := |a| - 1;
      DigitsOrder(a[..n], b[..n]);
      assert a == a[..n] + [a[n]] && b == b[..n] + [b[n]];
      if Value(a[..n]) < Value(b[..n]) {
        LessAt(a, b, 0, n);
      } else if Value(a) < Value(b) {
        LessAt(a, b, n, n + 1);
      }
    }
  }

  /** A first difference inside a window decides the order. */
  lemma {:induction false} LessAt(s: string, t: string, i: nat, j: nat)
    requires i <= j <= |s| == |t| && s[..i] == t[..i]
    ensures Less(s[i..j], t[i..j]) ==> Less(s, t)
    decreases j
  {
    if i > 0 {
      assert s[0] == s[..i][0] == t[..i][0] == t[0];
      assert s[1..][..i - 1] == s[..i][1..] && t[1..][..i - 1] == t[..i][1..];
      assert s[1..][i - 1..j - 1] == s[i..j] && t[1..][i - 1..j - 1] == t[i..j];
      LessAt(s[1..], t[1..], i - 1, j - 1);
    } else if j > 0 && Less(s[i..j], t[i..j]) && s[0] == t[0] {
      assert s[0..j][1..] == s[1..][0..j - 1] && t[0..j][1..] == t[1..][0..j - 1];
      LessAt(s[1..], t[1..], 0, j - 1);
    }
  }

  /** The window `i..j` of two well-formed timestamps that agree before `i`. */
  lemma FieldOrder(s: string, t: string, i: nat, j: nat)
    requires i <= j <= |s| == |t| && s[..i] == t[..i] && Digits(s, i, j) && Digits(t, i, j)
    ensures Value(s[i..j]) < Value(t[i..j]) ==> Less(s, t)
    ensures Value(s[i..j]) == Value(t[i..j]) ==> s[..j] == t[..j]
  {
    DigitsOrder(s[i..j], t[i..j]);
    LessAt(s, t, i, j);
    assert s[..j] == s[..i] + s[i..j] && t[..j] == t[..i] + t[i..j];
  }

  lemma SpellingOrder(s: string, t: string)
    requires WellFormed(s) && WellFormed(t)
    ensures Before(Parse(s), Parse(t)) ==> Less(s, t)
    ensures Parse(s) == Parse(t) ==> s == t
  {
    FieldOrder(s, t, 0, 4);
    if Parse(s).year == Parse(t).year {
      assert s[..5] == s[..4] + "-" && t[..5] == t[..4] + "-";
      FieldOrder(s, t, 5, 7);
      if Parse(s).month == Parse(t).month {
        assert s[..8] == s[..7] + "-" && t[..8] == t[..7] + "-";
        FieldOrder(s, t, 8, 10);
        if Parse(s).day == Parse(t).day {
          assert s[..11] == s[..10] + "T" && t[..11] == t[..10] + "T";
          SpellingTimeOrder(s, t);
        }
      }
    }
  }

  lemma SpellingTimeOrder(s: string, t: string)
    requires WellFormed(s) && WellFormed(t) && s[..11] == t[..11]
    ensures TimeBefore(Parse(s), Parse(t)) ==> Less(s, t)
    ensures Parse(s) == Parse(t) ==> s == t
  {
    FieldOrder(s, t, 11, 13);
    if Parse(s).hour == Parse(t).hour {
      assert s[..14] == s[..13] + ":" && t[..14] == t[..13] + ":";
      FieldOrder(s, t, 14, 16);
      if Parse(s).minute == Parse(t).minute {
        assert s[..17] == s[..16] + ":" && t[..17] == t[..16] + ":";
        FieldOrder(s, t, 17, 19);
        assert s == s[..19] + "Z" && t == t[..19] + "Z";
      }
    }
  }

  /** On well-formed timestamps, string order is the order of the instants. */
  lemma TimestampOrder(s: string, t: string)
    requires WellFormed(s) && WellFormed(t)
    ensures Less(s, t) <==> Decode(s) < Decode(t)
    ensures s == t <==> Decode(s) == Decode(t)
  {
    SpellingOrder(s, t);
    SpellingOrder(t, s);
    LessTotal(s, t);
    var a, b := Parse(s), Parse(t);
    if Before(a, b) {
      DecodeOrder(s, t);
    } else if Before(b, a) {
      DecodeOrder(t, s);
    }
  }
}
