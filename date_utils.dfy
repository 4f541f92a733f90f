/**
 * app/utils/dateUtils.ts: `formatDate` renders the UTC calendar date of a
 * JavaScript Date as day/month/year or month/day/year, the day and month
 * zero-padded to two characters and the year unpadded; `getCurrentYear`
 * prints the clock's year. The Date is given by the values its UTC getters
 * report, so string parsing and the clock stay outside the model.
 */
module DateUtils {
  import opened Wrappers
  import opened JsText

  datatype DateFormat = Dmy | Mdy

  /** What a Date reports through getUTCFullYear, getUTCMonth (0-based) and getUTCDate; an Invalid Date reports NaN for each. */
  datatype DateValue = InvalidDate | UtcDate(year: int, month0: int, day: int)

  function GetUtcDate(date: DateValue): Option<int> {
    if date.UtcDate? then Some(date.day) else None
  }

  function GetUtcMonth(date: DateValue): Option<int> {
    if date.UtcDate? then Some(date.month0) else None
  }

  function GetUtcFullYear(date: DateValue): Option<int> {
    if date.UtcDate? then Some(date.year) else None
  }

  /** `x + 1` on a Number that may be NaN. */
  function PlusOne(x: Option<int>): Option<int> {
    if x.Some? then Some(x.value + 1) else None
  }

  /** The calendar ranges the UTC getters of a valid Date keep to. */
  predicate InCalendarRange(date: DateValue) {
    date.UtcDate? && 1 <= date.day <= 31 && 0 <= date.month0 <= 11
  }

  /** `formatDate(date, format)`; `None` stands for the omitted argument. */
  function FormatDate(date: DateValue, format: Option<DateFormat>): (r: string)
    ensures |r| == |DayField(date)| + |MonthField(date)| + |YearField(date)| + 2
    ensures |r| >= 7
  {
    var day := DayField(date);
    var month := MonthField(date);
    var year := YearField(date);
    if format.GetOr(Dmy) == Mdy then month + "/" + day + "/" + year
    else day + "/" + month + "/" + year
  }

  /** `date.getUTCDate().toString().padStart(2, '0')` */
  function DayField(date: DateValue): (r: string)
    ensures |r| >= 2
    ensures date.InvalidDate? ==> r == "NaN"
  {
    PadStart(NumberToString(GetUtcDate(date)), 2, '0')
  }

  /** `(date.getUTCMonth() + 1).toString().padStart(2, '0')` */
  function MonthField(date: DateValue): (r: string)
    ensures |r| >= 2
    ensures date.InvalidDate? ==> r == "NaN"
  {
    PadStart(NumberToString(PlusOne(GetUtcMonth(date))), 2, '0')
  }

  /** `date.getUTCFullYear()`, printed as the template string prints a number */
  function YearField(date: DateValue): (r: string)
    ensures |r| >= 1
    ensures date.InvalidDate? ==> r == "NaN"
    ensures date.UtcDate? ==> r == IntToString(date.year)
  {
    NumberToString(GetUtcFullYear(date))
  }

  /** `getCurrentYear()`, given the year the clock reads in local time. */
  function GetCurrentYear(clockYear: int): (r: string)
    ensures 1 <= |r|
    ensures clockYear >= 0 ==> AllDigits(r) && DecimalValue(r) == clockYear
    ensures clockYear < 0 ==> r[0] == '-' && AllDigits(r[1..]) && DecimalValue(r[1..]) == -clockYear
  {
    IntToString(clockYear)
  }

  /** Neither a printed number (NaN included) nor its zero-padded form holds a '/'. */
  lemma NoSlashInNumber(x: Option<int>)
    ensures '/' !in NumberToString(x)
    ensures '/' !in PadStart(NumberToString(x), 2, '0')
  {
    var s := NumberToString(x);
    forall k | 0 <= k < |s|
      ensures s[k] != '/'
    {
      if x.Some? && x.value < 0 && k > 0 {
        assert s[k] == s[1..][k - 1];
      }
    }
    var p := PadStart(s, 2, '0');
    forall k | 0 <= k < |p|
      ensures p[k] != '/'
    {
      if k >= |p| - |s| {
        assert p[k] == p[|p| - |s|..][k - (|p| - |s|)];
      }
    }
  }

  /** A number below 100 padded to two characters is two digits that read back as that number. */
  lemma TwoDigits(n: int)
    requires 0 <= n < 100
    ensures var f := PadStart(IntToString(n), 2, '0');
      |f| == 2 && AllDigits(f) && DecimalValue(f) == n
  {
    var s := IntToString(n);
    var f := PadStart(s, 2, '0');
    if n < 10 {
      assert f == ['0'] + s;
      assert f[..1] == ['0'];
      assert DecimalValue(['0']) == 0 by { assert ['0'][..0] == []; }
      assert s[..0] == [];
    } else {
      assert f == s;
    }
  }

  /** Where the fields of `a/b/c` sit when the first two have two characters each. */
  lemma FieldsAt(a: string, b: string, c: string)
    requires |a| == 2 && |b| == 2
    ensures var r := a + "/" + b + "/" + c;
      |r| == 6 + |c| && r[..2] == a && r[2] == '/' && r[3..5] == b && r[5] == '/' && r[6..] == c
  {
  }

  /** Omitting the format argument gives day/month/year. */
  lemma DefaultIsDmy(date: DateValue)
    ensures FormatDate(date, None) == FormatDate(date, Some(Dmy))
  {
  }

  /** The day field of an in-range date is two digits reading as the day. */
  lemma DayFieldDigits(date: DateValue)
    requires InCalendarRange(date)
    ensures |DayField(date)| == 2 && AllDigits(DayField(date)) && DecimalValue(DayField(date)) == date.day
  {
    assert NumberToString(GetUtcDate(date)) == IntToString(date.day);
    TwoDigits(date.day);
  }

  /** The month field of an in-range date is two digits reading as the 1-based month. */
  lemma MonthFieldDigits(date: DateValue)
    requires InCalendarRange(date)
    ensures |MonthField(date)| == 2 && AllDigits(MonthField(date)) && DecimalValue(MonthField(date)) == date.month0 + 1
  {
    assert NumberToString(PlusOne(GetUtcMonth(date))) == IntToString(date.month0 + 1);
    TwoDigits(date.month0 + 1);
  }

  /** r reads as `FF/SS/Y`: two digits worth `first`, '/', two digits worth `second`, '/', then the printed year. */
  predicate SlashLayout(r: string, first: int, second: int, year: int) {
    && |r| >= 7 && r[2] == '/' && r[5] == '/'
    && AllDigits(r[..2]) && DecimalValue(r[..2]) == first
    && AllDigits(r[3..5]) && DecimalValue(r[3..5]) == second
    && r[6..] == IntToString(year)
  }

  /** Two two-digit fields and a year field, joined by slashes, have that layout. */
  lemma JoinedLayout(a: string, b: string, y: string, va: int, vb: int, year: int)
    requires |a| == 2 && AllDigits(a) && DecimalValue(a) == va
    requires |b| == 2 && AllDigits(b) && DecimalValue(b) == vb
    requires y == IntToString(year)
    ensures SlashLayout(a + "/" + b + "/" + y, va, vb, year)
  {
    FieldsAt(a, b, y);
  }

  /** Day first: the three fields joined by slashes, the year printed in full. */
  lemma DmyJoin(date: DateValue)
    requires date.UtcDate?
    ensures FormatDate(date, Some(Dmy)) == DayField(date) + "/" + MonthField(date) + "/" + YearField(date)
    ensures YearField(date) == IntToString(date.year)
  {
  }

  /** Month first: the three fields joined by slashes, the year printed in full. */
  lemma MdyJoin(date: DateValue)
    requires date.UtcDate?
    ensures FormatDate(date, Some(Mdy)) == MonthField(date) + "/" + DayField(date) + "/" + YearField(date)
    ensures YearField(date) == IntToString(date.year)
  {
  }

  /** The fields of a day/month/year rendering of an in-range date: DD, '/', MM, '/', then the unpadded year. */
  lemma DmyLayout(date: DateValue)
    requires InCalendarRange(date)
    ensures SlashLayout(FormatDate(date, Some(Dmy)), date.day, date.month0 + 1, date.year)
  {
    DayFieldDigits(date);
    MonthFieldDigits(date);
    DmyJoin(date);
    JoinedLayout(DayField(date), MonthField(date), YearField(date), date.day, date.month0 + 1, date.year);
  }

  /** The fields of a month/day/year rendering of an in-range date: MM, '/', DD, '/', then the unpadded year. */
  lemma MdyLayout(date: DateValue)
    requires InCalendarRange(date)
    ensures SlashLayout(FormatDate(date, Some(Mdy)), date.month0 + 1, date.day, date.year)
  {
    DayFieldDigits(date);
    MonthFieldDigits(date);
    MdyJoin(date);
    JoinedLayout(MonthField(date), DayField(date), YearField(date), date.month0 + 1, date.day, date.year);
  }

  /** For every date, Invalid Date included, the two formats differ only by the order of their first two fields. */
  lemma FormatsSwapFirstFields(date: DateValue)
    ensures |Split(FormatDate(date, Some(Dmy)), '/')| == 3
    ensures var f := Split(FormatDate(date, Some(Dmy)), '/');
      Split(FormatDate(date, Some(Mdy)), '/') == [f[1], f[0], f[2]]
  {
    var day, month, year := DayField(date), MonthField(date), YearField(date);
    NoSlashInNumber(GetUtcDate(date));
    NoSlashInNumber(PlusOne(GetUtcMonth(date)));
    NoSlashInNumber(GetUtcFullYear(date));
    SplitThree(day, month, year, '/');
    SplitThree(month, day, year, '/');
  }

  /** An in-range date is recovered from its rendering: different dates never print alike. */
  lemma FormatIsInjective(d1: DateValue, d2: DateValue, format: Option<DateFormat>)
    requires InCalendarRange(d1) && InCalendarRange(d2)
    requires FormatDate(d1, format) == FormatDate(d2, format)
    ensures d1 == d2
  {
    DmyLayout(d1);
    DmyLayout(d2);
    MdyLayout(d1);
    MdyLayout(d2);
    IntToStringInjective(d1.year, d2.year);
  }

  /** An Invalid Date prints NaN in every field. */
  lemma InvalidDatePrintsNaN(format: Option<DateFormat>)
    ensures FormatDate(InvalidDate, format) == "NaN/NaN/NaN"
  {
  }

  /** The three numbers of the example date, printed. */
  lemma ExampleNumerals()
    ensures IntToString(2024) == "2024" && IntToString(15) == "15" && IntToString(6) == "6"
  {
    assert NatToString(20) == "20";
    assert NatToString(202) == "202";
    assert NatToString(2024) == "2024";
    assert NatToString(15) == "15";
  }

  /** The three fields of the example date. */
  lemma ExampleFields()
    ensures DayField(UtcDate(2024, 5, 15)) == "15"
    ensures MonthField(UtcDate(2024, 5, 15)) == "06"
    ensures YearField(UtcDate(2024, 5, 15)) == "2024"
  {
    ExampleNumerals();
    assert NumberToString(Some(15)) == "15";
    assert NumberToString(Some(6)) == "6";
    assert PadStart("6", 2, '0') == "06";
  }

  /** A date whose fields print as given renders as those fields, in either order. */
  lemma RenderedFrom(date: DateValue, day: string, month: string, year: string, dmy: string, mdy: string)
    requires DayField(date) == day && MonthField(date) == month && YearField(date) == year
    requires dmy == day + "/" + month + "/" + year && mdy == month + "/" + day + "/" + year
    ensures FormatDate(date, None) == dmy
    ensures FormatDate(date, Some(Mdy)) == mdy
  {
  }

  /** The example's fields joined by '/', in both orders. */
  lemma ExampleJoins()
    ensures "15/06/2024" == "15" + "/" + "06" + "/" + "2024"
    ensures "06/15/2024" == "06" + "/" + "15" + "/" + "2024"
  {
  }

  /** 15 June 2024, as the UTC getters report it. */
  const MidJune2024 := UtcDate(2024, 5, 15)

  /** 15 June 2024 (UTC) prints as 15/06/2024 by default and 06/15/2024 month first. */
  lemma ExampleDate()
    ensures FormatDate(MidJune2024, None) == "15/06/2024"
    ensures FormatDate(MidJune2024, Some(Mdy)) == "06/15/2024"
  {
    ExampleFields();
    ExampleJoins();
    RenderedFrom(MidJune2024, "15", "06", "2024", "15/06/2024", "06/15/2024");
  }
}
