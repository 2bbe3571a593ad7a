/**
 * The static helpers of the client's DateUtils class: ISO `YYYY-MM-DD`
 * strings read and written at local midnight, over the calendar of module
 * Calendar. The local time zone is assumed to have no daylight-saving
 * changes, so every local day lasts exactly MsPerDay milliseconds.
 */
module DateUtils {
  import opened Calendar
  import opened Values

  const MsPerDay: int := 86400000

  /** A Date object in local time: an Invalid Date (time value NaN), or a local
      day number with the milliseconds elapsed since that day's midnight. */
  datatype JsDate = InvalidDate | Moment(day: int, ms: int)

  /** What the JavaScript engine makes of `new Date(s + 'T00:00:00')`: the local
      day whose midnight it denotes, or None for an Invalid Date. Which strings an
      engine accepts is implementation-defined (ECMA-262 section 21.4.3.2,
      Date.parse), so the engine is a parameter of every parsing operation. */
  type DateParser = string -> Option<int>

  // ---------------------------------------------------------------------------
  // Decimal strings

  predicate IsDigit(c: char) {
    '0' <= c <= '9'
  }

  function DigitChar(n: int): (c: char)
    requires 0 <= n <= 9
    ensures IsDigit(c)
  {
    (48 + n) as char
  }

  function DigitValue(c: char): (n: int)
    requires IsDigit(c)
    ensures 0 <= n <= 9 && DigitChar(n) == c
  {
    c as int - 48
  }

  /** `String(n)` for a non-negative integer. */
  function NatToString(n: nat): (s: string)
    ensures 1 <= |s|
  {
    if n < 10 then [DigitChar(n)] else NatToString(n / 10) + [DigitChar(n % 10)]
  }

  /** `String(i)` for an integer. */
  function IntToString(i: int): string {
    if i < 0 then "-" + NatToString(-i) else NatToString(i)
  }

  /** `s.padStart(2, '0')`. */
  function Pad2(s: string): (r: string)
    ensures |r| == if |s| < 2 then 2 else |s|
    ensures r[|r| - |s|..] == s
    ensures forall i :: 0 <= i < |r| - |s| ==> r[i] == '0'
  {
    if |s| == 0 then "00" else if |s| == 1 then ['0'] + s else s
  }

  /** `${ano}-${mes}-${dia}` with month and day padded to two digits. */
  function LocalDateString(d: CivilDate): string {
    IntToString(d.year) + "-" + Pad2(IntToString(d.month)) + "-" + Pad2(IntToString(d.day))
  }

  /** The pt-BR short date pattern `dd/mm/aaaa`. */
  function BrazilianDateString(d: CivilDate): string {
    Pad2(IntToString(d.day)) + "/" + Pad2(IntToString(d.month)) + "/" + IntToString(d.year)
  }

  // ---------------------------------------------------------------------------
  // Well-formed ISO dates and the engines that accept them

  predicate IsoShape(s: string) {
    |s| == 10 && s[4] == '-' && s[7] == '-'
    && IsDigit(s[0]) && IsDigit(s[1]) && IsDigit(s[2]) && IsDigit(s[3])
    && IsDigit(s[5]) && IsDigit(s[6]) && IsDigit(s[8]) && IsDigit(s[9])
  }

  /** The strict reading of `YYYY-MM-DD`: four year digits, two month digits and
      two day digits that together name a real calendar day. */
  function ParseIso(s: string): (r: Option<CivilDate>)
    ensures r.Some? ==> ValidDate(r.value) && 0 <= r.value.year <= 9999
    ensures r.Some? ==> IsoShape(s)
  {
    if !IsoShape(s) then None
    else
      var d := CivilDate(1000 * DigitValue(s[0]) + 100 * DigitValue(s[1]) + 10 * DigitValue(s[2]) + DigitValue(s[3]),
                         10 * DigitValue(s[5]) + DigitValue(s[6]),
                         10 * DigitValue(s[8]) + DigitValue(s[9]));
      if ValidDate(d) then Some(d) else None
  }

  /** What every conforming engine does: a well-formed date-only string read with
      the time `T00:00:00` is that day's local midnight, and the bare time string
      that an empty input leaves is an Invalid Date. */
  ghost predicate Conservative(parse: DateParser) {
    && parse("") == None
    && forall s :: ParseIso(s).Some? ==> parse(s) == Some(DayNumber(ParseIso(s).value))
  }

  // ---------------------------------------------------------------------------
  // Steps of the ECMAScript Date algorithms

  /** `new Date(s + 'T00:00:00')` */
  function NewDate(parse: DateParser, s: string): (t: JsDate)
    ensures t.Moment? <==> parse(s).Some?
    ensures t.Moment? ==> t.ms == 0
    ensures Conservative(parse) && ParseIso(s).Some? ==> t == Moment(DayNumber(ParseIso(s).value), 0)
  {
    match parse(s)
    case None => InvalidDate
    case Some(n) => Moment(n, 0)
  }

  /** MakeFullYear of ECMA-262: the Date constructor reads years 0 to 99 as 1900 to 1999. */
  function MakeFullYear(y: int): int {
    if 0 <= y <= 99 then 1900 + y else y
  }

  /** MakeDay of ECMA-262 with a zero-based month m that may lie outside 0..11 and
      a day of the month dt that may lie outside the month. */
  function MakeDay(y: int, m: int, dt: int): int {
    DayNumber(CivilDate(y + m / 12, m % 12 + 1, 1)) + dt - 1
  }

  /** `date.getDate()` in local time (NaN for an Invalid Date is never used). */
  function GetDate(t: JsDate): int
    requires t.Moment?
  {
    FromDayNumber(t.day).day
  }

  /** `date.setDate(dt)`: keep the year, the month and the time of day, set the day of the month. */
  function SetDate(t: JsDate, dt: int): JsDate {
    match t
    case InvalidDate => InvalidDate
    case Moment(n, ms) =>
      var c := FromDayNumber(n);
      Moment(MakeDay(c.year, c.month - 1, dt), ms)
  }

  /** `a < b` on Date objects: compares time values; false when either is NaN. */
  predicate Before(a: JsDate, b: JsDate) {
    a.Moment? && b.Moment? && (a.day < b.day || (a.day == b.day && a.ms < b.ms))
  }

  /** `Math.ceil(x / y)` for a positive divisor. */
  function CeilDiv(x: int, y: int): int
    requires y > 0
  {
    -((-x) / y)
  }

  // ---------------------------------------------------------------------------
  // The DateUtils operations

  /** getDataLocal(): today's local date, the clock being the parameter. */
  function GetDataLocal(now: JsDate): string {
    GetDataLocalFromDate(now)
  }

  /** getDataLocalFromDate(date) */
  function GetDataLocalFromDate(date: JsDate): string {
    match date
    case InvalidDate => "NaN-NaN-NaN"
    case Moment(n, _) => LocalDateString(FromDayNumber(n))
  }

  /** getMesLocal(): the current local month as `YYYY-MM`. */
  function GetMesLocal(now: JsDate): string {
    match now
    case InvalidDate => "NaN-NaN"
    case Moment(n, _) =>
      var c := FromDayNumber(n);
      IntToString(c.year) + "-" + Pad2(IntToString(c.month))
  }

  /** formatarDataBrasil(dataString) */
  function FormatarDataBrasil(parse: DateParser, s: string): string {
    if s == "" then ""
    else
      match NewDate(parse, s)
      case InvalidDate => s
      case Moment(n, _) => BrazilianDateString(FromDayNumber(n))
  }

  /** isValidDate(dataString) */
  function IsValidDate(parse: DateParser, s: string): (valid: bool)
    ensures s == "" ==> !valid
    ensures Conservative(parse) && ParseIso(s).Some? ==> valid
    ensures valid <==> s != "" && parse(s).Some?
  {
    s != "" && NewDate(parse, s).Moment?
  }

  /** getPrimeiroDiaMes(ano, mes) */
  function GetPrimeiroDiaMes(ano: int, mes: int): (s: string)
    ensures |s| >= 3 && s[|s| - 3..] == "-01"
  {
    IntToString(ano) + "-" + Pad2(IntToString(mes)) + "-01"
  }

  /** getUltimoDiaMes(ano, mes): day 0 of zero-based month `mes` is the last day of the month before it. */
  function GetUltimoDiaMes(ano: int, mes: int): string {
    var ultimoDia := FromDayNumber(MakeDay(MakeFullYear(ano), mes, 0)).day;
    IntToString(ano) + "-" + Pad2(IntToString(mes)) + "-" + Pad2(IntToString(ultimoDia))
  }

  /** adicionarDias(dataString, dias) */
  function AdicionarDias(parse: DateParser, s: string, dias: int): string {
    var data := NewDate(parse, s);
    match data
    case InvalidDate => GetDataLocalFromDate(InvalidDate)
    case Moment(_, _) => GetDataLocalFromDate(SetDate(data, GetDate(data) + dias))
  }

  /** subtrairDias(dataString, dias) */
  function SubtrairDias(parse: DateParser, s: string, dias: int): string {
    AdicionarDias(parse, s, -dias)
  }

  /** isPassado(dataString): before today's local midnight. */
  function IsPassado(parse: DateParser, s: string, now: JsDate): bool {
    var hoje := match now
      case InvalidDate => InvalidDate
      case Moment(n, _) => Moment(n, 0);
    Before(NewDate(parse, s), hoje)
  }

  /** diferencaDias(dataInicio, dataFim): None stands for NaN. */
  function DiferencaDias(parse: DateParser, inicio: string, fim: string): Option<int> {
    match (NewDate(parse, inicio), NewDate(parse, fim))
    case (Moment(a, msA), Moment(b, msB)) =>
      Some(CeilDiv((b * MsPerDay + msB) - (a * MsPerDay + msA), MsPerDay))
    case _ => None
  }

  // ---------------------------------------------------------------------------
  // Decimal strings of small numbers

  lemma Pad2Digits(n: int)
    requires 0 <= n <= 99
    ensures Pad2(IntToString(n)) == [DigitChar(n / 10), DigitChar(n % 10)]
  {
    if n >= 10 {
      assert NatToString(n) == NatToString(n / 10) + [DigitChar(n % 10)];
    }
  }

  lemma FourDigits(y: int)
    requires 1000 <= y <= 9999
    ensures IntToString(y) == [DigitChar(y / 1000), DigitChar(y / 100 % 10), DigitChar(y / 10 % 10), DigitChar(y % 10)]
  {
    assert y / 10 / 10 == y / 100 && y / 100 / 10 == y / 1000;
    assert NatToString(y / 1000) == [DigitChar(y / 1000)];
    assert NatToString(y / 100) == [DigitChar(y / 1000), DigitChar(y / 100 % 10)];
    assert NatToString(y / 10) == [DigitChar(y / 1000), DigitChar(y / 100 % 10), DigitChar(y / 10 % 10)];
  }

  lemma Recompose(y: int)
    requires 0 <= y <= 9999
    ensures 1000 * (y / 1000) + 100 * (y / 100 % 10) + 10 * (y / 10 % 10) + y % 10 == y
    ensures (y / 10) / 10 == y / 100 && (y / 100) / 10 == y / 1000 && (y / 10) % 10 == y / 10 % 10
  {
    var q1, q2, q3 := y / 10, y / 100, y / 1000;
    assert y == 10 * q1 + y % 10;
    assert q1 / 10 == q2;
    assert q2 / 10 == q3;
    assert q1 == 10 * q2 + q1 % 10;
    assert q2 == 10 * q3 + q2 % 10;
  }

  lemma Decompose(a: int, b: int, c: int, e: int)
    requires 0 <= a <= 9 && 0 <= b <= 9 && 0 <= c <= 9 && 0 <= e <= 9
    ensures var y := 1000 * a + 100 * b + 10 * c + e;
      y / 1000 == a && y / 100 % 10 == b && y / 10 % 10 == c && y % 10 == e
  {
    var y := 1000 * a + 100 * b + 10 * c + e;
    assert y / 10 == 100 * a + 10 * b + c;
    assert y / 100 == 10 * a + b;
  }

  lemma TwoDecompose(a: int, b: int)
    requires 0 <= a <= 9 && 0 <= b <= 9
    ensures (10 * a + b) / 10 == a && (10 * a + b) % 10 == b
  {
  }

  lemma TwoRecompose(n: int)
    requires 0 <= n <= 99
    ensures 10 * (n / 10) + n % 10 == n
  {
  }

  lemma LocalDateStringChars(d: CivilDate)
    requires ValidDate(d) && 1000 <= d.year <= 9999
    ensures LocalDateString(d) == [DigitChar(d.year / 1000), DigitChar(d.year / 100 % 10), DigitChar(d.year / 10 % 10),
                                   DigitChar(d.year % 10), '-', DigitChar(d.month / 10), DigitChar(d.month % 10), '-',
                                   DigitChar(d.day / 10), DigitChar(d.day % 10)]
  {
    FourDigits(d.year);
    Pad2Digits(d.month);
    Pad2Digits(d.day);
  }

  // ---------------------------------------------------------------------------
  // Round trips between dates and their ISO strings

  /** The strict reading of ten characters laid out as `YYYY-MM-DD`. */
  lemma IsoOfDigits(y1: int, y2: int, y3: int, y4: int, m1: int, m2: int, d1: int, d2: int)
    requires 0 <= y1 <= 9 && 0 <= y2 <= 9 && 0 <= y3 <= 9 && 0 <= y4 <= 9
    requires 0 <= m1 <= 9 && 0 <= m2 <= 9 && 0 <= d1 <= 9 && 0 <= d2 <= 9
    ensures var s := [DigitChar(y1), DigitChar(y2), DigitChar(y3), DigitChar(y4), '-',
                      DigitChar(m1), DigitChar(m2), '-', DigitChar(d1), DigitChar(d2)];
      var d := CivilDate(1000 * y1 + 100 * y2 + 10 * y3 + y4, 10 * m1 + m2, 10 * d1 + d2);
      IsoShape(s) && ParseIso(s) == if ValidDate(d) then Some(d) else None
  {
    var s := [DigitChar(y1), DigitChar(y2), DigitChar(y3), DigitChar(y4), '-',
              DigitChar(m1), DigitChar(m2), '-', DigitChar(d1), DigitChar(d2)];
    assert DigitValue(s[0]) == y1 && DigitValue(s[1]) == y2 && DigitValue(s[2]) == y3 && DigitValue(s[3]) == y4;
    assert DigitValue(s[5]) == m1 && DigitValue(s[6]) == m2 && DigitValue(s[8]) == d1 && DigitValue(s[9]) == d2;
  }

  /** A date with a four-digit year is written as a well-formed ISO string that reads back as itself. */
  lemma {:induction false} ParseLocalDateString(d: CivilDate)
    requires ValidDate(d) && 1000 <= d.year <= 9999
    ensures IsoShape(LocalDateString(d))
    ensures ParseIso(LocalDateString(d)) == Some(d)
  {
    var y1, y2, y3, y4 := d.year / 1000, d.year / 100 % 10, d.year / 10 % 10, d.year % 10;
    var m1, m2, d1, d2 := d.month / 10, d.month % 10, d.day / 10, d.day % 10;
    Recompose(d.year);
    TwoRecompose(d.month);
    TwoRecompose(d.day);
    assert CivilDate(1000 * y1 + 100 * y2 + 10 * y3 + y4, 10 * m1 + m2, 10 * d1 + d2) == d;
    LocalDateStringChars(d);
    hide LocalDateString, ParseIso, IsoShape, DigitChar;
    IsoOfDigits(y1, y2, y3, y4, m1, m2, d1, d2);
  }

  /** A well-formed ISO string whose year has no leading zero is the normal form of its date. */
  lemma {:induction false} LocalDateStringOfParse(s: string)
    requires ParseIso(s).Some? && ParseIso(s).value.year >= 1000
    ensures LocalDateString(ParseIso(s).value) == s
  {
    var d := ParseIso(s).value;
    assert IsoShape(s);
    var a, b, c, e := DigitValue(s[0]), DigitValue(s[1]), DigitValue(s[2]), DigitValue(s[3]);
    var m1, m2, d1, d2 := DigitValue(s[5]), DigitValue(s[6]), DigitValue(s[8]), DigitValue(s[9]);
    assert d == CivilDate(1000 * a + 100 * b + 10 * c + e, 10 * m1 + m2, 10 * d1 + d2);
    LocalDateStringChars(d);
    hide LocalDateString, ParseIso;
    Decompose(a, b, c, e);
    TwoDecompose(m1, m2);
    TwoDecompose(d1, d2);
    assert s == [s[0], s[1], s[2], s[3], s[4], s[5], s[6], s[7], s[8], s[9]];
  }

  /** getDataLocalFromDate writes `YYYY-MM-DD` with a two-digit month and day, and
      reading that string back at local midnight lands on the same local day. */
  lemma {:induction false} GetDataLocalFromDateRoundTrip(parse: DateParser, date: JsDate)
    requires Conservative(parse)
    requires date.Moment? && 1000 <= FromDayNumber(date.day).year <= 9999
    ensures ParseIso(GetDataLocalFromDate(date)) == Some(FromDayNumber(date.day))
    ensures NewDate(parse, GetDataLocalFromDate(date)) == Moment(date.day, 0)
  {
    hide FromDayNumber, YearOf, MonthOf, DaysBeforeYear, LocalDateString, ParseIso;
    FromDayNumberInverse(date.day);
    ParseLocalDateString(FromDayNumber(date.day));
  }

  /** getMesLocal is getDataLocal without its day. */
  lemma {:induction false} GetMesLocalIsPrefix(now: JsDate)
    requires now.Moment?
    ensures GetDataLocal(now) == GetMesLocal(now) + "-" + Pad2(IntToString(FromDayNumber(now.day).day))
  {
    hide FromDayNumber, IntToString, Pad2;
    var c := FromDayNumber(now.day);
    assert GetDataLocal(now) == LocalDateString(c);
  }

  // ---------------------------------------------------------------------------
  // Validity and formatting

  /** formatarDataBrasil: empty stays empty, an Invalid Date returns the input, and a
      well-formed date is rewritten day first. */
  lemma {:induction false} FormatarDataBrasilCases(parse: DateParser, s: string)
    ensures FormatarDataBrasil(parse, "") == ""
    ensures !IsValidDate(parse, s) ==> FormatarDataBrasil(parse, s) == s
    ensures Conservative(parse) && ParseIso(s).Some? ==> FormatarDataBrasil(parse, s) == BrazilianDateString(ParseIso(s).value)
  {
    hide FromDayNumber, YearOf, MonthOf, DaysBeforeYear, BrazilianDateString, ParseIso, DayNumber;
    if Conservative(parse) && ParseIso(s).Some? {
      DayNumberInverse(ParseIso(s).value);
    }
  }

  // ---------------------------------------------------------------------------
  // First and last day of a month

  lemma {:induction false} PrimeiroDiaMesParses(ano: int, mes: int)
    requires 1000 <= ano <= 9999 && 1 <= mes <= 12
    ensures GetPrimeiroDiaMes(ano, mes)[7..] == "-01"
    ensures GetPrimeiroDiaMes(ano, mes) == LocalDateString(CivilDate(ano, mes, 1))
    ensures ParseIso(GetPrimeiroDiaMes(ano, mes)) == Some(CivilDate(ano, mes, 1))
  {
    FourDigits(ano);
    Pad2Digits(mes);
    Pad2Digits(1);
    ParseLocalDateString(CivilDate(ano, mes, 1));
  }

  /** The day of the month that getUltimoDiaMes computes for a month 1..12 of a year from 100 on. */
  lemma {:induction false} UltimoDiaIsDaysInMonth(ano: int, mes: int)
    requires ano >= 100 && 1 <= mes <= 12
    ensures FromDayNumber(MakeDay(MakeFullYear(ano), mes, 0)) == CivilDate(ano, mes, DaysInMonth(ano, mes))
  {
    hide FromDayNumber, YearOf, MonthOf, DaysBeforeYear;
    MonthEndThenNext(ano, mes);
    var last := CivilDate(ano, mes, DaysInMonth(ano, mes));
    if mes < 12 {
      assert MakeDay(ano, mes, 0) == DayNumber(CivilDate(ano, mes + 1, 1)) - 1;
    } else {
      assert MakeDay(ano, mes, 0) == DayNumber(CivilDate(ano + 1, 1, 1)) - 1;
    }
    DayNumberInverse(last);
  }

  /** getUltimoDiaMes(ano, mes) is `ano-MM-DD` with DD the length of the month. */
  lemma {:induction false} UltimoDiaMes(ano: int, mes: int)
    requires ano >= 100 && 1 <= mes <= 12
    ensures GetUltimoDiaMes(ano, mes) == IntToString(ano) + "-" + Pad2(IntToString(mes)) + "-" + Pad2(IntToString(DaysInMonth(ano, mes)))
    ensures GetUltimoDiaMes(ano, mes) == LocalDateString(CivilDate(ano, mes, DaysInMonth(ano, mes)))
    ensures 1000 <= ano <= 9999 ==> ParseIso(GetUltimoDiaMes(ano, mes)) == Some(CivilDate(ano, mes, DaysInMonth(ano, mes)))
  {
    hide FromDayNumber, YearOf, MonthOf, DaysBeforeYear, MakeDay, IntToString, Pad2, ParseIso;
    UltimoDiaIsDaysInMonth(ano, mes);
    if 1000 <= ano <= 9999 {
      ParseLocalDateString(CivilDate(ano, mes, DaysInMonth(ano, mes)));
    }
  }

  /** February ends on the 29th exactly in Gregorian leap years. */
  lemma {:induction false} UltimoDiaFevereiro(ano: int)
    requires ano >= 100
    ensures GetUltimoDiaMes(ano, 2) == IntToString(ano) + "-" + "02" + "-" + (if IsLeapYear(ano) then "29" else "28")
  {
    assert Pad2(IntToString(2)) == "02";
    assert Pad2(IntToString(28)) == "28";
    assert Pad2(IntToString(29)) == "29";
    UltimoDiaMes(ano, 2);
    hide GetUltimoDiaMes, IntToString, Pad2;
  }

  /** The year-0..99 reading of the Date constructor: for year 0 (a leap year of the
      proleptic calendar) February is taken from 1900, which is not. */
  lemma {:induction false} UltimoDiaTwoDigitYear()
    ensures IsLeapYear(0) && !IsLeapYear(1900)
    ensures GetUltimoDiaMes(0, 2) == "0-02-28"
  {
    assert IntToString(0) + "-" + Pad2(IntToString(2)) + "-" + Pad2(IntToString(28)) == "0-02-28";
    UltimoDiaIsDaysInMonth(1900, 2);
    hide FromDayNumber, YearOf, MonthOf, DaysBeforeYear, MakeDay, IntToString, Pad2;
    assert MakeFullYear(0) == MakeFullYear(1900);
  }

  // ---------------------------------------------------------------------------
  // Adding and subtracting days

  /** setDate(getDate() + dias) moves a Date by dias whole days, carrying over months and years. */
  lemma {:induction false} SetDateShift(n: int, ms: int, dias: int)
    ensures SetDate(Moment(n, ms), GetDate(Moment(n, ms)) + dias) == Moment(n + dias, ms)
  {
    hide FromDayNumber, YearOf, MonthOf, DaysBeforeYear;
    var c := FromDayNumber(n);
    FromDayNumberInverse(n);
    assert (c.month - 1) / 12 == 0 && (c.month - 1) % 12 == c.month - 1;
  }

  /** adicionarDias writes the day dias days after the parsed one; an Invalid Date gives NaN fields. */
  lemma {:induction false} AdicionarDiasShifts(parse: DateParser, s: string, dias: int)
    ensures parse(s).None? ==> AdicionarDias(parse, s, dias) == "NaN-NaN-NaN"
    ensures parse(s).Some? ==> AdicionarDias(parse, s, dias) == LocalDateString(FromDayNumber(parse(s).value + dias))
  {
    hide FromDayNumber, YearOf, MonthOf, DaysBeforeYear, DayNumber, MakeDay, SetDate, GetDate, LocalDateString;
    if parse(s).Some? {
      SetDateShift(parse(s).value, 0, dias);
    }
  }

  /** On a well-formed input the result is the well-formed ISO string of the day dias days later. */
  lemma {:induction false} AdicionarDiasNormalised(parse: DateParser, s: string, dias: int)
    requires Conservative(parse) && ParseIso(s).Some?
    requires 1000 <= FromDayNumber(DayNumber(ParseIso(s).value) + dias).year <= 9999
    ensures IsoShape(AdicionarDias(parse, s, dias))
    ensures ParseIso(AdicionarDias(parse, s, dias)) == Some(FromDayNumber(DayNumber(ParseIso(s).value) + dias))
  {
    hide FromDayNumber, YearOf, MonthOf, DaysBeforeYear, DayNumber, LocalDateString, ParseIso, IsoShape, AdicionarDias;
    AdicionarDiasShifts(parse, s, dias);
    var e := FromDayNumber(DayNumber(ParseIso(s).value) + dias);
    FromDayNumberInverse(DayNumber(ParseIso(s).value) + dias);
    ParseLocalDateString(e);
  }

  /** Adding no days returns a normalised date unchanged. */
  lemma {:induction false} AdicionarZeroDias(parse: DateParser, s: string)
    requires Conservative(parse) && ParseIso(s).Some? && ParseIso(s).value.year >= 1000
    ensures AdicionarDias(parse, s, 0) == s
  {
    hide FromDayNumber, YearOf, MonthOf, DaysBeforeYear, DayNumber, LocalDateString, ParseIso, AdicionarDias;
    AdicionarDiasShifts(parse, s, 0);
    DayNumberInverse(ParseIso(s).value);
    LocalDateStringOfParse(s);
  }

  /** The year is written without padding, so adding no days to a date of a three-digit
      year drops its leading zero. */
  lemma {:induction false} AdicionarZeroDiasThreeDigitYear(parse: DateParser)
    requires Conservative(parse)
    ensures AdicionarDias(parse, "0999-01-01", 0) == "999-01-01"
  {
    var d := CivilDate(999, 1, 1);
    assert ParseIso("0999-01-01") == Some(d);
    assert LocalDateString(d) == "999-01-01";
    hide FromDayNumber, YearOf, MonthOf, DaysBeforeYear, DayNumber, LocalDateString, ParseIso, AdicionarDias;
    AdicionarDiasShifts(parse, "0999-01-01", 0);
    DayNumberInverse(d);
  }

  /** adicionarDias on a normalised date whose target day is known: the result is that day's text. */
  lemma {:induction false} AdicionarDiasTo(parse: DateParser, s: string, t: string, dias: int)
    requires Conservative(parse)
    requires ParseIso(s).Some? && ParseIso(t).Some? && ParseIso(t).value.year >= 1000
    requires DayNumber(ParseIso(t).value) == DayNumber(ParseIso(s).value) + dias
    ensures AdicionarDias(parse, s, dias) == t
  {
    hide FromDayNumber, YearOf, MonthOf, DaysBeforeYear, ParseIso, DayNumber, LocalDateString, AdicionarDias;
    AdicionarDiasShifts(parse, s, dias);
    DayNumberInverse(ParseIso(t).value);
    LocalDateStringOfParse(t);
  }

  /** The strict reading on sample strings: real days are read, a 29 February of a
      common year and a text without its padding are not. */
  lemma IsoExamples()
    ensures ParseIso("2024-02-28") == Some(CivilDate(2024, 2, 28))
    ensures ParseIso("2024-02-29") == Some(CivilDate(2024, 2, 29))
    ensures ParseIso("2023-02-28") == Some(CivilDate(2023, 2, 28))
    ensures ParseIso("2023-03-01") == Some(CivilDate(2023, 3, 1))
    ensures ParseIso("2023-02-29") == None
    ensures ParseIso("2024-2-29") == None
  {
  }

  lemma IsoYearEndExamples()
    ensures ParseIso("2024-12-31") == Some(CivilDate(2024, 12, 31))
    ensures ParseIso("2025-01-01") == Some(CivilDate(2025, 1, 1))
    ensures ParseIso("2024-01-01") == Some(CivilDate(2024, 1, 1))
    ensures ParseIso("2024-01-10") == Some(CivilDate(2024, 1, 10))
  {
  }

  /** Worked examples: a leap day, a common-year February and a year end. */
  lemma {:induction false} AdicionarDiasLeapDay(parse: DateParser)
    requires Conservative(parse)
    ensures AdicionarDias(parse, "2024-02-28", 1) == "2024-02-29"
  {
    IsoExamples();
    hide FromDayNumber, YearOf, MonthOf, DaysBeforeYear, LocalDateString, AdicionarDias, ParseIso;
    AdicionarDiasTo(parse, "2024-02-28", "2024-02-29", 1);
  }

  lemma {:induction false} AdicionarDiasCommonFebruary(parse: DateParser)
    requires Conservative(parse)
    ensures AdicionarDias(parse, "2023-02-28", 1) == "2023-03-01"
  {
    IsoExamples();
    hide FromDayNumber, YearOf, MonthOf, DaysBeforeYear, LocalDateString, AdicionarDias, ParseIso;
    AdicionarDiasTo(parse, "2023-02-28", "2023-03-01", 1);
  }

  lemma {:induction false} AdicionarDiasYearEnd(parse: DateParser)
    requires Conservative(parse)
    ensures AdicionarDias(parse, "2024-12-31", 1) == "2025-01-01"
  {
    IsoYearEndExamples();
    hide FromDayNumber, YearOf, MonthOf, DaysBeforeYear, LocalDateString, AdicionarDias, ParseIso;
    YearStep(2024);
    AdicionarDiasTo(parse, "2024-12-31", "2025-01-01", 1);
  }

  /** subtrairDias undoes adicionarDias on a normalised date when the intermediate date keeps a four-digit year. */
  lemma {:induction false} SubtrairDiasUndoes(parse: DateParser, s: string, n: int)
    requires Conservative(parse) && ParseIso(s).Some? && ParseIso(s).value.year >= 1000
    requires 1000 <= FromDayNumber(DayNumber(ParseIso(s).value) + n).year <= 9999
    ensures SubtrairDias(parse, AdicionarDias(parse, s, n), n) == s
  {
    hide FromDayNumber, YearOf, MonthOf, DaysBeforeYear, DayNumber, LocalDateString, ParseIso, IsoShape, AdicionarDias;
    var k := DayNumber(ParseIso(s).value);
    var t := AdicionarDias(parse, s, n);
    AdicionarDiasNormalised(parse, s, n);
    FromDayNumberInverse(k + n);
    assert parse(t) == Some(k + n);
    AdicionarDiasShifts(parse, t, -n);
    assert SubtrairDias(parse, t, n) == LocalDateString(FromDayNumber(k));
    DayNumberInverse(ParseIso(s).value);
    LocalDateStringOfParse(s);
  }

  // ---------------------------------------------------------------------------
  // Past dates and day differences

  /** isPassado holds exactly when the parsed day comes before today; today itself is not past. */
  lemma {:induction false} IsPassadoIff(parse: DateParser, s: string, now: JsDate)
    ensures IsPassado(parse, s, now) <==> parse(s).Some? && now.Moment? && parse(s).value < now.day
    ensures Conservative(parse) && ParseIso(s).Some? && now.Moment? && now.day == DayNumber(ParseIso(s).value)
      ==> !IsPassado(parse, s, now)
  {
    hide DayNumber, ParseIso;
  }

  /** With both dates at local midnight and days of equal length, the rounding of diferencaDias is exact. */
  lemma {:induction false} DiferencaDiasExact(parse: DateParser, inicio: string, fim: string)
    ensures DiferencaDias(parse, inicio, fim) ==
      if parse(inicio).Some? && parse(fim).Some? then Some(parse(fim).value - parse(inicio).value) else None
  {
    if parse(inicio).Some? && parse(fim).Some? {
      var a, b := parse(inicio).value, parse(fim).value;
      assert (-(b * MsPerDay - a * MsPerDay)) / MsPerDay == a - b;
    }
  }

  lemma {:induction false} DiferencaDiasAntisymmetric(parse: DateParser, a: string, b: string)
    ensures DiferencaDias(parse, a, b).Some? <==> DiferencaDias(parse, b, a).Some?
    ensures DiferencaDias(parse, a, b).Some? ==> DiferencaDias(parse, a, b).value == -DiferencaDias(parse, b, a).value
  {
    hide DiferencaDias;
    DiferencaDiasExact(parse, a, b);
    DiferencaDiasExact(parse, b, a);
  }

  /** The day difference from a date to n days after it is n. */
  lemma {:induction false} DiferencaDiasAfterAdicionar(parse: DateParser, s: string, n: int)
    requires Conservative(parse) && ParseIso(s).Some?
    requires 1000 <= FromDayNumber(DayNumber(ParseIso(s).value) + n).year <= 9999
    ensures DiferencaDias(parse, s, AdicionarDias(parse, s, n)) == Some(n)
  {
    hide FromDayNumber, YearOf, MonthOf, DaysBeforeYear, DayNumber, ParseIso, IsoShape, AdicionarDias, DiferencaDias;
    var k := DayNumber(ParseIso(s).value);
    AdicionarDiasNormalised(parse, s, n);
    FromDayNumberInverse(k + n);
    DiferencaDiasExact(parse, s, AdicionarDias(parse, s, n));
  }

  lemma {:induction false} DiferencaDiasExample(parse: DateParser)
    requires Conservative(parse)
    ensures DiferencaDias(parse, "2024-01-01", "2024-01-10") == Some(9)
  {
    IsoYearEndExamples();
    hide YearOf, MonthOf, DaysBeforeYear, ParseIso, DiferencaDias;
    DiferencaDiasExact(parse, "2024-01-01", "2024-01-10");
  }

  /** Last day of a month plus one is the first of the next month. */
  lemma {:induction false} UltimoThenPrimeiro(parse: DateParser, ano: int, mes: int)
    requires Conservative(parse) && 1000 <= ano <= 9998 && 1 <= mes <= 12
    ensures AdicionarDias(parse, GetUltimoDiaMes(ano, mes), 1)
      == if mes < 12 then GetPrimeiroDiaMes(ano, mes + 1) else GetPrimeiroDiaMes(ano + 1, 1)
  {
    hide FromDayNumber, YearOf, MonthOf, DaysBeforeYear, DayNumber, LocalDateString, ParseIso, AdicionarDias,
      GetUltimoDiaMes, GetPrimeiroDiaMes;
    var next := if mes < 12 then CivilDate(ano, mes + 1, 1) else CivilDate(ano + 1, 1, 1);
    UltimoDiaMes(ano, mes);
    MonthEndThenNext(ano, mes);
    PrimeiroDiaMesParses(next.year, next.month);
    AdicionarDiasTo(parse, GetUltimoDiaMes(ano, mes), GetPrimeiroDiaMes(next.year, next.month), 1);
  }
}
