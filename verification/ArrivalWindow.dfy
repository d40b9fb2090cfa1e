/** RIV-132: the arrival window, decided by comparing date strings, against day arithmetic. */
module ArrivalWindow {
  import opened Text
  import opened Digits
  import opened CivilDate
  import opened Calendar
  import KeyOrder

  // ---- dates as text ------------------------------------------------------

  function PadStart(s: string, width: nat): string {
    if |s| >= width then s else Zeros(width - |s|) + s
  }

  function IntText(n: int): string {
    if n < 0 then "-" + NatText(-n) else NatText(n)
  }

  function Pad4(n: int): string {
    PadStart(IntText(n), 4)
  }

  function Pad2(n: int): string {
    if n < 10 then "0" + IntText(n) else IntText(n)
  }

  function Format(c: Civil): string {
    Pad4(c.year) + "-" + Pad2(c.month) + "-" + Pad2(c.day)
  }

  // ---- instants -----------------------------------------------------------

  const MS_PER_DAY := 86_400_000

  /** The range of instants that `Date` represents, in days either side of the epoch. */
  const MAX_DAYS := 100_000_000

  function UtcDay(ms: int): int {
    ms / MS_PER_DAY
  }

  predicate ValidTime(ms: int) {
    -MAX_DAYS * MS_PER_DAY <= ms <= MAX_DAYS * MS_PER_DAY
  }

  function FormatTime(ms: int): string {
    if ValidTime(ms) then Format(CivilOf(UtcDay(ms))) else "0NaN-NaN-NaN"
  }

  /** `None` stands for the error thrown for an instant out of range. */
  function DateOnlyUtc(ms: int): Option<string> {
    if ValidTime(ms) then Some(FormatTime(ms)) else None
  }

  /** `Date.UTC` of calendar components: two-digit years mean the twentieth century, months run over into years. */
  function DateUtc(c: Civil): int {
    var year := if 0 <= c.year <= 99 then 1900 + c.year else c.year;
    MS_PER_DAY * (DayNumber(Civil(year + (c.month - 1) / 12, (c.month - 1) % 12 + 1, 1)) + c.day - 1)
  }

  /** `None` stands for the error thrown for text that is not a date. */
  function AddDaysUtc(s: string, n: int): Option<string> {
    if IsYmd(s) then Some(FormatTime(DateUtc(Parts(s)) + n * MS_PER_DAY)) else None
  }

  const WINDOW_DAYS_BEFORE := 60
  const WINDOW_DAYS_AFTER := 180

  /** The rule as it is written: both bounds inclusive, all comparisons on strings. `None` when it throws. */
  function InWindow(arrival: string, receivedAt: int): Option<bool> {
    match DateOnlyUtc(receivedAt)
    case None => None
    case Some(receiptDay) =>
      var lower, upper := AddDaysUtc(receiptDay, -WINDOW_DAYS_BEFORE), AddDaysUtc(receiptDay, WINDOW_DAYS_AFTER);
      if lower.None? || upper.None? then None
      else Some(KeyOrder.Leq(lower.value, arrival) && KeyOrder.Leq(arrival, upper.value))
  }

  // ---- text and dates correspond ------------------------------------------

  lemma {:induction false} NatTextLength(n: nat, k: nat)
    requires k >= 1 && n < Pow10(k)
    ensures |NatText(n)| <= k
  {
    if n >= 10 {
      NatTextLength(n / 10, k - 1);
    }
  }

  lemma {:induction false} NatTextLong(n: nat, k: nat)
    requires n >= Pow10(k)
    ensures |NatText(n)| > k
  {
    if k > 0 {
      NatTextLong(n / 10, k - 1);
    }
  }

  lemma PadStartValue(s: string, width: nat)
    requires AllDigits(s) && |s| <= width
    ensures AllDigits(PadStart(s, width)) && |PadStart(s, width)| == width && Value(PadStart(s, width)) == Value(s)
  {
    if |s| < width {
      ZerosValue(Zeros(width - |s|));
      ValueConcat(Zeros(width - |s|), s);
    }
  }

  lemma Powers()
    ensures Pow10(1) == 10 && Pow10(2) == 100 && Pow10(4) == 10_000
  {
    assert Pow10(3) == 1000;
  }

  lemma Pad4Digits(n: nat)
    requires n <= 9999
    ensures AllDigits(Pad4(n)) && |Pad4(n)| == 4 && Value(Pad4(n)) == n
  {
    Powers();
    NatTextLength(n, 4);
    NatTextValue(n);
    PadStartValue(NatText(n), 4);
  }

  lemma Pad2Digits(n: nat)
    requires n <= 99
    ensures AllDigits(Pad2(n)) && |Pad2(n)| == 2 && Value(Pad2(n)) == n
  {
    hide NatText;
    Powers();
    NatTextValue(n);
    if n < 10 {
      NatTextLength(n, 1);
      ValueConcat("0", NatText(n));
      ZerosValue("0");
    } else {
      NatTextLength(n, 2);
      NatTextLong(n, 1);
    }
  }

  /** The civil dates that have a four-digit year. */
  predicate FourDigitYear(c: Civil) {
    IsCivil(c) && 0 <= c.year <= 9999
  }

  lemma DayBounds(c: Civil)
    requires IsCivil(c)
    ensures 1 <= c.month <= 12 && 1 <= c.day <= 31
  {}

  lemma FormatParts(c: Civil)
    requires FourDigitYear(c)
    ensures IsYmd(Format(c)) && Parts(Format(c)) == c
    ensures Format(c)[..4] == Pad4(c.year) && Format(c)[5..7] == Pad2(c.month) && Format(c)[8..] == Pad2(c.day)
  {
    hide Pad4, Pad2, Value, AllDigits;
    DayBounds(c);
    Pad4Digits(c.year);
    Pad2Digits(c.month);
    Pad2Digits(c.day);
    var s, y, m, d := Format(c), Pad4(c.year), Pad2(c.month), Pad2(c.day);
    assert |s| == 10 && s[4] == '-' && s[7] == '-';
    assert s[..4] == y;
    assert s[5..7] == m;
    assert s[8..] == d;
  }

  lemma ValidFormat(c: Civil)
    requires FourDigitYear(c)
    ensures IsCalendarDate(Format(c))
  {
    FormatParts(c);
  }

  /** A calendar-valid text is the spelling of its date. */
  lemma PartsFormat(s: string)
    requires IsCalendarDate(s)
    ensures FourDigitYear(Parts(s)) && Format(Parts(s)) == s
  {
    hide Pad4, Pad2, Value, Format;
    Powers();
    ValueBound(s[..4]);
    var c := Parts(s);
    DayBounds(c);
    FormatParts(c);
    Pad4Digits(c.year);
    Pad2Digits(c.month);
    Pad2Digits(c.day);
    ValueInjective(s[..4], Pad4(c.year));
    ValueInjective(s[5..7], Pad2(c.month));
    ValueInjective(s[8..], Pad2(c.day));
    var t := Format(c);
    assert s == s[..4] + "-" + s[5..7] + "-" + s[8..];
    assert t == t[..4] + "-" + t[5..7] + "-" + t[8..];
  }

  // ---- the order of the texts is the order of the days --------------------

  lemma {:induction false} LessAppend(a: string, b: string, u: string, v: string)
    requires |a| == |b|
    ensures KeyOrder.Less(a + u, b + v) <==> KeyOrder.Less(a, b) || (a == b && KeyOrder.Less(u, v))
  {
    if a == [] {
      assert a + u == u && b + v == v;
    } else {
      assert (a + u)[1..] == a[1..] + u && (b + v)[1..] == b[1..] + v;
      LessAppend(a[1..], b[1..], u, v);
      assert a == [a[0]] + a[1..] && b == [b[0]] + b[1..];
    }
  }

  lemma {:induction false} DigitsOrder(s: string, t: string)
    requires AllDigits(s) && AllDigits(t) && |s| == |t|
    ensures KeyOrder.Less(s, t) <==> Value(s) < Value(t)
  {
    if s != [] {
      var n := |s| - 1;
      DigitsOrder(s[..n], t[..n]);
      LessAppend(s[..n], t[..n], s[n..], t[n..]);
      assert s == s[..n] + s[n..] && t == t[..n] + t[n..];
      if Value(s[..n]) == Value(t[..n]) {
        ValueInjective(s[..n], t[..n]);
      }
      OneCharacter(s[n], t[n]);
      assert s[n..] == [s[n]] && t[n..] == [t[n]];
    }
  }

  lemma OneCharacter(a: char, b: char)
    requires IsDigit(a) && IsDigit(b)
    ensures KeyOrder.Less([a], [b]) <==> DigitValue(a) < DigitValue(b)
  {}

  /** Zero-padded dates compare as strings exactly as the days compare. */
  lemma FormatOrder(a: Civil, b: Civil)
    requires FourDigitYear(a) && FourDigitYear(b)
    ensures KeyOrder.Less(Format(a), Format(b)) <==> DayNumber(a) < DayNumber(b)
  {
    hide Pad4, Pad2, Value, DayNumber, KeyOrder.Less, AllDigits;
    DayBounds(a);
    DayBounds(b);
    Pad4Digits(a.year);
    Pad4Digits(b.year);
    Pad2Digits(a.month);
    Pad2Digits(b.month);
    Pad2Digits(a.day);
    Pad2Digits(b.day);
    var u, v := Pad2(a.month) + ("-" + Pad2(a.day)), Pad2(b.month) + ("-" + Pad2(b.day));
    assert Format(a) == Pad4(a.year) + ("-" + u) && Format(b) == Pad4(b.year) + ("-" + v);
    LessAppend(Pad4(a.year), Pad4(b.year), "-" + u, "-" + v);
    LessAppend("-", "-", u, v);
    LessAppend(Pad2(a.month), Pad2(b.month), "-" + Pad2(a.day), "-" + Pad2(b.day));
    LessAppend("-", "-", Pad2(a.day), Pad2(b.day));
    KeyOrder.LessIrreflexive("-");
    DigitsOrder(Pad4(a.year), Pad4(b.year));
    DigitsOrder(Pad2(a.month), Pad2(b.month));
    DigitsOrder(Pad2(a.day), Pad2(b.day));
    EarlierIff(a, b);
  }

  // ---- the rule -----------------------------------------------------------

  /** What the rule is for. */
  predicate DaysInWindow(arrival: int, receipt: int) {
    -60 <= arrival - receipt <= 180
  }

  /** The receipt days on which every comparison is between four-digit years and no two-digit year is reinterpreted. */
  predicate SafeReceipt(day: int) {
    DayNumber(Civil(100, 1, 1)) <= day && day + 180 <= DayNumber(Civil(9999, 12, 31))
  }

  /** Day shifting by text is day arithmetic from year 100 on. */
  lemma AddDaysIs(c: Civil, n: int)
    requires FourDigitYear(c) && c.year >= 100 && -1000 <= n <= 1000
    ensures AddDaysUtc(Format(c), n) == Some(Format(CivilOf(DayNumber(c) + n)))
  {
    hide Format, DayFromYear, DaysBefore, CivilOf;
    FormatParts(c);
    DayBounds(c);
    assert (c.month - 1) / 12 == 0 && (c.month - 1) % 12 == c.month - 1;
    assert DateUtc(c) == MS_PER_DAY * DayNumber(c);
    YearsInRange(c);
    WholeDays(DayNumber(c) + n);
  }

  lemma YearsInRange(c: Civil)
    requires FourDigitYear(c)
    ensures -1_000_000 < DayNumber(c) < 4_000_000
  {
    hide DayNumber;
    var first, last := Civil(0, 1, 1), Civil(9999, 12, 31);
    EarlierIff(c, first);
    EarlierIff(last, c);
    Landmarks();
  }

  lemma Landmarks()
    ensures DayNumber(Civil(0, 1, 1)) == -719_528 && DayNumber(Civil(100, 1, 1)) == -683_003
    ensures DayNumber(Civil(9999, 12, 31)) == 2_932_896
  {
    InYear(Civil(9999, 12, 31));
    MonthsAddUp(9999);
  }

  lemma FourDigitDays(n: int)
    requires DayNumber(Civil(0, 1, 1)) <= n <= DayNumber(Civil(9999, 12, 31))
    ensures FourDigitYear(CivilOf(n))
  {
    hide DayFromYear, DaysBefore;
    EarlierIff(CivilOf(n), Civil(0, 1, 1));
    EarlierIff(Civil(9999, 12, 31), CivilOf(n));
  }

  /** From the year 100 to 180 days before the end of the year 9999 the string comparison is day arithmetic. */
  lemma WindowIsDays(arrival: string, receivedAt: int)
    requires IsCalendarDate(arrival) && SafeReceipt(UtcDay(receivedAt))
    ensures InWindow(arrival, receivedAt) == Some(DaysInWindow(DayNumber(Parts(arrival)), UtcDay(receivedAt)))
  {
    hide DayNumber, CivilOf, Format, FourDigitYear, AddDaysUtc, KeyOrder.Less, IsCivil;
    var day := UtcDay(receivedAt);
    Landmarks();
    var receipt := CivilOf(day);
    FourDigitDays(day);
    FourDigitDays(day - WINDOW_DAYS_BEFORE);
    FourDigitDays(day + WINDOW_DAYS_AFTER);
    FromYear100(day);
    AddDaysIs(receipt, -WINDOW_DAYS_BEFORE);
    AddDaysIs(receipt, WINDOW_DAYS_AFTER);
    PartsFormat(arrival);
    FormatOrder(Parts(arrival), CivilOf(day - WINDOW_DAYS_BEFORE));
    FormatOrder(CivilOf(day + WINDOW_DAYS_AFTER), Parts(arrival));
  }

  lemma FromYear100(n: int)
    requires n >= DayNumber(Civil(100, 1, 1))
    ensures CivilOf(n).year >= 100
  {
    hide DayFromYear, DaysBefore;
    EarlierIff(CivilOf(n), Civil(100, 1, 1));
  }

  // ---- and only there -----------------------------------------------------

  lemma TextIsNotYmd(c: Civil)
    requires IsCivil(c) && (c.year < 0 || c.year > 9999)
    ensures !IsYmd(Format(c))
  {
    hide Value, IsLeapYear;
    DayBounds(c);
    Pad2Digits(c.month);
    Pad2Digits(c.day);
    hide Pad2;
    Powers();
    assert |Format(c)| == |Pad4(c.year)| + 6;
    if c.year > 9999 {
      NatTextLong(c.year, 4);
    } else {
      assert '-' in Pad4(c.year);
      if |Pad4(c.year)| == 4 {
        assert Format(c)[..4] == Pad4(c.year);
      }
    }
  }

  /** Outside that range the rule misjudges, or throws on, an arrival on the very day of receipt or any other day. */
  lemma WindowFails(receivedAt: int) returns (arrival: string)
    requires !SafeReceipt(UtcDay(receivedAt))
    ensures IsCalendarDate(arrival)
    ensures InWindow(arrival, receivedAt) != Some(DaysInWindow(DayNumber(Parts(arrival)), UtcDay(receivedAt)))
  {
    hide DayNumber, CivilOf, Format, AddDaysUtc, KeyOrder.Less;
    var c := CivilOf(UtcDay(receivedAt));
    if !ValidTime(receivedAt) || c.year < 0 || c.year > 9999 {
      arrival := Format(Civil(2000, 1, 1));
      ValidFormat(Civil(2000, 1, 1));
      if ValidTime(receivedAt) {
        TextIsNotYmd(c);
        NotADate(c);
      }
    } else if c.year < 100 {
      arrival := Format(c);
      ValidFormat(c);
      FormatParts(c);
      TwoDigitYear(c);
    } else {
      arrival := Format(c);
      ValidFormat(c);
      FormatParts(c);
      EarlierIff(c, Civil(100, 1, 1));
      FiveDigitYear(c);
    }
  }

  lemma NotADate(c: Civil)
    requires !IsYmd(Format(c))
    ensures AddDaysUtc(Format(c), -WINDOW_DAYS_BEFORE) == None
  {}

  /** The year 50 is read as 1950 when days are added to it. */
  lemma TwoDigitYear(c: Civil)
    requires FourDigitYear(c) && c.year <= 99
    ensures var lower := AddDaysUtc(Format(c), -WINDOW_DAYS_BEFORE);
            lower.Some? && !KeyOrder.Leq(lower.value, Format(c))
  {
    hide Format, FormatTime, DateUtc, DayNumber, CivilOf, KeyOrder.Less, IsYmd, DaysInMonth, Value;
    FormatParts(c);
    var day := TwoDigitShift(c);
    Landmarks();
    BeforeYear100(c);
    FourDigitDays(day);
    FormatOrder(c, CivilOf(day));
  }

  lemma BeforeYear100(c: Civil)
    requires FourDigitYear(c) && c.year <= 99
    ensures DayNumber(c) < -683_003
  {
    hide DayNumber;
    Landmarks();
    EarlierIff(c, Civil(100, 1, 1));
  }

  lemma TwoDigitShift(c: Civil) returns (day: int)
    requires FourDigitYear(c) && c.year <= 99
    ensures FormatTime(DateUtc(c) - WINDOW_DAYS_BEFORE * MS_PER_DAY) == Format(CivilOf(day)) && -30_000 <= day <= 20_000
  {
    hide Format, DaysBefore, DayFromYear, CivilOf;
    DayBounds(c);
    assert (c.month - 1) / 12 == 0 && (c.month - 1) % 12 == c.month - 1;
    var first := Civil(1900 + c.year, c.month, 1);
    SomeDays(first.year, first.month);
    EarlierIff(first, Civil(1900, 1, 1));
    EarlierIff(Civil(1999, 12, 31), first);
    Centuries();
    day := DayNumber(first) + c.day - 1 - WINDOW_DAYS_BEFORE;
    WholeDays(day);
  }

  lemma WholeDays(day: int)
    requires -MAX_DAYS <= day <= MAX_DAYS
    ensures FormatTime(day * MS_PER_DAY) == Format(CivilOf(day))
  {
    hide Format, CivilOf;
  }

  lemma Centuries()
    ensures DayNumber(Civil(1900, 1, 1)) == -25_567 && DayNumber(Civil(1999, 12, 31)) == 10_956
  {
    MonthsAddUp(1999);
  }

  /** The string "10000-…" stands before "9999-…". */
  lemma FiveDigitYear(c: Civil)
    requires FourDigitYear(c) && c.year >= 100 && DayNumber(c) + WINDOW_DAYS_AFTER > DayNumber(Civil(9999, 12, 31))
    ensures var upper := AddDaysUtc(Format(c), WINDOW_DAYS_AFTER);
            upper.Some? && !KeyOrder.Leq(Format(c), upper.value)
  {
    hide NatText, DaysBefore, DayFromYear, Zeros;
    AddDaysIs(c, WINDOW_DAYS_AFTER);
    Landmarks();
    Year9999();
    EarlierIff(c, Civil(9999, 1, 1));
    EarlierIff(Civil(9999, 12, 31), c);
    var next := CivilOf(DayNumber(c) + WINDOW_DAYS_AFTER);
    EarlierIff(Civil(9999, 12, 31), next);
    EarlierIff(next, Civil(10_000, 12, 31));
    assert c.year == 9999 && next.year == 10_000;
    YearTexts();
    assert Format(c)[0] == '9' && Format(next)[0] == '1';
  }

  lemma Year9999()
    ensures DayNumber(Civil(9999, 1, 1)) == 2_932_532 && DayNumber(Civil(10_000, 12, 31)) == 2_933_262
  {
    MonthsAddUp(10_000);
  }

  lemma YearTexts()
    ensures NatText(9999) == "9999" && NatText(10_000) == "10000"
  {
    assert NatText(9) == "9" && NatText(99) == "99" && NatText(999) == "999";
    assert NatText(1) == "1" && NatText(10) == "10" && NatText(100) == "100" && NatText(1000) == "1000";
  }

  /** The rule decides the window for every calendar-valid arrival exactly when the receipt's day, counted in UTC, is a
      safe one. */
  lemma WindowIff(receivedAt: int)
    ensures SafeReceipt(receivedAt / 86_400_000) <==>
            forall arrival: string :: IsCalendarDate(arrival) ==>
              InWindow(arrival, receivedAt) == Some(DaysInWindow(DayNumber(Parts(arrival)), receivedAt / 86_400_000))
  {
    hide SafeReceipt, InWindow, DaysInWindow, DaysInMonth, Value, AllDigits;
    var day := receivedAt / 86_400_000;
    assert UtcDay(receivedAt) == day;
    if SafeReceipt(day) {
      forall arrival: string | IsCalendarDate(arrival)
        ensures InWindow(arrival, receivedAt) == Some(DaysInWindow(DayNumber(Parts(arrival)), day))
      {
        WindowIsDays(arrival, receivedAt);
      }
    } else {
      var arrival := WindowFails(receivedAt);
    }
  }
}
