/**
 * Text forms of dates and months: `YearMonth.toString`/`YearMonth.parse`,
 * `LocalDate.parse` with the pattern "yyyy-MM-dd", the report's month key
 * `String.format("%04d-%02d", year, month)` and its "MON yyyy" label.
 * Only four-digit years are accepted by the parsers.
 */
module DateText {
  import opened Wrappers
  import opened Calendar
  import opened Text

  /** `YearMonth.toString()`: the year in at least four digits (signed when negative), '-', the month in two. */
  function FormatYearMonth(ym: YearMonth): string {
    (if ym.year >= 0 then PadDigits(ym.year, 4) else "-" + PadDigits(-ym.year, 4)) + "-" + PadDigits(ym.month, 2)
  }

  /** `LocalDate.toString()` for non-negative years. */
  function FormatDate(d: Date): string
    requires d.year >= 0
  {
    PadDigits(d.year, 4) + "-" + PadDigits(d.month, 2) + "-" + PadDigits(d.day, 2)
  }

  /** A fixed-width digit string is the zero-padded print of its own value. */
  lemma {:induction false} PadDigitsOfValue(s: string)
    requires AllDigits(s) && |s| >= 1
    ensures PadDigits(DigitsValue(s), |s|) == s
    decreases |s|
  {
    var init := s[..|s| - 1];
    var n := DigitsValue(s);
    assert n / 10 == DigitsValue(init) && n % 10 == DigitValue(s[|s| - 1]);
    if |s| == 1 {
      assert init == [];
    } else {
      PadDigitsOfValue(init);
      assert s == init + [s[|s| - 1]];
    }
  }

  /** `YearMonth.parse(text)` in its four-digit form "uuuu-MM"; `None` where Java throws. */
  function ParseYearMonth(s: string): (r: Option<YearMonth>)
    ensures r.Some? ==> 0 <= r.value.year <= 9999
  {
    if |s| == 7 && AllDigits(s[..4]) && s[4] == '-' && AllDigits(s[5..]) then
      ParseYearMonthBounds(s);
      var y := DigitsValue(s[..4]);
      var m := DigitsValue(s[5..]);
      if 1 <= m <= 12 then Some(YearMonthFields(y, m)) else None
    else None
  }

  lemma {:induction false} ParseYearMonthBounds(s: string)
    requires |s| == 7 && AllDigits(s[..4])
    ensures DigitsValue(s[..4]) <= 9999
  {
    PadDigitsOfValue(s[..4]);
    if DigitsValue(s[..4]) >= 10000 {
      PadDigitsTooLong(DigitsValue(s[..4]));
    }
  }

  lemma PadDigitsTooLong(n: nat)
    requires n >= 10000
    ensures |PadDigits(n, 4)| > 4
  {
    assert PadDigits(n, 4) == PadDigits(n / 10, 3) + [DigitChar(n % 10)];
    assert PadDigits(n / 10, 3) == PadDigits(n / 100, 2) + [DigitChar(n / 10 % 10)];
    assert PadDigits(n / 100, 2) == PadDigits(n / 1000, 1) + [DigitChar(n / 100 % 10)];
    assert PadDigits(n / 1000, 1) == PadDigits(n / 10000, 0) + [DigitChar(n / 1000 % 10)];
  }

  /** Printing a month and parsing it back gives the month (years 0..9999). */
  lemma ParseFormatYearMonth(ym: YearMonth)
    requires 0 <= ym.year <= 9999
    ensures ParseYearMonth(FormatYearMonth(ym)) == Some(ym)
  {
    var s := FormatYearMonth(ym);
    PadDigitsLength(ym.year, 4);
    PadDigitsLength(ym.month, 2);
    assert s[..4] == PadDigits(ym.year, 4);
    assert s[5..] == PadDigits(ym.month, 2);
    PadDigitsValue(ym.year, 4);
    PadDigitsValue(ym.month, 2);
  }

  /** Every text the parser accepts is the printed form of the month it yields. */
  lemma FormatParseYearMonth(s: string)
    requires ParseYearMonth(s).Some?
    ensures FormatYearMonth(ParseYearMonth(s).value) == s
  {
    PadDigitsOfValue(s[..4]);
    PadDigitsOfValue(s[5..]);
    assert s == s[..4] + "-" + s[5..];
  }

  /**
   * `LocalDate.parse(text, ofPattern("yyyy-MM-dd"))` for four-digit years.
   * The default SMART resolver accepts a day of 29..31 beyond the month's end
   * and moves it back to the month's last day; a year-of-era of 0 is refused.
   */
  function ParseDate(s: string): (r: Option<Date>)
    ensures r.Some? ==> 1 <= r.value.year
  {
    if |s| == 10 && AllDigits(s[..4]) && s[4] == '-' && AllDigits(s[5..7]) && s[7] == '-' && AllDigits(s[8..]) then
      var y := DigitsValue(s[..4]);
      var m := DigitsValue(s[5..7]);
      var d := DigitsValue(s[8..]);
      if 1 <= y && 1 <= m <= 12 && 1 <= d <= 31 then
        var len := LengthOfMonth(y, m);
        Some(DateFields(y, m, if d <= len then d else len))
      else None
    else None
  }

  lemma ParseFormatDate(d: Date)
    requires 1 <= d.year <= 9999
    ensures ParseDate(FormatDate(d)) == Some(d)
  {
    var s := FormatDate(d);
    PadDigitsLength(d.year, 4);
    PadDigitsLength(d.month, 2);
    PadDigitsLength(d.day, 2);
    assert s[..4] == PadDigits(d.year, 4);
    assert s[5..7] == PadDigits(d.month, 2);
    assert s[8..] == PadDigits(d.day, 2);
    PadDigitsValue(d.year, 4);
    PadDigitsValue(d.month, 2);
    PadDigitsValue(d.day, 2);
  }

  /** "2023-02-30" is read as 28 February 2023, not refused. */
  lemma ParseDateMovesDayBack()
    ensures ParseDate("2023-02-30") == Some(DateFields(2023, 2, 28))
  {
    assert DigitsValue("2023") == 2023 by {
      assert "2023"[..3] == "202" && "202"[..2] == "20" && "20"[..1] == "2" && "2"[..0] == "";
    }
    assert DigitsValue("02") == 2 by { assert "02"[..1] == "0" && "0"[..0] == ""; }
    assert DigitsValue("30") == 30 by { assert "30"[..1] == "3" && "3"[..0] == ""; }
    var s := "2023-02-30";
    assert s[..4] == "2023";
    assert s[4] == '-' && s[7] == '-';
    assert s[5..7] == "02";
    assert s[8..] == "30";
  }

  /** The report's month key, `String.format("%04d-%02d", year, month)`: zero padding counts a minus sign in the width. */
  function MonthKey(ym: YearMonth): string {
    (if ym.year >= 0 then PadDigits(ym.year, 4) else "-" + PadDigits(-ym.year, 3)) + "-" + PadDigits(ym.month, 2)
  }

  /** For years 0..9999 the month keys sort, as text, in calendar order. */
  lemma MonthKeyOrder(a: YearMonth, b: YearMonth)
    requires 0 <= a.year <= 9999 && 0 <= b.year <= 9999
    ensures LexLess(MonthKey(a), MonthKey(b)) <==> MonthIndex(a) < MonthIndex(b)
  {
    PadDigitsLength(a.year, 4);
    PadDigitsLength(b.year, 4);
    PadDigitsLength(a.month, 2);
    PadDigitsLength(b.month, 2);
    LexLessAppend(PadDigits(a.year, 4), "-" + PadDigits(a.month, 2), PadDigits(b.year, 4), "-" + PadDigits(b.month, 2));
    assert MonthKey(a) == PadDigits(a.year, 4) + ("-" + PadDigits(a.month, 2));
    assert MonthKey(b) == PadDigits(b.year, 4) + ("-" + PadDigits(b.month, 2));
    LexLessAppend("-", PadDigits(a.month, 2), "-", PadDigits(b.month, 2));
    LexLessIrreflexive("-");
    PadDigitsOrder(a.year, b.year, 4);
    PadDigitsOrder(a.month, b.month, 2);
    if a.year != b.year {
      assert PadDigits(a.year, 4) != PadDigits(b.year, 4) by {
        PadDigitsValue(a.year, 4);
        PadDigitsValue(b.year, 4);
      }
    }
    MonthIndexOrder(a, b);
  }

  /** `java.time.Month.of(month).name()`. */
  function MonthName(month: int): (s: string)
    requires 1 <= month <= 12
    ensures |s| >= 3
  {
    match month
    case 1 => "JANUARY"
    case 2 => "FEBRUARY"
    case 3 => "MARCH"
    case 4 => "APRIL"
    case 5 => "MAY"
    case 6 => "JUNE"
    case 7 => "JULY"
    case 8 => "AUGUST"
    case 9 => "SEPTEMBER"
    case 10 => "OCTOBER"
    case 11 => "NOVEMBER"
    case _ => "DECEMBER"
  }

  /**
   * The monthly report's label for a key: split at '-', parse both parts with
   * `Integer.parseInt`, then the month name's first three letters, a space and
   * the year. `None` where Java throws.
   */
  function MonthLabel(key: string): Option<string> {
    var parts := Split(key, '-');
    if |parts| < 2 then None
    else
      match (ParseNat(parts[0]), ParseNat(parts[1]))
      case (Some(y), Some(m)) =>
        if 1 <= m <= 12 then Some(MonthName(m)[..3] + " " + NatToString(y)) else None
      case _ => None
  }

  /** Every key of a non-negative year gets the label "MON year". */
  lemma MonthLabelOfKey(ym: YearMonth)
    requires ym.year >= 0
    ensures MonthLabel(MonthKey(ym)) == Some(MonthName(ym.month)[..3] + " " + NatToString(ym.year))
  {
    var y := PadDigits(ym.year, 4);
    var m := PadDigits(ym.month, 2);
    DigitsHaveNoDash(y);
    DigitsHaveNoDash(m);
    SplitTwo(y, m, '-');
    assert MonthKey(ym) == y + ['-'] + m;
    ParsePadDigits(ym.year, 4);
    ParsePadDigits(ym.month, 2);
  }

  /** A key of a negative year starts with '-', so its first part is empty and the label cannot be built. */
  lemma MonthLabelOfNegativeYear(ym: YearMonth)
    requires ym.year < 0
    ensures MonthLabel(MonthKey(ym)) == None
  {
    var y := PadDigits(-ym.year, 3);
    var m := PadDigits(ym.month, 2);
    DigitsHaveNoDash(y);
    DigitsHaveNoDash(m);
    var key := MonthKey(ym);
    assert key == ['-'] + (y + ['-'] + m);
    assert key[1..] == y + ['-'] + m;
    SplitAllTwo(y, m, '-');
    assert SplitAll(key, '-') == [[], y, m];
    assert key[0] == '-';
    assert Split(key, '-') == [[], y, m];
  }

  lemma DigitsHaveNoDash(s: string)
    requires AllDigits(s)
    ensures '-' !in s
  {
  }

  lemma MonthLabelExample()
    ensures MonthLabel(MonthKey(YearMonthFields(2024, 11))) == Some("NOV 2024")
  {
    var ym: YearMonth := YearMonthFields(2024, 11);
    MonthLabelOfKey(ym);
    YearText();
    assert MonthName(11)[..3] + " " + "2024" == "NOV 2024";
  }

  lemma YearText()
    ensures NatToString(2024) == "2024"
  {
    assert PadDigits(2, 0) == "2";
    assert PadDigits(20, 0) == "20";
    assert PadDigits(202, 0) == "202";
  }
}
