/**
 * The requested date as text: chrono's `NaiveDate::parse_from_str(s, "%m.%d.%Y")`,
 * read as three dot-separated decimal fields in month, day, year order that
 * must name a real date inside chrono's range, and the zero-padded
 * rendering `%m.%d.%Y` that callers use to build such text.
 */
module DateText {
  import opened Wrappers
  import opened Text
  import opened Calendar

  /** A month or day field: one or two ASCII digits. */
  predicate ShortField(f: string) {
    1 <= |f| <= 2 && IsDigits(f)
  }

  /** A year field: one to four ASCII digits (`%Y` without a sign reads at most four). */
  predicate YearField(f: string) {
    1 <= |f| <= 4 && IsDigits(f)
  }

  /** Parses `mm.dd.yyyy`; fails on anything else, and on dates that do not exist. */
  function ParseDate(s: string): (r: Option<Date>)
    ensures r.Some? ==> ValidDate(r.value) && 0 <= r.value.year < 10000 && Representable(r.value)
  {
    var fields := Split(s, '.');
    if |fields| == 3 && ShortField(fields[0]) && ShortField(fields[1]) && YearField(fields[2]) then
      var d := Date(DigitsValue(fields[2]), DigitsValue(fields[0]), DigitsValue(fields[1]));
      DigitsValueBound(fields[2]);
      assert Pow10(|fields[2]|) <= 10000 by { Pow10Monotone(|fields[2]|, 4); }
      if ValidDate(d) then Some(d) else None
    else None
  }

  /** A year field longer than four digits is refused, whatever its value. */
  lemma LongYearRefused(m: string, dd: string, y: string)
    requires IsDigits(m) && IsDigits(dd) && IsDigits(y) && |y| > 4
    ensures ParseDate(m + "." + dd + "." + y) == None
  {
    SplitFields(m, dd, y);
  }

  /** "01.01.02000" and "01.01.10000" do not parse: a five-digit year is too long. */
  lemma TestFiveDigitYear(s: string, y: string)
    requires (y == "02000" || y == "10000") && s == "01.01." + y
    ensures ParseDate(s) == None
  {
    assert IsDigits("01");
    assert s == "01" + "." + "01" + "." + y;
    LongYearRefused("01", "01", y);
  }

  /**
   * A date is accepted only when the text is exactly three numeric fields
   * joined by dots, holding its month, day and year in that order.
   */
  lemma ParsedText(s: string, d: Date)
    requires ParseDate(s) == Some(d)
    ensures exists m, dd, y ::
      && ShortField(m) && ShortField(dd) && YearField(y)
      && s == m + "." + dd + "." + y
      && DigitsValue(m) == d.month && DigitsValue(dd) == d.day && DigitsValue(y) == d.year
  {
    var fields := Split(s, '.');
    JoinSplit(s, '.');
    assert fields == [fields[0]] + [fields[1], fields[2]];
    JoinCons(fields[0], [fields[1], fields[2]], '.');
    JoinCons(fields[1], [fields[2]], '.');
  }

  /** `%m.%d.%Y`: month and day zero-padded to two digits, the year to four. */
  function FormatDate(d: Date): string
    requires ValidDate(d) && 0 <= d.year < 10000
  {
    PadDigits(d.month, 2) + "." + PadDigits(d.day, 2) + "." + PadDigits(d.year, 4)
  }

  /** Digit fields contain no dot. */
  lemma DigitsAvoidDot(f: string)
    requires IsDigits(f)
    ensures '.' !in f
  {
    forall i | 0 <= i < |f| ensures f[i] != '.' {
      assert IsDigit(f[i]);
    }
  }

  /** Three digit fields joined by dots split back into those fields. */
  lemma SplitFields(m: string, dd: string, y: string)
    requires IsDigits(m) && IsDigits(dd) && IsDigits(y)
    ensures Split(m + "." + dd + "." + y, '.') == [m, dd, y]
  {
    DigitsAvoidDot(m);
    DigitsAvoidDot(dd);
    DigitsAvoidDot(y);
    JoinCons(m, [dd, y], '.');
    JoinCons(dd, [y], '.');
    assert [m] + [dd, y] == [m, dd, y];
    Assoc(m + ".", dd + ".", y);
    Assoc(m, ".", dd + "." + y);
    Assoc(dd, ".", y);
    Assoc(m + "." + dd, ".", y);
    Assoc(m + ".", dd, ".");
    SplitJoin([m, dd, y], '.');
  }

  /** Every date with a four-digit year survives rendering and parsing back. */
  lemma ParseFormatDate(d: Date)
    requires ValidDate(d) && 0 <= d.year < 10000
    ensures ParseDate(FormatDate(d)) == Some(d)
  {
    PadDigitsValue(d.month, 2);
    PadDigitsValue(d.day, 2);
    PadDigitsValue(d.year, 4);
    SplitFields(PadDigits(d.month, 2), PadDigits(d.day, 2), PadDigits(d.year, 4));
  }

  /** The tests' requested dates: "01.01.2000" and "01.01.1999" parse to those days. */
  lemma TestDate(s: string, d: Date)
    requires (s == "01.01.2000" && d == Date(2000, 1, 1)) || (s == "01.01.1999" && d == Date(1999, 1, 1))
    ensures ParseDate(s) == Some(d)
  {
    TwoDigits('0', '1');
    if d.year == 2000 {
      assert s == "01" + "." + "01" + "." + "2000";
      FourDigits('2', '0', '0', '0');
      SplitFields("01", "01", "2000");
    } else {
      assert s == "01" + "." + "01" + "." + "1999";
      FourDigits('1', '9', '9', '9');
      SplitFields("01", "01", "1999");
    }
  }

  /** The year-first "2000.01.01" does not parse. */
  lemma TestWrongOrder(s: string)
    requires s == "2000.01.01"
    ensures ParseDate(s) == None
  {
    assert Join(["2000", "01", "01"], '.') == s;
    SplitJoin(["2000", "01", "01"], '.');
  }
}
