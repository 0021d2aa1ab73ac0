/** `TimeStamp`: a fixed-format date-time string "MM/DD/YYYY hh:mm:ssAM"
    (or "PM") packed into one integer whose decimal digit groups are the
    year, month, day, 24-hour hour, minute and second, so that one integer
    comparison orders two time stamps. */
module TimeStamps {
  import opened Outcomes
  import opened JavaStrings
  import opened Orders

  /** The original text is kept for display; `val` is the packed ordinal. */
  datatype TimeStamp = TimeStamp(originalString: string, val: int)

  /** The six numbers a time stamp is made of, hour already on the 24-hour clock. */
  datatype Fields = Fields(year: int, month: int, day: int, hour: int, minute: int, second: int)

  /** The constructor's accumulation: start from 100 * year, then add each
      later field and shift by two decimal digits. */
  function Pack(f: Fields): int {
    ((((100 * f.year + f.month) * 100 + f.day) * 100 + f.hour) * 100 + f.minute) * 100 + f.second
  }

  /** The 12-hour to 24-hour fix: "12..AM" loses 12 hours, a PM hour other
      than 12 gains 12, every other combination is kept as read. */
  function To24Hour(hr: int, amPm: string): int {
    if amPm == "AM" && hr == 12 then hr - 12
    else if amPm == "PM" && hr != 12 then hr + 12
    else hr
  }

  /** The `TimeStamp(String)` constructor. The fields are read from fixed
      positions with `Integer.parseInt`; a string shorter than 19 characters
      or a field that is not a number makes the constructor throw. */
  function Parse(s: string): (r: Result<TimeStamp>)
    ensures r.Ok? ==> r.value.originalString == s
    ensures r.Ok? <==> |s| >= 19 && ParseInt(s[6..10]).Some? && ParseInt(s[0..2]).Some?
                       && ParseInt(s[3..5]).Some? && ParseInt(s[11..13]).Some?
                       && ParseInt(s[14..16]).Some? && ParseInt(s[17..19]).Some?
  {
    if |s| < 19 then Err(MalformedTimeStamp)
    else
      var year, month, day := ParseInt(s[6..10]), ParseInt(s[0..2]), ParseInt(s[3..5]);
      var hour, minute, second := ParseInt(s[11..13]), ParseInt(s[14..16]), ParseInt(s[17..19]);
      if year.None? || month.None? || day.None? || hour.None? || minute.None? || second.None? then
        Err(MalformedTimeStamp)
      else
        var hr := To24Hour(hour.value, s[19..]);
        Ok(TimeStamp(s, Pack(Fields(year.value, month.value, day.value, hr, minute.value, second.value))))
  }

  /** `compareTo`: -1, 0 or 1 by the order of the packed values. */
  function CompareTo(a: TimeStamp, b: TimeStamp): (r: int)
    ensures -1 <= r <= 1
    ensures r < 0 <==> a.val < b.val
    ensures r == 0 <==> a.val == b.val
    ensures r > 0 <==> a.val > b.val
  {
    var result := a.val - b.val;
    if result < 0 then -1
    else if result > 0 then 1
    else 0
  }

  lemma CompareToIsComparator()
    ensures IsComparator(CompareTo)
  {
  }

  // ---------------------------------------------------------------------
  // Well-formed input

  predicate DigitsAt(s: string, lo: int, hi: int)
    requires 0 <= lo <= hi <= |s|
  {
    AllDigits(s[lo..hi])
  }

  /** "MM/DD/YYYY hh:mm:ssAM" or "...PM" with decimal digits in every
      numeric position and an hour from 01 to 12. */
  predicate WellFormed(s: string) {
    && |s| == 21
    && DigitsAt(s, 0, 2) && s[2] == '/' && DigitsAt(s, 3, 5) && s[5] == '/'
    && DigitsAt(s, 6, 10) && s[10] == ' '
    && DigitsAt(s, 11, 13) && s[13] == ':' && DigitsAt(s, 14, 16) && s[16] == ':'
    && DigitsAt(s, 17, 19)
    && (s[19..] == "AM" || s[19..] == "PM")
    && 1 <= DigitsValue(s[11..13]) <= 12
  }

  function Pow10(k: nat): nat {
    if k == 0 then 1 else 10 * Pow10(k - 1)
  }

  lemma {:induction false} DigitsValueBound(s: string)
    requires AllDigits(s)
    ensures DigitsValue(s) < Pow10(|s|)
  {
    if |s| > 0 {
      DigitsValueBound(s[..|s| - 1]);
    }
  }

  /** A field of at most four digits parses to its decimal value. */
  lemma ParseShortDigits(s: string)
    requires 0 < |s| <= 4 && AllDigits(s)
    ensures ParseInt(s) == Some(DigitsValue(s))
  {
    DigitsValueBound(s);
    assert Pow10(|s|) <= 10000;
  }

  /** The hour conversion of a well-formed stamp is a bijection from
      {1..12} x {AM, PM} onto the 24-hour clock: the hour modulo 12 is kept,
      and the result is in the afternoon exactly for PM. */
  lemma HourConversion(hr: int, amPm: string)
    requires 1 <= hr <= 12
    requires amPm == "AM" || amPm == "PM"
    ensures 0 <= To24Hour(hr, amPm) < 24
    ensures To24Hour(hr, amPm) % 12 == hr % 12
    ensures To24Hour(hr, amPm) < 12 <==> amPm == "AM"
    ensures To24Hour(hr, amPm) == hr % 12 + (if amPm == "PM" then 12 else 0)
  {
  }

  lemma PackValue(f: Fields)
    ensures Pack(f) == f.year * 10_000_000_000 + f.month * 100_000_000 + f.day * 1_000_000
                       + f.hour * 10_000 + f.minute * 100 + f.second
  {
  }

  /** For a well-formed string the packed value is
      Y*10^10 + M*10^8 + D*10^6 + H*10^4 + Mi*10^2 + S, with H the
      24-hour hour. */
  lemma ParseWellFormed(s: string)
    requires WellFormed(s)
    ensures Parse(s).Ok?
    ensures Parse(s).value.val ==
      DigitsValue(s[6..10]) * 10_000_000_000 + DigitsValue(s[0..2]) * 100_000_000
      + DigitsValue(s[3..5]) * 1_000_000
      + (DigitsValue(s[11..13]) % 12 + (if s[19..] == "PM" then 12 else 0)) * 10_000
      + DigitsValue(s[14..16]) * 100 + DigitsValue(s[17..19])
  {
    ParseShortDigits(s[6..10]);
    ParseShortDigits(s[0..2]);
    ParseShortDigits(s[3..5]);
    ParseShortDigits(s[11..13]);
    ParseShortDigits(s[14..16]);
    ParseShortDigits(s[17..19]);
    var hr := To24Hour(DigitsValue(s[11..13]), s[19..]);
    HourConversion(DigitsValue(s[11..13]), s[19..]);
    var f := Fields(DigitsValue(s[6..10]), DigitsValue(s[0..2]), DigitsValue(s[3..5]), hr,
                    DigitsValue(s[14..16]), DigitsValue(s[17..19]));
    ParseFields(s, f, DigitsValue(s[11..13]));
    PackValue(f);
  }

  // ---------------------------------------------------------------------
  // Order preservation

  /** Lexicographic order on (year, month, day, hour, minute, second). */
  predicate LexLess(a: Fields, b: Fields) {
    || a.year < b.year
    || (a.year == b.year && a.month < b.month)
    || (a.year == b.year && a.month == b.month && a.day < b.day)
    || (a.year == b.year && a.month == b.month && a.day == b.day && a.hour < b.hour)
    || (a.year == b.year && a.month == b.month && a.day == b.day && a.hour == b.hour
        && a.minute < b.minute)
    || (a.year == b.year && a.month == b.month && a.day == b.day && a.hour == b.hour
        && a.minute == b.minute && a.second < b.second)
  }

  /** Every field below the year fits in two decimal digits. */
  predicate TwoDigitFields(f: Fields) {
    && 0 <= f.month < 100 && 0 <= f.day < 100 && 0 <= f.hour < 100
    && 0 <= f.minute < 100 && 0 <= f.second < 100
  }

  lemma ShiftOrder(x: int, a: int, y: int, b: int)
    requires 0 <= a < 100 && 0 <= b < 100
    ensures x * 100 + a < y * 100 + b <==> x < y || (x == y && a < b)
    ensures x * 100 + a == y * 100 + b <==> x == y && a == b
  {
    if x < y {
      assert x * 100 + 100 <= y * 100;
    } else if y < x {
      assert y * 100 + 100 <= x * 100;
    }
  }

  /** Packing preserves order: one packed value is below another exactly when
      its fields are lexicographically below. */
  lemma PackOrder(f: Fields, g: Fields)
    requires TwoDigitFields(f) && TwoDigitFields(g)
    ensures Pack(f) < Pack(g) <==> LexLess(f, g)
    ensures Pack(f) == Pack(g) <==> f == g
  {
    var f1, g1 := 100 * f.year + f.month, 100 * g.year + g.month;
    ShiftOrder(f.year, f.month, g.year, g.month);
    var f2, g2 := f1 * 100 + f.day, g1 * 100 + g.day;
    ShiftOrder(f1, f.day, g1, g.day);
    var f3, g3 := f2 * 100 + f.hour, g2 * 100 + g.hour;
    ShiftOrder(f2, f.hour, g2, g.hour);
    var f4, g4 := f3 * 100 + f.minute, g3 * 100 + g.minute;
    ShiftOrder(f3, f.minute, g3, g.minute);
    ShiftOrder(f4, f.second, g4, g.second);
    assert 100 * f.year + f.month == f.year * 100 + f.month;
    assert 100 * g.year + g.month == g.year * 100 + g.month;
  }

  lemma TwoDigits(s: string)
    requires |s| == 2 && AllDigits(s)
    ensures DigitsValue(s) == (s[0] as int - '0' as int) * 10 + (s[1] as int - '0' as int)
  {
    var p := s[..1];
    assert p[..0] == [] && p[0] == s[0];
    assert DigitsValue(p) == s[0] as int - '0' as int;
  }

  lemma FourDigits(s: string)
    requires |s| == 4 && AllDigits(s)
    ensures DigitsValue(s) == DigitsValue(s[..2]) * 100 + DigitsValue(s[2..])
  {
    assert s[..3][..2] == s[..2];
    TwoDigits(s[..2]);
    TwoDigits(s[2..]);
  }

  lemma ParseFields(s: string, f: Fields, hr: int)
    requires |s| >= 19
    requires ParseInt(s[6..10]) == Some(f.year) && ParseInt(s[0..2]) == Some(f.month)
    requires ParseInt(s[3..5]) == Some(f.day) && ParseInt(s[11..13]) == Some(hr)
    requires ParseInt(s[14..16]) == Some(f.minute) && ParseInt(s[17..19]) == Some(f.second)
    requires f.hour == To24Hour(hr, s[19..])
    ensures Parse(s) == Ok(TimeStamp(s, Pack(f)))
  {
  }

  function Digit(ch: char): int {
    ch as int - '0' as int
  }

  /** A two-digit field parses to its decimal value. */
  lemma ParseTwoDigits(s: string)
    requires |s| == 2 && AllDigits(s)
    ensures ParseInt(s) == Some(Digit(s[0]) * 10 + Digit(s[1]))
  {
    TwoDigits(s);
    ParseShortDigits(s);
  }

  /** A four-digit field parses to its decimal value. */
  lemma ParseFourDigits(s: string)
    requires |s| == 4 && AllDigits(s)
    ensures ParseInt(s) == Some(Digit(s[0]) * 1000 + Digit(s[1]) * 100 + Digit(s[2]) * 10 + Digit(s[3]))
  {
    FourDigits(s);
    TwoDigits(s[..2]);
    TwoDigits(s[2..]);
    ParseShortDigits(s);
  }

  lemma SampleMinimumFields()
    ensures ParseInt("05") == Some(5) && ParseInt("04") == Some(4) && ParseInt("02") == Some(2)
    ensures ParseInt("09") == Some(9) && ParseInt("40") == Some(40) && ParseInt("2015") == Some(2015)
  {
    ParseTwoDigits("05"); ParseTwoDigits("04"); ParseTwoDigits("02"); ParseTwoDigits("09");
    ParseTwoDigits("40"); ParseFourDigits("2015");
  }

  /** The fixed layout "MM/DD/YYYY hh:mm:ss" followed by the AM/PM marker. */
  function Layout(mm: string, dd: string, yyyy: string, hh: string, mi: string, ss: string,
                  amPm: string): string
  {
    mm + "/" + dd + "/" + yyyy + " " + hh + ":" + mi + ":" + ss + amPm
  }

  /** The constructor's substring positions pick out exactly the fields of the layout. */
  lemma LayoutFields(mm: string, dd: string, yyyy: string, hh: string, mi: string, ss: string,
                     amPm: string)
    requires |mm| == 2 && |dd| == 2 && |yyyy| == 4 && |hh| == 2 && |mi| == 2 && |ss| == 2
    ensures var s := Layout(mm, dd, yyyy, hh, mi, ss, amPm);
      && |s| == 19 + |amPm| && s[0..2] == mm && s[3..5] == dd && s[6..10] == yyyy
      && s[11..13] == hh && s[14..16] == mi && s[17..19] == ss && s[19..] == amPm
  {
  }

  /** The smallest stamp of the small sample log. */
  lemma SampleMinimum()
    ensures Parse("05/04/2015 02:09:40PM") == Ok(TimeStamp("05/04/2015 02:09:40PM", 20150504140940))
  {
    var s := "05/04/2015 02:09:40PM";
    assert s == Layout("05", "04", "2015", "02", "09", "40", "PM");
    LayoutFields("05", "04", "2015", "02", "09", "40", "PM");
    SampleMinimumFields();
    var f := Fields(2015, 5, 4, 14, 9, 40);
    assert Pack(f) == 20150504140940;
    ParseFields(s, f, 2);
  }

  lemma SampleMaximumFields()
    ensures ParseInt("11") == Some(11) && ParseInt("20") == Some(20) && ParseInt("38") == Some(38)
    ensures ParseInt("22") == Some(22) && ParseInt("2017") == Some(2017)
  {
    ParseTwoDigits("11"); ParseTwoDigits("20"); ParseTwoDigits("38"); ParseTwoDigits("22");
    ParseFourDigits("2017");
  }

  /** The largest stamp of the small sample log. */
  lemma SampleMaximum()
    ensures Parse("11/20/2017 11:38:22AM") == Ok(TimeStamp("11/20/2017 11:38:22AM", 20171120113822))
  {
    var s := "11/20/2017 11:38:22AM";
    assert s == Layout("11", "20", "2017", "11", "38", "22", "AM");
    LayoutFields("11", "20", "2017", "11", "38", "22", "AM");
    SampleMaximumFields();
    assert "AM"[0] != "PM"[0];
    var f := Fields(2017, 11, 20, 11, 38, 22);
    assert Pack(f) == 20171120113822;
    ParseFields(s, f, 11);
  }

  lemma DummyStampFields()
    ensures ParseInt("01") == Some(1) && ParseInt("12") == Some(12) && ParseInt("00") == Some(0)
    ensures ParseInt("2000") == Some(2000)
  {
    ParseTwoDigits("01"); ParseTwoDigits("12"); ParseTwoDigits("00");
    ParseFourDigits("2000");
  }

  /** The stamp of the user report's search key is well formed: midnight
      (12 AM) on 1 January 2000. */
  lemma DummyStamp()
    ensures Parse("01/01/2000 12:00:00AM") == Ok(TimeStamp("01/01/2000 12:00:00AM", 20000101000000))
  {
    var s := "01/01/2000 12:00:00AM";
    assert s == Layout("01", "01", "2000", "12", "00", "00", "AM");
    LayoutFields("01", "01", "2000", "12", "00", "00", "AM");
    DummyStampFields();
    var f := Fields(2000, 1, 1, 0, 0, 0);
    assert Pack(f) == 20000101000000;
    ParseFields(s, f, 12);
  }
}
